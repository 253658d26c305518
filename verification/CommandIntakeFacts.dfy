/** What each step of the intake records, how long a deferred row waits, and which revision is given. */
module CommandIntakeFacts {
  import opened Ordering
  import opened CommandIntake

  // ----- waiting -----

  /** Fifteen seconds at first, doubled with every further attempt up to a quarter of an hour. */
  lemma DelaysDouble(attempts: nat)
    ensures Delay(0) == 15000 && Delay(1) == 15000
    ensures attempts >= 1 ==> Delay(attempts + 1) == Min(900000, 2 * Delay(attempts))
  {
    if attempts >= 1 && attempts <= 8 {
      assert Pow2(attempts) == 2 * Pow2(attempts - 1);
      if attempts >= 7 {
        assert Pow2(6) == 64 by { PowersOfTwo(); }
        PowersGrow(6, attempts - 1);
      }
    } else if attempts > 8 {
      assert Pow2(8) == 256 by { PowersOfTwo(); }
    }
    assert Pow2(0) == 1;
  }

  lemma PowersOfTwo()
    ensures Pow2(6) == 64 && Pow2(8) == 256
  {
    assert Pow2(1) == 2 && Pow2(2) == 4 && Pow2(3) == 8 && Pow2(4) == 16 && Pow2(5) == 32 && Pow2(6) == 64 && Pow2(7) == 128;
  }

  lemma {:induction false} PowersGrow(m: nat, n: nat)
    requires m <= n
    ensures Pow2(m) <= Pow2(n)
  {
    if m < n { PowersGrow(m, n - 1); }
  }

  /** The end of a deferral: the delay, a second at least; or the time asked for, within a quarter of an hour. */
  function WaitUntil(attempts: nat, now: int, requested: Option<int>): int {
    var asked := if requested.Some? && requested.value != 0 then Min(requested.value, now + 900000) else 0;
    Max(now + Max(1000, Delay(attempts)), asked)
  }

  /** A deferred row that is still there waits, one attempt further where that counts; a pending receipt
      notes why; nothing else changes. */
  lemma DeferralIsExact(t: Tables, version: string, now: int, detail: string, requested: Option<int>, increment: bool, v: string)
    ensures var u := Defer(t, version, now, detail, requested, increment);
            && u.watermarks == t.watermarks && u.revisions == t.revisions
            && u.intakes.Keys == t.intakes.Keys && u.receipts.Keys == t.receipts.Keys
            && (v in t.intakes && v != version ==> u.intakes[v] == t.intakes[v])
            && (v in t.intakes && v == version ==>
                  var attempts := t.intakes[v].attempts + if increment then 1 else 0;
                  u.intakes[v] == t.intakes[v].(attempts := attempts, next := WaitUntil(attempts, now, requested)))
            && (v in t.receipts && !(v == version && t.receipts[v].outcome.Pending?) ==> u.receipts[v] == t.receipts[v])
            && (v in t.receipts && v == version && t.receipts[v].outcome.Pending? ==>
                  u.receipts[v] == t.receipts[v].(observedAt := now, detail := Some(detail)))
  {
    hide Delay;
  }

  /** A row sent back to verification waits for its delay and forgets its decision. */
  lemma RetryIsExact(t: Tables, version: string, now: int, detail: string, v: string)
    requires v in t.intakes
    ensures var u := RetryVerification(t, version, now, detail);
            v in u.intakes && u.intakes[v] ==
              if v != version then t.intakes[v]
              else t.intakes[v].(stage := VerifyPending, attempts := t.intakes[v].attempts + 1,
                                 next := now + Delay(t.intakes[v].attempts + 1), verified := None)
  {
    hide Delay;
  }

  // ----- arriving and passing verification -----

  /** A version that is older than its comment's watermark, or is that very one, is put on record as
      rejected; any other is taken in pending, and moves an older watermark. */
  lemma ArrivalIsExact(t: Tables, i: Intake, now: int)
    requires i.version !in t.receipts
    ensures var a := Admit(t, i, now);
            var u := a.tables;
            var known := i.key in t.watermarks;
            var same := known && t.watermarks[i.key].version == i.version && t.watermarks[i.key].at == i.updatedAt;
            && u.revisions == t.revisions && i.version in u.receipts
            && if same || (known && t.watermarks[i.key].at > i.updatedAt) then
                 && a.admission == Refused(if same then "semantic command version already observed" else "older comment version")
                 && u == t.(receipts := t.receipts[i.version :=
                      Receipt(i.key, Rejected, now, Some(if same then "already_observed" else "older_comment_version"))])
               else
                 && a.admission == Accepted(false)
                 && u.receipts[i.version] == Receipt(i.key, Pending, now, None)
                 && i.version in u.intakes && u.intakes[i.version] == Record(i, VerifyPending, 0, now, now, None)
                 && u.watermarks == if known && t.watermarks[i.key].at == i.updatedAt then t.watermarks
                                    else t.watermarks[i.key := Watermark(i.updatedAt, i.version, i.body)]
  {
    hide Supersede, Without;
  }

  /** What a newer version does to the others of its comment: their rows go, and their pending receipts
      are superseded; all else stays. */
  lemma OthersOnArrival(t: Tables, i: Intake, now: int, v: string)
    requires i.version !in t.receipts && v != i.version
    ensures var u := Admit(t, i, now).tables;
            var newer := i.key in t.watermarks && t.watermarks[i.key].at < i.updatedAt;
            && (v in u.intakes <==> v in t.intakes && !(newer && t.intakes[v].intake.key == i.key))
            && (v in u.intakes ==> u.intakes[v] == t.intakes[v])
            && (v in u.receipts <==> v in t.receipts)
            && (v in t.receipts ==> u.receipts[v] == Overtaken(t.receipts[v], newer, i.key, now, "newer_comment_version"))
  {
  }

  /** And what a verified version does to them. */
  lemma OthersOnVerification(t: Tables, i: Intake, now: int, decision: string, v: string)
    requires v != i.version && !(i.key in t.watermarks && t.watermarks[i.key].at > i.updatedAt)
    ensures var u := Step(t, Verified(i, now, decision));
            && (v in u.intakes <==> v in t.intakes && t.intakes[v].intake.key != i.key)
            && (v in u.intakes ==> u.intakes[v] == t.intakes[v])
            && (v in u.receipts <==> v in t.receipts)
            && (v in t.receipts ==> u.receipts[v] == Overtaken(t.receipts[v], true, i.key, now, "verified_sibling_version"))
  {
  }

  function Overtaken(r: Receipt, overtaken: bool, key: string, now: int, why: string): Receipt {
    if overtaken && r.key == key && r.outcome.Pending? then Receipt(key, Superseded, now, Some(why)) else r
  }

  /** A version met before is answered from its receipt: refused with its reason if it was rejected or
      superseded, and accepted as a repeat otherwise. */
  lemma RepeatIsAnswered(t: Tables, i: Intake, now: int)
    requires i.version in t.receipts
    ensures var r := t.receipts[i.version];
            var reason := if r.detail.Some? && r.detail.value != "" then r.detail.value
                          else if r.outcome.Rejected? then "rejected" else "superseded";
            Admit(t, i, now) == Admitting(t, if r.outcome.Rejected? || r.outcome.Superseded? then Refused(reason) else Accepted(true))
  {
    hide Supersede, Without;
  }

  /** A verified version stands for its comment's time, with its own body; its row moves on with a fresh
      count of attempts. One that its comment has passed is finished as superseded. */
  lemma VerificationIsExact(t: Tables, i: Intake, now: int, decision: string)
    ensures var u := Step(t, Verified(i, now, decision));
            var known := i.key in t.watermarks;
            && u.revisions == t.revisions
            && if known && t.watermarks[i.key].at > i.updatedAt then u == Finish(t, i.version, Superseded, now, Some("newer_comment_version"))
               else
                 && u.watermarks == (if known && t.watermarks[i.key].at == i.updatedAt
                                     then t.watermarks[i.key := Watermark(i.updatedAt, i.version, i.body)] else t.watermarks)
                 && (i.version in t.intakes ==> i.version in u.intakes)
                 && (i.version in t.intakes ==>
                       var r := t.intakes[i.version];
                       u.intakes[i.version] == r.(stage := EnqueuePending, attempts := 0, next := now, verified := Some(decision)))
  {
    hide Supersede;
  }

  // ----- ending -----

  /** Finishing records the outcome on the version's own receipt and drops its row. */
  lemma FinishIsExact(t: Tables, version: string, outcome: Outcome, now: int, detail: Option<string>, v: string)
    ensures var u := Finish(t, version, outcome, now, detail);
            && u.watermarks == t.watermarks && u.revisions == t.revisions && u.receipts.Keys == t.receipts.Keys
            && (v in u.intakes <==> v in t.intakes && v != version) && (v in u.intakes ==> u.intakes[v] == t.intakes[v])
            && (v in t.receipts ==> u.receipts[v] == if v == version then Receipt(t.receipts[v].key, outcome, now, detail) else t.receipts[v])
  {
  }

  /** Exactly the final receipts of thirty days and more are forgotten. */
  lemma PruneIsExact(t: Tables, now: int, v: string)
    ensures var u := PruneTerminal(t, now);
            && u == t.(receipts := u.receipts)
            && (v in u.receipts <==> v in t.receipts && (t.receipts[v].outcome.Pending? || t.receipts[v].observedAt > now - 2592000000))
            && (v in u.receipts ==> u.receipts[v] == t.receipts[v])
  {
  }

  // ----- revisions -----

  ghost predicate Usable(t: Tables, item: string, minimum: int, retained: seq<int>, r: int) {
    && r >= 1 && r >= minimum && (item in t.revisions ==> r > t.revisions[item]) && (forall x | x in retained :: r > x)
  }

  lemma {:induction false} MaxOfIsReached(q: seq<int>, floor: int)
    ensures MaxOf(q, floor) == floor || MaxOf(q, floor) in q
  {
    if q != [] {
      MaxOfIsReached(q[1..], floor);
      assert forall x :: x in q <==> x == q[0] || x in q[1..];
    }
  }

  /** The revision given is the least that is positive, not below the minimum, and above the counter and
      every revision retained. */
  lemma AllocationIsLeast(t: Tables, item: string, minimum: int, retained: seq<int>, r: int)
    requires item in t.revisions ==> t.revisions[item] >= 0
    ensures Usable(t, item, minimum, retained, Allocate(t, item, minimum, retained))
    ensures Usable(t, item, minimum, retained, r) ==> Allocate(t, item, minimum, retained) <= r
  {
    MaxOfIsAbove(retained, Max(0, minimum - 1));
    MaxOfIsReached(retained, Max(0, minimum - 1));
    hide MaxOf;
  }
}
