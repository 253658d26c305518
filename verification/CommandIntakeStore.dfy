/** The command intake store: each method is one transaction over its tables, statement by statement. */
module CommandIntakeStore {
  import opened Ordering
  import opened CommandIntake

  class Store {
    var tables: Tables

    constructor ()
      ensures tables == EMPTY
    {
      tables := EMPTY;
    }

    method Admit(i: Intake, now: int) returns (admission: Admission)
      modifies this
      ensures Admitting(tables, admission) == CommandIntake.Admit(old(tables), i, now)
    {
      hide Supersede, Without;
      if i.version in tables.receipts {
        var receipt := tables.receipts[i.version];
        if receipt.outcome.Rejected? || receipt.outcome.Superseded? {
          return Refused(if receipt.detail.Some? && receipt.detail.value != "" then receipt.detail.value
                         else if receipt.outcome.Rejected? then "rejected" else "superseded");
        }
        return Accepted(true);
      }
      if i.key in tables.watermarks {
        var watermark := tables.watermarks[i.key];
        var same := watermark.version == i.version && watermark.at == i.updatedAt;
        if watermark.at > i.updatedAt || same {
          var detail := if same then "already_observed" else "older_comment_version";
          tables := tables.(receipts := tables.receipts[i.version := Receipt(i.key, Rejected, now, Some(detail))]);
          return Refused(if same then "semantic command version already observed" else "older comment version");
        }
        if watermark.at < i.updatedAt {
          tables := tables.(receipts := Supersede(tables.receipts, i.key, None, now, "newer_comment_version"));
          tables := tables.(intakes := Without(tables.intakes, i.key, None));
        }
      }
      tables := tables.(watermarks := tables.watermarks[i.key := Raised(tables, i)]);
      tables := tables.(receipts := tables.receipts[i.version := Receipt(i.key, Pending, now, None)]);
      tables := tables.(intakes := tables.intakes[i.version := Record(i, VerifyPending, 0, now, now, None)]);
      return Accepted(false);
    }

    method MarkVerified(i: Intake, now: int) returns (ok: bool)
      modifies this
      ensures Marking(tables, ok) == CommandIntake.MarkVerified(old(tables), i, now)
    {
      hide Supersede, Without;
      if i.key in tables.watermarks && tables.watermarks[i.key].at > i.updatedAt {
        return false;
      }
      if i.key in tables.watermarks && tables.watermarks[i.key].at == i.updatedAt {
        tables := tables.(watermarks := tables.watermarks[i.key := Watermark(i.updatedAt, i.version, i.body)]);
      }
      tables := tables.(receipts := Supersede(tables.receipts, i.key, Some(i.version), now, "verified_sibling_version"));
      tables := tables.(intakes := Without(tables.intakes, i.key, Some(i.version)));
      return true;
    }

    method Advance(version: string, stage: Stage, now: int, decision: string)
      modifies this
      ensures tables == CommandIntake.Advance(old(tables), version, stage, now, decision)
    {
      if version in tables.intakes {
        var next := tables.intakes[version].(stage := stage, attempts := 0, next := now, verified := Some(decision));
        tables := tables.(intakes := tables.intakes[version := next]);
      }
    }

    method Finish(version: string, outcome: Outcome, now: int, detail: Option<string>)
      modifies this
      ensures tables == CommandIntake.Finish(old(tables), version, outcome, now, detail)
    {
      if version in tables.receipts {
        var r := tables.receipts[version].(outcome := outcome, observedAt := now, detail := detail);
        tables := tables.(receipts := tables.receipts[version := r]);
      }
      tables := tables.(intakes := tables.intakes - {version});
    }

    method Defer(version: string, now: int, detail: string, requested: Option<int>, increment: bool)
      modifies this
      ensures tables == CommandIntake.Defer(old(tables), version, now, detail, requested, increment)
    {
      hide DeferredTo;
      if version in tables.intakes {
        var r := tables.intakes[version];
        var attempts := if increment then r.attempts + 1 else r.attempts;
        r := r.(attempts := attempts, next := DeferredTo(attempts, now, requested));
        tables := tables.(intakes := tables.intakes[version := r]);
      }
      tables := tables.(receipts := Note(tables, version, now, detail));
    }

    method RetryVerification(version: string, now: int, detail: string)
      modifies this
      ensures tables == CommandIntake.RetryVerification(old(tables), version, now, detail)
    {
      hide Delay;
      if version in tables.intakes {
        var r := tables.intakes[version];
        r := r.(stage := VerifyPending, attempts := r.attempts + 1, next := now + Delay(r.attempts + 1), verified := None);
        tables := tables.(intakes := tables.intakes[version := r]);
      }
      tables := tables.(receipts := Note(tables, version, now, detail));
    }

    method AllocateItemRevision(item: string, minimum: int, retained: seq<int>) returns (revision: int)
      modifies this
      ensures revision == Allocate(old(tables), item, minimum, retained)
      ensures tables == old(tables).(revisions := old(tables).revisions[item := revision])
    {
      var floor := Max(0, minimum - 1);
      var i := |retained|;
      while i > 0
        invariant 0 <= i <= |retained|
        invariant floor == MaxOf(retained[i..], Max(0, minimum - 1))
      {
        i := i - 1;
        assert retained[i..][1..] == retained[i + 1..];
        floor := Max(retained[i], floor);
      }
      var last := LastRevision(tables, item);
      tables := tables.(revisions := tables.revisions[item := Max(last, floor)]);
      revision := tables.revisions[item] + 1;
      tables := tables.(revisions := tables.revisions[item := revision]);
    }
  }
}
