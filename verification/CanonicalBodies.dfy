/** The body store under the canonical records: objects keyed by digest, put once, never deleted, and
    verified in full whenever they are read. */
module CanonicalBodies {
  import opened Ordering
  import CanonicalTables

  type Octets = seq<bv8>

  /** What the bucket holds under a key: the size it reports, and what its stream delivers. */
  datatype Object = Object(size: int, chunks: seq<Octets>)

  datatype Descriptor = Descriptor(digest: int, bytes: int)

  type Bucket = map<int, Object>

  function Joined(chunks: seq<Octets>): Octets {
    if chunks == [] then [] else Joined(chunks[..|chunks| - 1]) + chunks[|chunks| - 1]
  }

  predicate ValidDescriptor(d: Descriptor) { 0 <= d.bytes <= CanonicalTables.MAX_FILE_BYTES }

  /** The octets a read delivers; None is the "unavailable or corrupt" error. */
  function Readable(bucket: Bucket, hash: Octets -> int, d: Descriptor): Option<Octets> {
    if !ValidDescriptor(d) || d.digest !in bucket || bucket[d.digest].size != d.bytes then None
    else
      var all := Joined(bucket[d.digest].chunks);
      if |all| == d.bytes && hash(all) == d.digest then Some(all) else None
  }

  function Put(bucket: Bucket, digest: int, content: Octets): Bucket {
    if digest in bucket then bucket else bucket[digest := Object(|content|, [content])]
  }

  predicate Describes(d: Descriptor, hash: Octets -> int, content: Octets) {
    ValidDescriptor(d) && |content| == d.bytes && hash(content) == d.digest
  }

  lemma {:induction false} JoinedGrows(chunks: seq<Octets>, n: nat)
    requires n <= |chunks|
    ensures |Joined(chunks[..n])| <= |Joined(chunks)|
    decreases |chunks| - n
  {
    if n < |chunks| {
      assert chunks[..n + 1][..n] == chunks[..n];
      JoinedGrows(chunks, n + 1);
    } else {
      assert chunks[..n] == chunks;
    }
  }

  // ----- what the store promises -----

  /** Nothing is ever taken away: what could be read once can be read ever after. */
  ghost predicate Grows(a: Bucket, b: Bucket) { forall k | k in a :: k in b && b[k] == a[k] }

  lemma ReadableStays(a: Bucket, b: Bucket, hash: Octets -> int, d: Descriptor)
    requires Grows(a, b) && Readable(a, hash, d).Some?
    ensures Readable(b, hash, d) == Readable(a, hash, d)
  {
  }

  lemma PutGrows(bucket: Bucket, digest: int, content: Octets)
    ensures Grows(bucket, Put(bucket, digest, content))
  {
  }

  /** Preparing succeeds iff the content fits its descriptor and the key is free or already holds the
      same octets intact; an object that is there is never overwritten. */
  lemma PreparedExactlyWhen(bucket: Bucket, hash: Octets -> int, d: Descriptor, content: Octets)
    requires Describes(d, hash, content)
    ensures Readable(Put(bucket, d.digest, content), hash, d) == Some(content)
       <==> d.digest !in bucket || Readable(bucket, hash, d) == Some(content)
  {
    assert [content][..0] == [];
    assert Joined([content]) == [] + content == content;
  }

  /** Where no two bodies share a digest, a read can only deliver the body that was prepared. */
  lemma ReadsAreFaithful(bucket: Bucket, hash: Octets -> int, d: Descriptor, content: Octets)
    requires Describes(d, hash, content) && (forall x, y :: hash(x) == hash(y) ==> x == y)
    ensures Readable(bucket, hash, d).Some? ==> Readable(bucket, hash, d).value == content
  {
  }

  class Store {
    const hash: Octets -> int
    var bucket: Bucket

    constructor (hash: Octets -> int)
      ensures this.hash == hash && bucket == map[]
    {
      this.hash := hash;
      bucket := map[];
    }

    /** Fills a buffer of the described size from the stream, then checks all of it. */
    method Read(d: Descriptor) returns (content: Option<Octets>)
      ensures content == Readable(bucket, hash, d)
    {
      if !ValidDescriptor(d) || d.digest !in bucket || bucket[d.digest].size != d.bytes {
        return None;
      }
      var chunks := bucket[d.digest].chunks;
      var bytes := new bv8[d.bytes];
      var offset := 0;
      var n := 0;
      while n < |chunks|
        invariant 0 <= n <= |chunks| && 0 <= offset <= bytes.Length
        invariant bytes[..offset] == Joined(chunks[..n])
      {
        assert chunks[..n + 1][..n] == chunks[..n];
        var value := chunks[n];
        if offset + |value| > bytes.Length {
          JoinedGrows(chunks, n + 1);
          return None;
        }
        forall k | 0 <= k < |value| {
          bytes[offset + k] := value[k];
        }
        assert bytes[..offset + |value|] == bytes[..offset] + value;
        offset := offset + |value|;
        n := n + 1;
      }
      assert chunks[..|chunks|] == chunks;
      if offset != bytes.Length || hash(bytes[..]) != d.digest {
        assert offset == bytes.Length ==> bytes[..offset] == bytes[..];
        return None;
      }
      assert bytes[..offset] == bytes[..];
      return Some(bytes[..]);
    }

    /** A conditional put, and then the same verification for new and existing objects alike. */
    method Prepare(content: Octets, d: Descriptor) returns (ok: bool)
      modifies this
      ensures bucket == if Describes(d, hash, content) then Put(old(bucket), d.digest, content) else old(bucket)
      ensures ok <==> Describes(d, hash, content) && Readable(bucket, hash, d) == Some(content)
      ensures Grows(old(bucket), bucket)
    {
      PutGrows(bucket, d.digest, content);
      if !ValidDescriptor(d) || |content| != d.bytes || hash(content) != d.digest {
        return false;
      }
      if d.digest !in bucket {
        bucket := bucket[d.digest := Object(|content|, [content])];
      }
      var stored := Read(d);
      return stored == Some(content);
    }
  }
}
