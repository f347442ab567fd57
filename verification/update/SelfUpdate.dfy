/** Reassembly of an uploaded binary from numbered chunks. */
module SelfUpdate {
  import opened Sequences
  import opened Wrappers
  import opened Utf8

  const U32 := 0x1_0000_0000

  datatype Buffer = Buffer(chunks: map<nat, Bytes>, total: nat)

  // ----- Joining in index order -----

  predicate IsLeast(k: nat, s: set<nat>) { k in s && forall j :: j in s ==> k <= j }

  lemma {:induction false} FindLeast(s: set<nat>, x: nat) returns (k: nat)
    requires x in s
    ensures IsLeast(k, s)
    decreases x
  {
    if j :| j in s && j < x {
      k := FindLeast(s, j);
    } else {
      k := x;
    }
  }

  lemma {:induction false} HasLeast(s: set<nat>)
    requires s != {}
    ensures exists k :: IsLeast(k, s)
  {
    var x :| x in s;
    var k := FindLeast(s, x);
  }

  function Least(s: set<nat>): (k: nat)
    requires s != {}
    ensures IsLeast(k, s)
  {
    HasLeast(s);
    var k :| k in s && IsLeast(k, s);
    k
  }

  /** `sort_unstable` on the keys. */
  function SortedKeys(s: set<nat>): seq<nat>
    decreases |s|
  {
    if s == {} then [] else [Least(s)] + SortedKeys(s - {Least(s)})
  }

  lemma {:induction false} SortedKeysAre(s: set<nat>)
    ensures forall k :: k in SortedKeys(s) <==> k in s
    ensures Distinct(SortedKeys(s))
    decreases |s|
  {
    if s != {} {
      SortedKeysAre(s - {Least(s)});
    }
  }

  function Concat(chunks: map<nat, Bytes>, order: seq<nat>): Bytes
    requires forall k :: k in order ==> k in chunks
  {
    if order == [] then [] else chunks[order[0]] + Concat(chunks, order[1..])
  }

  function Joined(chunks: map<nat, Bytes>): Bytes {
    SortedKeysAre(chunks.Keys);
    Concat(chunks, SortedKeys(chunks.Keys))
  }

  // ----- Receiving a chunk -----

  function Received(b: Buffer, index: nat, total: nat, data: Bytes): map<nat, Bytes> {
    (if index == 0 || total != b.total then map[] else b.chunks)[index := data]
  }

  /** The buffer after a chunk, and the assembled bytes once the count is reached. */
  function Pushed(b: Buffer, index: nat, total: nat, data: Bytes): (Buffer, Option<Bytes>) {
    var chunks := Received(b, index, total, data);
    if |chunks| % U32 == total then (Buffer(map[], total), Some(Joined(chunks)))
    else (Buffer(chunks, total), None)
  }

  class SelfUpdateBuffer {
    var chunks: map<nat, Bytes>
    var totalChunks: nat

    constructor ()
      ensures Contents() == Buffer(map[], 0)
    {
      chunks, totalChunks := map[], 0;
    }

    ghost function Contents(): Buffer
      reads this
    {
      Buffer(chunks, totalChunks)
    }

    method Push(index: nat, total: nat, data: Bytes) returns (r: Option<Bytes>)
      modifies this
      ensures (Contents(), r) == Pushed(old(Contents()), index, total, data)
    {
      if index == 0 || total != totalChunks {
        chunks := map[];
      }
      totalChunks := total;
      chunks := chunks[index := data];
      if |chunks| % U32 != totalChunks {
        return None;
      }
      SortedKeysAre(chunks.Keys);
      var bytes := Drain(SortedKeys(chunks.Keys));
      return Some(bytes);
    }

    /** Moves every chunk out, in the given order. */
    method Drain(indices: seq<nat>) returns (bytes: Bytes)
      requires Distinct(indices) && forall k :: k in indices <==> k in chunks
      modifies this`chunks
      ensures chunks == map[] && bytes == Concat(old(chunks), indices)
    {
      ghost var all := chunks;
      bytes := [];
      for i := 0 to |indices|
        invariant Remaining(chunks, all, indices[..i])
        invariant bytes + Concat(all, indices[i..]) == Concat(all, indices)
      {
        var k := indices[i];
        assert indices[..i + 1] == indices[..i] + [k];
        TakeOne(chunks, all, indices[..i], k);
        ConcatNext(bytes, all, indices, i);
        bytes := bytes + chunks[k];
        chunks := chunks - {k};
      }
      assert indices[..|indices|] == indices && bytes + [] == bytes;
      NothingRemains(chunks, all, indices);
    }
  }

  /** What is left of `all` once the chunks in `gone` have been moved out. */
  ghost predicate Remaining(chunks: map<nat, Bytes>, all: map<nat, Bytes>, gone: seq<nat>) {
    chunks == map k | k in all && k !in gone :: all[k]
  }

  lemma {:induction false} NothingRemains(chunks: map<nat, Bytes>, all: map<nat, Bytes>, gone: seq<nat>)
    requires Remaining(chunks, all, gone) && forall k :: k in all ==> k in gone
    ensures chunks == map[]
  {
  }

  lemma {:induction false} ConcatNext(bytes: Bytes, all: map<nat, Bytes>, indices: seq<nat>, i: nat)
    requires i < |indices| && forall k :: k in indices ==> k in all
    ensures bytes + Concat(all, indices[i..]) == (bytes + all[indices[i]]) + Concat(all, indices[i + 1..])
  {
    assert indices[i..][1..] == indices[i + 1..] && indices[i..][0] == indices[i];
    Associates(bytes, all[indices[i]], Concat(all, indices[i + 1..]));
  }

  lemma TakeOne(chunks: map<nat, Bytes>, all: map<nat, Bytes>, gone: seq<nat>, k: nat)
    requires Remaining(chunks, all, gone)
    ensures Remaining(chunks - {k}, all, gone + [k])
  {
  }

  ghost predicate Distinct(s: seq<nat>) { forall i, j :: 0 <= i < j < |s| ==> s[i] != s[j] }
}
