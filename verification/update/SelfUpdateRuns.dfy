/** When an upload is assembled, and that what is assembled is what was sent. */
module SelfUpdateRuns {
  import opened Wrappers
  import opened Utf8
  import opened SelfUpdate

  function Range(n: nat): set<nat> { if n == 0 then {} else Range(n - 1) + {n - 1} }

  lemma {:induction false} RangeIs(n: nat)
    ensures |Range(n)| == n && forall k: nat :: k in Range(n) <==> k < n
    decreases n
  {
    if n > 0 {
      RangeIs(n - 1);
    }
  }

  lemma {:induction false} SubsetSize(s: set<nat>, t: set<nat>)
    requires s <= t
    ensures |s| <= |t| && (|s| == |t| ==> s == t)
  {
    assert t == s + (t - s) && s !! (t - s);
    assert |t| == |s| + |t - s|;
  }

  predicate HasAll(s: set<nat>, n: nat) { forall k :: 0 <= k < n ==> k in s }

  predicate AllBelow(s: set<nat>, n: nat) { forall k :: k in s ==> k < n }

  /** Indices below `n` are at most `n`, and exactly `n` when they are all there. */
  lemma {:induction false} Pigeonhole(s: set<nat>, n: nat)
    requires AllBelow(s, n)
    ensures |s| <= n && (|s| == n <==> HasAll(s, n))
  {
    RangeIs(n);
    SubsetSize(s, Range(n));
    assert HasAll(s, n) ==> s == Range(n);
  }

  lemma {:induction false} CoveringIsExact(s: set<nat>, n: nat)
    requires |s| == n
    ensures HasAll(s, n) <==> AllBelow(s, n)
  {
    RangeIs(n);
    if HasAll(s, n) {
      SubsetSize(Range(n), s);
    }
    if AllBelow(s, n) {
      Pigeonhole(s, n);
    }
  }

  /** The chunks from index `from` to `n`, in order. */
  function InOrder(chunks: map<nat, Bytes>, from: nat, n: nat): Bytes
    requires forall k :: from <= k < n ==> k in chunks
    decreases n - from
  {
    if from >= n then [] else chunks[from] + InOrder(chunks, from + 1, n)
  }

  ghost predicate IsRange(s: set<nat>, from: nat, n: nat) { forall k :: k in s <==> from <= k < n }

  lemma {:induction false} SortedFront(s: set<nat>, from: nat, n: nat)
    requires IsRange(s, from, n) && from < n
    ensures IsRange(s - {from}, from + 1, n) && SortedKeys(s) == [from] + SortedKeys(s - {from})
  {
    assert from in s;
    assert Least(s) == from;
  }

  lemma {:induction false} ConcatFront(chunks: map<nat, Bytes>, k: nat, rest: seq<nat>)
    requires k in chunks && forall j :: j in rest ==> j in chunks
    ensures forall j :: j in [k] + rest ==> j in chunks
    ensures Concat(chunks, [k] + rest) == chunks[k] + Concat(chunks, rest)
  {
    assert ([k] + rest)[1..] == rest;
  }

  lemma {:induction false} SortedRange(s: set<nat>, chunks: map<nat, Bytes>, from: nat, n: nat)
    requires IsRange(s, from, n) && s <= chunks.Keys
    ensures (forall k :: k in SortedKeys(s) ==> k in chunks) && (forall k :: from <= k < n ==> k in chunks)
    ensures Concat(chunks, SortedKeys(s)) == InOrder(chunks, from, n)
    decreases n - from
  {
    if from < n {
      assert from in s;
      SortedFront(s, from, n);
      SortedRange(s - {from}, chunks, from + 1, n);
      ConcatFront(chunks, from, SortedKeys(s - {from}));
    } else {
      assert s == {};
    }
  }

  predicate InRange(b: Buffer) { forall k :: k in b.chunks ==> k < b.total }

  /** With every index below the total, a push returns bytes exactly when all indices have arrived
      since the last reset, and they are the latest chunk of each index, in index order. */
  lemma {:induction false} PushCompletesIff(b: Buffer, index: nat, total: nat, data: Bytes)
    requires InRange(b) && index < total < U32
    ensures var chunks := Received(b, index, total, data); var (after, r) := Pushed(b, index, total, data);
      && InRange(after)
      && (r.Some? <==> HasAll(chunks.Keys, total))
      && (r.Some? ==> r.value == InOrder(chunks, 0, total))
  {
    var chunks := Received(b, index, total, data);
    Pigeonhole(chunks.Keys, total);
    if |chunks| == total {
      SortedRange(chunks.Keys, chunks, 0, total);
    }
  }

  /** The index range is what makes completion mean anything: a completed push has all indices
      exactly when none of the held ones is out of range. */
  lemma {:induction false} CompleteIffInRange(b: Buffer, index: nat, total: nat, data: Bytes)
    requires Pushed(b, index, total, data).1.Some? && |Received(b, index, total, data)| < U32
    ensures var held := Received(b, index, total, data).Keys; HasAll(held, total) <==> AllBelow(held, total)
  {
    CoveringIsExact(Received(b, index, total, data).Keys, total);
  }

  /** An out-of-range index completes an upload that misses a chunk. */
  lemma OutOfRangeIndexCompletes(a: Bytes, c: Bytes)
    ensures var b := Pushed(Buffer(map[], 0), 0, 2, a).0;
      Pushed(b, 7, 2, c).1.Some? && 1 !in Received(b, 7, 2, c)
  {
    var first := Received(Buffer(map[], 0), 0, 2, a);
    assert |first| == 1;
    assert Pushed(Buffer(map[], 0), 0, 2, a).0 == Buffer(first, 2);
    assert |Received(Buffer(first, 2), 7, 2, c)| == 2;
  }

  // ----- Uploading in some order -----

  function Payload(pieces: seq<Bytes>): Bytes {
    if pieces == [] then [] else pieces[0] + Payload(pieces[1..])
  }

  predicate OrderFits(pieces: seq<Bytes>, order: seq<nat>) {
    |pieces| < U32 && forall i :: 0 <= i < |order| ==> order[i] < |pieces|
  }

  /** The buffer after the pieces have been pushed in some order. */
  function After(b: Buffer, pieces: seq<Bytes>, order: seq<nat>): Buffer
    requires OrderFits(pieces, order)
  {
    if order == [] then b
    else
      var k := order[|order| - 1];
      Pushed(After(b, pieces, order[..|order| - 1]), k, |pieces|, pieces[k]).0
  }

  /** What the last of those pushes returned. */
  function LastResult(b: Buffer, pieces: seq<Bytes>, order: seq<nat>): Option<Bytes>
    requires OrderFits(pieces, order) && order != []
  {
    var k := order[|order| - 1];
    Pushed(After(b, pieces, order[..|order| - 1]), k, |pieces|, pieces[k]).1
  }

  predicate Covers(order: seq<nat>, n: nat) { forall k :: 0 <= k < n ==> k in order }

  function Held(pieces: seq<Bytes>, order: seq<nat>): map<nat, Bytes>
    requires OrderFits(pieces, order)
  {
    map k | k in order :: pieces[k]
  }

  lemma {:induction false} HeldSnoc(pieces: seq<Bytes>, order: seq<nat>, k: nat)
    requires OrderFits(pieces, order) && k < |pieces|
    ensures OrderFits(pieces, order + [k]) && Held(pieces, order + [k]) == Held(pieces, order)[k := pieces[k]]
  {
  }

  lemma {:induction false} InOrderIsPayload(pieces: seq<Bytes>, chunks: map<nat, Bytes>, from: nat)
    requires from <= |pieces| && forall k :: 0 <= k < |pieces| ==> k in chunks && chunks[k] == pieces[k]
    ensures InOrder(chunks, from, |pieces|) == Payload(pieces[from..])
    decreases |pieces| - from
  {
    if from < |pieces| {
      InOrderIsPayload(pieces, chunks, from + 1);
      assert pieces[from..][1..] == pieces[from + 1..];
    }
  }

  /** A push onto exactly the pieces in `held` either completes the payload or adds its piece. */
  lemma {:induction false} PushOnto(pieces: seq<Bytes>, held: seq<nat>, k: nat)
    requires OrderFits(pieces, held) && k < |pieces| && k != 0
    ensures OrderFits(pieces, held + [k])
    ensures Pushed(Buffer(Held(pieces, held), |pieces|), k, |pieces|, pieces[k]) ==
      if Covers(held + [k], |pieces|) then (Buffer(map[], |pieces|), Some(Payload(pieces)))
      else (Buffer(Held(pieces, held + [k]), |pieces|), None)
  {
    HeldSnoc(pieces, held, k);
    var b := Buffer(Held(pieces, held), |pieces|);
    Lands(pieces, b, held + [k], k);
  }

  lemma {:induction false} Lands(pieces: seq<Bytes>, b: Buffer, now: seq<nat>, k: nat)
    requires OrderFits(pieces, now) && k < |pieces| && InRange(b)
    requires Received(b, k, |pieces|, pieces[k]) == Held(pieces, now)
    ensures Pushed(b, k, |pieces|, pieces[k]) ==
      if Covers(now, |pieces|) then (Buffer(map[], |pieces|), Some(Payload(pieces)))
      else (Buffer(Held(pieces, now), |pieces|), None)
  {
    PushCompletesIff(b, k, |pieces|, pieces[k]);
    assert forall j :: j in Held(pieces, now) <==> j in now;
    if Covers(now, |pieces|) {
      InOrderIsPayload(pieces, Held(pieces, now), 0);
      assert pieces[0..] == pieces;
    }
  }

  /** Chunk 0 starts over whatever was there. */
  lemma {:induction false} PushFirst(pieces: seq<Bytes>, b: Buffer)
    requires 0 < |pieces| < U32
    ensures OrderFits(pieces, [0])
    ensures Pushed(b, 0, |pieces|, pieces[0]) ==
      if Covers([0], |pieces|) then (Buffer(map[], |pieces|), Some(Payload(pieces)))
      else (Buffer(Held(pieces, [0]), |pieces|), None)
  {
    var empty := Buffer(map[], |pieces|);
    assert Received(b, 0, |pieces|, pieces[0]) == Received(empty, 0, |pieces|, pieces[0]) == Held(pieces, [0]);
    assert Pushed(b, 0, |pieces|, pieces[0]) == Pushed(empty, 0, |pieces|, pieces[0]);
    Lands(pieces, empty, [0], 0);
  }

  lemma {:induction false} FrontNeverCovers(order: seq<nat>, n: nat)
    requires |order| > 1 && forall m :: 0 <= m < |order| ==> !Covers(order[..m], n)
    ensures var front := order[..|order| - 1];
      !Covers(front, n) && forall m :: 0 <= m < |front| ==> !Covers(front[..m], n)
  {
    var front := order[..|order| - 1];
    forall m | 0 <= m < |front|
      ensures !Covers(front[..m], n)
    {
      assert front[..m] == order[..m];
    }
  }

  /** From any earlier state, an upload that starts with chunk 0 returns nothing until every chunk has
      arrived, the others in whatever order and however often, and then the payload that was sent. */
  lemma {:induction false} UploadReturnsThePayload(b: Buffer, pieces: seq<Bytes>, order: seq<nat>)
    requires OrderFits(pieces, order) && order != [] && order[0] == 0
    requires forall i :: 0 < i < |order| ==> order[i] != 0
    requires forall m :: 0 <= m < |order| ==> !Covers(order[..m], |pieces|)
    ensures LastResult(b, pieces, order) == if Covers(order, |pieces|) then Some(Payload(pieces)) else None
    ensures !Covers(order, |pieces|) ==> After(b, pieces, order) == Buffer(Held(pieces, order), |pieces|)
    decreases |order|
  {
    var n := |order| - 1;
    var front, k := order[..n], order[n];
    assert front + [k] == order;
    if n == 0 {
      assert front == [] && order == [0];
      PushFirst(pieces, b);
    } else {
      FrontNeverCovers(order, |pieces|);
      UploadReturnsThePayload(b, pieces, front);
      PushOnto(pieces, front, k);
    }
  }

  // ----- Uploads one after the other -----

  lemma {:induction false} AfterSnoc(b: Buffer, pieces: seq<Bytes>, front: seq<nat>, k: nat, order: seq<nat>)
    requires OrderFits(pieces, front) && k < |pieces| && order == front + [k]
    ensures OrderFits(pieces, order)
    ensures (After(b, pieces, order), LastResult(b, pieces, order)) ==
      Pushed(After(b, pieces, front), k, |pieces|, pieces[k])
  {
    assert order[..|order| - 1] == front && order[|order| - 1] == k;
  }

  /** One more push after `first` and `front`. */
  lemma {:induction false} PushedLater(
    b: Buffer, s: Buffer, pieces: seq<Bytes>, first: seq<nat>, front: seq<nat>, k: nat, rest: seq<nat>, all: seq<nat>)
    requires OrderFits(pieces, first) && OrderFits(pieces, front) && k < |pieces|
    requires rest == front + [k] && all == first + rest
    requires OrderFits(pieces, first + front) && After(b, pieces, first + front) == After(s, pieces, front)
    ensures OrderFits(pieces, all) && After(b, pieces, all) == After(s, pieces, rest)
    ensures LastResult(b, pieces, all) == LastResult(s, pieces, rest)
  {
    AfterSnoc(s, pieces, front, k, rest);
    assert all == (first + front) + [k];
    AfterSnoc(b, pieces, first + front, k, all);
  }

  lemma {:induction false} AfterConcat(b: Buffer, pieces: seq<Bytes>, first: seq<nat>, rest: seq<nat>)
    requires OrderFits(pieces, first) && OrderFits(pieces, rest)
    ensures OrderFits(pieces, first + rest)
    ensures After(b, pieces, first + rest) == After(After(b, pieces, first), pieces, rest)
    ensures rest != [] ==> LastResult(b, pieces, first + rest) == LastResult(After(b, pieces, first), pieces, rest)
    decreases |rest|
  {
    if rest == [] {
      assert first + rest == first;
    } else {
      var front, k := rest[..|rest| - 1], rest[|rest| - 1];
      AfterConcat(b, pieces, first, front);
      PushedLater(b, After(b, pieces, first), pieces, first, front, k, rest, first + rest);
    }
  }

  /** Whatever was sent before it, restarts included: from the last chunk 0 on, nothing comes back until
      every chunk has arrived, and then the payload that was sent. */
  lemma {:induction false} LastRestartCounts(b: Buffer, pieces: seq<Bytes>, order: seq<nat>, z: nat)
    requires OrderFits(pieces, order) && z < |order| && order[z] == 0
    requires forall i :: z < i < |order| ==> order[i] != 0
    requires forall m :: z <= m < |order| ==> !Covers(order[z..m], |pieces|)
    ensures LastResult(b, pieces, order) == if Covers(order[z..], |pieces|) then Some(Payload(pieces)) else None
  {
    var rest := order[z..];
    assert order[..z] + rest == order;
    forall m | 0 <= m < |rest|
      ensures !Covers(rest[..m], |pieces|)
    {
      assert rest[..m] == order[z..z + m];
    }
    AfterConcat(b, pieces, order[..z], rest);
    UploadReturnsThePayload(After(b, pieces, order[..z]), pieces, rest);
  }

  function UpTo(n: nat): seq<nat> { if n == 0 then [] else UpTo(n - 1) + [n - 1] }

  lemma {:induction false} UpToIs(n: nat)
    ensures |UpTo(n)| == n && forall i :: 0 <= i < n ==> UpTo(n)[i] == i
    decreases n
  {
    if n > 0 {
      UpToIs(n - 1);
    }
  }

  /** So from any earlier state an in-order upload returns the payload on its last push, and nothing
      before. */
  lemma {:induction false} InOrderUpload(b: Buffer, pieces: seq<Bytes>, k: nat)
    requires 0 < k <= |pieces| < U32
    ensures OrderFits(pieces, UpTo(k)) && UpTo(k) != []
    ensures LastResult(b, pieces, UpTo(k)) == if k == |pieces| then Some(Payload(pieces)) else None
  {
    UpToIs(k);
    var order := UpTo(k);
    forall m | 0 <= m < k
      ensures !Covers(order[..m], |pieces|)
    {
      assert m !in order[..m];
    }
    if k < |pieces| {
      assert k !in order;
    } else {
      forall j | 0 <= j < k
        ensures j in order
      {
        assert order[j] == j;
      }
    }
    UploadReturnsThePayload(b, pieces, order);
  }

  // ----- Uploading each chunk once -----

  function SetOf(order: seq<nat>): set<nat> { set k | k in order }

  lemma {:induction false} SetOfSize(order: seq<nat>)
    ensures |SetOf(order)| <= |order|
    ensures Distinct(order) ==> |SetOf(order)| == |order|
    decreases |order|
  {
    if order != [] {
      var front, k := order[..|order| - 1], order[|order| - 1];
      SetOfSize(front);
      assert order == front + [k];
      assert SetOf(order) == SetOf(front) + {k};
    }
  }

  lemma {:induction false} CoveringIsLong(order: seq<nat>, n: nat)
    requires Covers(order, n)
    ensures |order| >= n
  {
    SetOfSize(order);
    RangeIs(n);
    SubsetSize(Range(n), SetOf(order));
  }

  lemma {:induction false} DistinctCovers(order: seq<nat>, n: nat)
    requires Distinct(order) && |order| == n && forall i :: 0 <= i < n ==> order[i] < n
    ensures Covers(order, n)
  {
    SetOfSize(order);
    Pigeonhole(SetOf(order), n);
    forall k | 0 <= k < n
      ensures k in order
    {
      assert k in SetOf(order);
    }
  }

  // ----- What an earlier upload leaves behind -----

  /** What is still held when a push with this total comes in. */
  function Leftover(b: Buffer, total: nat): map<nat, Bytes> { if b.total == total then b.chunks else map[] }

  /** The leftovers of the buffer under the pieces pushed since. */
  function Overlay(b: Buffer, pieces: seq<Bytes>, order: seq<nat>): map<nat, Bytes>
    requires OrderFits(pieces, order)
  {
    Leftover(b, |pieces|) + Held(pieces, order)
  }

  predicate Full(b: Buffer, order: seq<nat>, n: nat) {
    forall k :: 0 <= k < n ==> k in order || k in Leftover(b, n)
  }

  lemma {:induction false} OverlaySnoc(b: Buffer, pieces: seq<Bytes>, order: seq<nat>, k: nat)
    requires OrderFits(pieces, order) && k < |pieces|
    ensures OrderFits(pieces, order + [k])
    ensures Overlay(b, pieces, order + [k]) == Overlay(b, pieces, order)[k := pieces[k]]
  {
    HeldSnoc(pieces, order, k);
    var x, y := Overlay(b, pieces, order + [k]), Overlay(b, pieces, order)[k := pieces[k]];
    assert x.Keys == y.Keys;
  }

  lemma {:induction false} FullIsAll(b: Buffer, pieces: seq<Bytes>, order: seq<nat>)
    requires OrderFits(pieces, order)
    ensures HasAll(Overlay(b, pieces, order).Keys, |pieces|) <==> Full(b, order, |pieces|)
  {
    var keys := Overlay(b, pieces, order).Keys;
    assert forall k :: k in keys <==> k in order || k in Leftover(b, |pieces|);
  }

  /** A push other than chunk 0 onto leftovers and pieces completes them or adds its piece. */
  lemma {:induction false} PushOver(b: Buffer, s: Buffer, pieces: seq<Bytes>, order: seq<nat>, k: nat)
    requires OrderFits(pieces, order) && 0 < k < |pieces| && InRange(s)
    requires Leftover(s, |pieces|) == Overlay(b, pieces, order)
    ensures OrderFits(pieces, order + [k])
    ensures var now := Overlay(b, pieces, order + [k]);
      && (Full(b, order + [k], |pieces|) ==> HasAll(now.Keys, |pieces|))
      && Pushed(s, k, |pieces|, pieces[k]) ==
        if Full(b, order + [k], |pieces|) then (Buffer(map[], |pieces|), Some(InOrder(now, 0, |pieces|)))
        else (Buffer(now, |pieces|), None)
  {
    OverlaySnoc(b, pieces, order, k);
    FullIsAll(b, pieces, order + [k]);
    assert Received(s, k, |pieces|, pieces[k]) == Leftover(s, |pieces|)[k := pieces[k]];
    PushCompletesIff(s, k, |pieces|, pieces[k]);
  }

  predicate NoZero(order: seq<nat>) { forall i :: 0 <= i < |order| ==> order[i] != 0 }

  predicate NotFullBefore(b: Buffer, order: seq<nat>, n: nat) {
    forall m :: 0 < m < |order| ==> !Full(b, order[..m], n)
  }

  lemma {:induction false} FrontNotFull(b: Buffer, order: seq<nat>, n: nat)
    requires |order| > 1 && NotFullBefore(b, order, n)
    ensures var front := order[..|order| - 1]; !Full(b, front, n) && NotFullBefore(b, front, n)
  {
    var front := order[..|order| - 1];
    forall m | 0 < m < |front|
      ensures !Full(b, front[..m], n)
    {
      assert front[..m] == order[..m];
    }
  }

  lemma {:induction false} OverlayInRange(b: Buffer, pieces: seq<Bytes>, order: seq<nat>)
    requires OrderFits(pieces, order) && InRange(b)
    ensures InRange(Buffer(Overlay(b, pieces, order), |pieces|))
  {
  }

  /** Without a chunk 0 the pieces land over what was left behind. */
  lemma {:induction false} RunOver(b: Buffer, pieces: seq<Bytes>, order: seq<nat>)
    requires OrderFits(pieces, order) && order != [] && NoZero(order) && InRange(b)
    requires NotFullBefore(b, order, |pieces|)
    ensures var now := Overlay(b, pieces, order);
      && (Full(b, order, |pieces|) ==> HasAll(now.Keys, |pieces|))
      && LastResult(b, pieces, order) ==
        (if Full(b, order, |pieces|) then Some(InOrder(now, 0, |pieces|)) else None)
      && After(b, pieces, order) == Buffer(if Full(b, order, |pieces|) then map[] else now, |pieces|)
    decreases |order|
  {
    var n := |order| - 1;
    var front, k := order[..n], order[n];
    assert order == front + [k];
    AfterSnoc(b, pieces, front, k, order);
    if n == 0 {
      assert front == [];
      NothingPushed(b, pieces);
      PushOver(b, b, pieces, front, k);
    } else {
      FrontNotFull(b, order, |pieces|);
      RunOver(b, pieces, front);
      OverlayInRange(b, pieces, front);
      PushOver(b, Buffer(Overlay(b, pieces, front), |pieces|), pieces, front, k);
    }
  }

  lemma {:induction false} NothingPushed(b: Buffer, pieces: seq<Bytes>)
    requires OrderFits(pieces, [])
    ensures Overlay(b, pieces, []) == Leftover(b, |pieces|)
  {
    assert Held(pieces, []) == map[];
  }

  /** Once an upload has completed, nothing more comes back before the next chunk 0. */
  lemma {:induction false} NothingWithoutZero(pieces: seq<Bytes>, order: seq<nat>)
    requires OrderFits(pieces, order) && order != [] && NoZero(order)
    ensures LastResult(Buffer(map[], |pieces|), pieces, order) == None
  {
    var empty := Buffer(map[], |pieces|);
    forall m | 0 < m <= |order|
      ensures !Full(empty, order[..m], |pieces|)
    {
      assert 0 !in order[..m] && 0 !in Leftover(empty, |pieces|) && order[0] < |pieces|;
    }
    assert order[..|order|] == order;
    RunOver(empty, pieces, order);
  }

  lemma {:induction false} NothingAfterFull(b: Buffer, pieces: seq<Bytes>, sent: seq<nat>, more: seq<nat>)
    requires OrderFits(pieces, sent) && NoZero(sent) && OrderFits(pieces, more) && NoZero(more) && InRange(b)
    requires sent != [] && more != [] && Full(b, sent, |pieces|) && NotFullBefore(b, sent, |pieces|)
    ensures OrderFits(pieces, sent + more) && LastResult(b, pieces, sent + more) == None
  {
    RunOver(b, pieces, sent);
    AfterConcat(b, pieces, sent, more);
    NothingWithoutZero(pieces, more);
  }

  /** The first number of pushes, one at least, after which nothing is missing. */
  lemma {:induction false} FirstFull(b: Buffer, order: seq<nat>, n: nat, from: nat) returns (m: nat)
    requires 0 < from <= |order| && Full(b, order, n) && forall j :: 0 < j < from ==> !Full(b, order[..j], n)
    ensures 0 < m <= |order| && Full(b, order[..m], n) && NotFullBefore(b, order[..m], n)
    decreases |order| - from
  {
    if Full(b, order[..from], n) {
      m := from;
      forall j | 0 < j < m
        ensures !Full(b, order[..m][..j], n)
      {
        assert order[..m][..j] == order[..j];
      }
    } else {
      assert order[..|order|] == order;
      m := FirstFull(b, order, n, from + 1);
    }
  }

  /** Each chunk once, chunk 0 at position `z`. */
  predicate Permuted(pieces: seq<Bytes>, order: seq<nat>, z: nat) {
    && OrderFits(pieces, order) && |order| == |pieces| && z < |order| && order[z] == 0
    && forall i :: 0 <= i < |order| && i != z ==> order[i] != 0
  }

  lemma {:induction false} ShortNeverCovers(order: seq<nat>, n: nat)
    requires |order| < n
    ensures !Covers(order, n)
  {
    if Covers(order, n) {
      CoveringIsLong(order, n);
    }
  }

  /** From chunk 0 on an upload that did not begin with it never completes. */
  lemma {:induction false} LateStartReturnsNothing(b: Buffer, pieces: seq<Bytes>, order: seq<nat>, z: nat, m: nat)
    requires Permuted(pieces, order, z) && 0 < z < m <= |order|
    ensures OrderFits(pieces, order[..m]) && LastResult(b, pieces, order[..m]) == None
  {
    var sent := order[..m];
    forall j | z <= j <= m
      ensures !Covers(sent[z..j], |pieces|)
    {
      ShortNeverCovers(sent[z..j], |pieces|);
    }
    assert sent[z..m] == sent[z..];
    LastRestartCounts(b, pieces, sent, z);
  }

  lemma {:induction false} FirstStartReturnsThePayload(b: Buffer, pieces: seq<Bytes>, order: seq<nat>, m: nat)
    requires Permuted(pieces, order, 0) && Covers(order, |pieces|) && 0 < m <= |order|
    ensures OrderFits(pieces, order[..m])
    ensures LastResult(b, pieces, order[..m]) == if m == |order| then Some(Payload(pieces)) else None
  {
    forall j | 0 <= j < |order|
      ensures !Covers(order[..j], |pieces|)
    {
      ShortNeverCovers(order[..j], |pieces|);
    }
    forall j | 0 <= j < m
      ensures !Covers(order[..m][..j], |pieces|)
    {
      assert order[..m][..j] == order[..j];
    }
    assert order[..|order|] == order;
    UploadReturnsThePayload(b, pieces, order[..m]);
  }

  /** The leftovers have every chunk not sent before chunk 0, chunk 0 among them. */
  ghost predicate LeftoversFillIn(b: Buffer, pieces: seq<Bytes>, order: seq<nat>, z: nat) {
    forall i :: z <= i < |order| ==> order[i] in Leftover(b, |pieces|)
  }

  lemma {:induction false} FullIffFilledIn(b: Buffer, pieces: seq<Bytes>, order: seq<nat>, z: nat)
    requires Permuted(pieces, order, z) && Distinct(order)
    ensures Full(b, order[..z], |pieces|) <==> LeftoversFillIn(b, pieces, order, z)
  {
    DistinctCovers(order, |pieces|);
    if Full(b, order[..z], |pieces|) {
      forall i | z <= i < |order|
        ensures order[i] in Leftover(b, |pieces|)
      {
        assert order[i] !in order[..z];
      }
    } else if LeftoversFillIn(b, pieces, order, z) {
      forall k | 0 <= k < |pieces|
        ensures k in order[..z] || k in Leftover(b, |pieces|)
      {
        assert k in order;
        var i :| 0 <= i < |order| && order[i] == k;
        if i < z {
          assert order[..z][i] == k;
        }
      }
    }
  }

  lemma {:induction false} FullGrows(b: Buffer, order: seq<nat>, m: nat, n: nat)
    requires m <= |order| && Full(b, order[..m], n)
    ensures Full(b, order, n)
  {
  }

  /** Bytes that come back before chunk 0 was sent are the pieces sent so far over the leftovers of the
      earlier upload, whose chunk 0 comes first in them. */
  ghost predicate MixesUploads(b: Buffer, pieces: seq<Bytes>, sent: seq<nat>, bytes: Bytes)
    requires OrderFits(pieces, sent)
  {
    && 0 in Leftover(b, |pieces|) && 0 !in sent && sent != []
    && HasAll(Overlay(b, pieces, sent).Keys, |pieces|)
    && bytes == Leftover(b, |pieces|)[0] + InOrder(Overlay(b, pieces, sent), 1, |pieces|)
  }

  lemma {:induction false} EarlyResultMixes(b: Buffer, pieces: seq<Bytes>, sent: seq<nat>)
    requires OrderFits(pieces, sent) && NoZero(sent) && sent != [] && InRange(b) && 0 < |pieces|
    ensures var r := LastResult(b, pieces, sent);
      r.Some? ==> Full(b, sent, |pieces|) && MixesUploads(b, pieces, sent, r.value)
  {
    if NotFullBefore(b, sent, |pieces|) {
      RunOver(b, pieces, sent);
      if Full(b, sent, |pieces|) {
        assert 0 !in sent && 0 in Leftover(b, |pieces|);
      }
    } else {
      var j :| 0 < j < |sent| && Full(b, sent[..j], |pieces|);
      var m := FirstFull(b, sent[..j], |pieces|, 1);
      assert sent[..j][..m] == sent[..m] && sent[..m] + sent[m..] == sent;
      NothingAfterFull(b, pieces, sent[..m], sent[m..]);
    }
  }

  /** Some push of the upload returns bytes. */
  ghost predicate Returns(b: Buffer, pieces: seq<Bytes>, order: seq<nat>)
    requires OrderFits(pieces, order)
  {
    exists m :: 0 < m <= |order| && LastResult(b, pieces, order[..m]).Some?
  }

  /** Uploading every chunk once, in some order, onto any earlier state. Chunk 0 first: the payload comes
      back on the last push and nothing before. Chunk 0 at a later position: bytes come back exactly when
      the earlier upload had as many chunks and left every chunk that is sent from that position on, and
      they are then a mixture of the two uploads, never the new one alone. */
  lemma {:induction false} PermutedUpload(b: Buffer, pieces: seq<Bytes>, order: seq<nat>, z: nat)
    requires InRange(b) && Permuted(pieces, order, z) && Distinct(order)
    ensures z == 0 ==> forall m :: 0 < m <= |order| ==>
      LastResult(b, pieces, order[..m]) == if m == |order| then Some(Payload(pieces)) else None
    ensures z > 0 ==> (Returns(b, pieces, order) <==> LeftoversFillIn(b, pieces, order, z))
    ensures z > 0 ==> forall m :: 0 < m <= |order| && LastResult(b, pieces, order[..m]).Some? ==>
      m <= z && MixesUploads(b, pieces, order[..m], LastResult(b, pieces, order[..m]).value)
  {
    if z == 0 {
      DistinctCovers(order, |pieces|);
      forall m | 0 < m <= |order|
        ensures LastResult(b, pieces, order[..m]) == if m == |order| then Some(Payload(pieces)) else None
      {
        FirstStartReturnsThePayload(b, pieces, order, m);
      }
    } else {
      LateStart(b, pieces, order, z);
    }
  }

  lemma {:induction false} LateStart(b: Buffer, pieces: seq<Bytes>, order: seq<nat>, z: nat)
    requires InRange(b) && Permuted(pieces, order, z) && Distinct(order) && z > 0
    ensures Returns(b, pieces, order) <==> LeftoversFillIn(b, pieces, order, z)
    ensures forall m :: 0 < m <= |order| && LastResult(b, pieces, order[..m]).Some? ==>
      m <= z && MixesUploads(b, pieces, order[..m], LastResult(b, pieces, order[..m]).value)
  {
    forall m | 0 < m <= |order| && LastResult(b, pieces, order[..m]).Some?
      ensures m <= z && MixesUploads(b, pieces, order[..m], LastResult(b, pieces, order[..m]).value)
      ensures LeftoversFillIn(b, pieces, order, z)
    {
      LateResultIsEarly(b, pieces, order, z, m);
    }
    if LeftoversFillIn(b, pieces, order, z) {
      FullIffFilledIn(b, pieces, order, z);
      var m := FirstFull(b, order[..z], |pieces|, 1);
      assert order[..z][..m] == order[..m];
      RunOver(b, pieces, order[..m]);
    }
  }

  lemma {:induction false} EarlyIsFilledIn(b: Buffer, pieces: seq<Bytes>, order: seq<nat>, z: nat, m: nat)
    requires Permuted(pieces, order, z) && Distinct(order) && m <= z && Full(b, order[..m], |pieces|)
    ensures LeftoversFillIn(b, pieces, order, z)
  {
    assert order[..z][..m] == order[..m];
    FullGrows(b, order[..z], m, |pieces|);
    FullIffFilledIn(b, pieces, order, z);
  }

  lemma {:induction false} LateResultIsEarly(b: Buffer, pieces: seq<Bytes>, order: seq<nat>, z: nat, m: nat)
    requires InRange(b) && Permuted(pieces, order, z) && Distinct(order) && z > 0
    requires 0 < m <= |order| && LastResult(b, pieces, order[..m]).Some?
    ensures m <= z && MixesUploads(b, pieces, order[..m], LastResult(b, pieces, order[..m]).value)
    ensures LeftoversFillIn(b, pieces, order, z)
  {
    if m > z {
      LateStartReturnsNothing(b, pieces, order, z, m);
    } else {
      EarlyResultMixes(b, pieces, order[..m]);
      EarlyIsFilledIn(b, pieces, order, z, m);
    }
  }

  /** So onto a fresh buffer, or one left by an upload of another length, bytes come back exactly when
      chunk 0 is sent first. */
  lemma {:induction false} PermutedUploadCompletesIff(b: Buffer, pieces: seq<Bytes>, order: seq<nat>)
    requires InRange(b) && OrderFits(pieces, order) && |order| == |pieces| > 0 && Distinct(order)
    requires b.total != |pieces| || 0 !in b.chunks
    ensures Returns(b, pieces, order) <==> order[0] == 0
  {
    DistinctCovers(order, |pieces|);
    assert 0 in order;
    var z :| 0 <= z < |order| && order[z] == 0;
    PermutedUpload(b, pieces, order, z);
    assert order[..|order|] == order;
    if z == 0 {
      assert LastResult(b, pieces, order[..|order|]).Some?;
    } else {
      assert order[z] !in Leftover(b, |pieces|);
    }
  }

  lemma {:induction false} InOrderOfTwo(chunks: map<nat, Bytes>, n: nat)
    requires n == 2 && 0 in chunks && 1 in chunks
    ensures (forall k :: 0 <= k < n ==> k in chunks) && InOrder(chunks, 0, n) == chunks[0] + chunks[1]
  {
    assert InOrder(chunks, n, n) == [];
    assert InOrder(chunks, n - 1, n) == chunks[1] + InOrder(chunks, n, n) == chunks[1];
  }

  /** Two chunks, the first left by an abandoned upload: the second of a new one completes a binary no
      one sent. */
  lemma {:induction false} TwoUploadsMix(x: Bytes, pieces: seq<Bytes>, order: seq<nat>)
    requires |pieces| == 2 && order == [1]
    ensures OrderFits(pieces, order) && LastResult(Buffer(map[0 := x], 2), pieces, order) == Some(x + pieces[1])
  {
    var b := Buffer(map[0 := x], 2);
    var now := Overlay(b, pieces, order);
    assert now[0] == x && now[1] == pieces[1];
    RunOver(b, pieces, order);
    InOrderOfTwo(now, |pieces|);
  }
}
