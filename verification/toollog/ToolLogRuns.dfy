/** What the limits keep of a list, and what the two tables of the log keep over every run. */
module ToolLogRuns {
  import opened Sequences
  import opened Utf8
  import opened ToolLog
  import Clamp

  // ----- What eviction keeps -----

  function Last<T>(s: seq<T>, n: nat): seq<T> { if |s| <= n then s else s[|s| - n..] }

  lemma {:induction false} PendingConcat(a: seq<Call>, b: seq<Call>)
    ensures PendingOf(a + b) == PendingOf(a) + PendingOf(b)
    decreases |a|
  {
    if a == [] {
      assert a + b == b;
    } else {
      assert (a + b)[0] == a[0] && (a + b)[1..] == a[1..] + b;
      PendingConcat(a[1..], b);
      Associates(if a[0].status == Pending then [a[0]] else [], PendingOf(a[1..]), PendingOf(b));
    }
  }

  lemma {:induction false} CompletedConcat(a: seq<Call>, b: seq<Call>)
    ensures CompletedOf(a + b) == CompletedOf(a) + CompletedOf(b)
    decreases |a|
  {
    if a == [] {
      assert a + b == b;
    } else {
      assert (a + b)[0] == a[0] && (a + b)[1..] == a[1..] + b;
      CompletedConcat(a[1..], b);
      Associates(if a[0].status != Pending then [a[0]] else [], CompletedOf(a[1..]), CompletedOf(b));
    }
  }

  lemma {:induction false} SplitsConcat(a: seq<Call>, b: seq<Call>)
    ensures PendingOf(a + b) == PendingOf(a) + PendingOf(b)
    ensures CompletedOf(a + b) == CompletedOf(a) + CompletedOf(b)
  {
    PendingConcat(a, b);
    CompletedConcat(a, b);
  }

  lemma {:induction false} AllPending(list: seq<Call>)
    requires forall i :: 0 <= i < |list| ==> list[i].status == Pending
    ensures PendingOf(list) == list && CompletedOf(list) == []
    decreases |list|
  {
    if list != [] {
      AllPending(list[1..]);
    }
  }

  lemma {:induction false} SplitsCount(list: seq<Call>)
    ensures |PendingOf(list)| + |CompletedOf(list)| == |list|
    decreases |list|
  {
    if list != [] {
      SplitsCount(list[1..]);
    }
  }

  lemma {:induction false} Around(before: seq<Call>, one: Call, after: seq<Call>)
    requires one.status != Pending && PendingOf(before) == before && CompletedOf(before) == []
    ensures PendingOf(before + ([one] + after)) == before + PendingOf(after)
    ensures CompletedOf(before + ([one] + after)) == [one] + CompletedOf(after)
    ensures PendingOf(before + after) == before + PendingOf(after)
    ensures CompletedOf(before + after) == CompletedOf(after)
  {
    SplitsConcat(before, [one] + after);
    SplitsConcat(before, after);
    assert ([one] + after)[1..] == after;
  }

  lemma {:induction false} RemoveCompleted(list: seq<Call>)
    requires FirstCompleted(list).Some?
    ensures var rest := RemoveAt(list, FirstCompleted(list).value);
      PendingOf(rest) == PendingOf(list) && CompletedOf(list) != [] && CompletedOf(rest) == CompletedOf(list)[1..]
  {
    var i := FirstCompleted(list).value;
    AllPending(list[..i]);
    Around(list[..i], list[i], list[i + 1..]);
    assert list == list[..i] + ([list[i]] + list[i + 1..]);
  }

  lemma {:induction false} NoCompleted(list: seq<Call>)
    requires FirstCompleted(list).None?
    ensures PendingOf(list) == list && CompletedOf(list) == []
  {
    AllPending(list);
  }

  /** The closed form: of the completed calls the newest that fit beside the pending ones, of the
      pending ones the newest 400. */
  ghost predicate KeepsTheNewest(list: seq<Call>, kept: seq<Call>) {
    && PendingOf(kept) == Last(PendingOf(list), 400)
    && CompletedOf(kept) == Last(CompletedOf(list), RoomBeside(|PendingOf(list)|))
  }

  function RoomBeside(pending: nat): nat {
    if pending < 200 then 200 - pending else 0
  }

  lemma {:induction false} StopKeepsAll(list: seq<Call>)
    requires Victim(list).None?
    ensures KeepsTheNewest(list, list)
  {
    SplitsCount(list);
    if FirstCompleted(list).None? {
      NoCompleted(list);
    }
  }

  lemma {:induction false} ShedCompleted(list: seq<Call>, kept: seq<Call>)
    requires |list| > MAX_ENTRIES_PER_CLIENT && FirstCompleted(list).Some?
    requires KeepsTheNewest(RemoveAt(list, FirstCompleted(list).value), kept)
    ensures KeepsTheNewest(list, kept)
  {
    SplitsCount(list);
    RemoveCompleted(list);
  }

  lemma {:induction false} ShedPending(list: seq<Call>, kept: seq<Call>)
    requires |list| > HARD_CAP_PER_CLIENT && FirstCompleted(list).None?
    requires KeepsTheNewest(RemoveAt(list, 0), kept)
    ensures KeepsTheNewest(list, kept)
  {
    NoCompleted(list);
    assert RemoveAt(list, 0) == list[1..];
    forall i | 0 <= i < |list[1..]|
      ensures list[1..][i].status == Pending
    {
    }
    AllPending(list[1..]);
  }

  /** Eviction in closed form. */
  lemma {:induction false} EvictionKeepsTheNewest(list: seq<Call>)
    ensures KeepsTheNewest(list, Evicted(list).0) && |Evicted(list).1| == |list| - |Evicted(list).0|
    decreases |list|
  {
    if Victim(list).None? {
      StopKeepsAll(list);
    } else {
      EvictionKeepsTheNewest(RemoveAt(list, Victim(list).value));
      if FirstCompleted(list).Some? {
        ShedCompleted(list, Evicted(list).0);
      } else {
        ShedPending(list, Evicted(list).0);
      }
    }
  }

  /** A list one over the hard cap at most sheds a pending call only when all 401 are pending. */
  lemma {:induction false} PendingShedOnlyWhenAllPending(list: seq<Call>)
    requires |list| <= 401
    ensures |Evicted(list).0| <= 400
    ensures PendingOf(Evicted(list).0) != PendingOf(list) <==>
      |list| == 401 && forall i :: 0 <= i < |list| ==> list[i].status == Pending
  {
    EvictionKeepsTheNewest(list);
    SplitsCount(list);
    SplitsCount(Evicted(list).0);
    if FirstCompleted(list).None? {
      NoCompleted(list);
    } else {
      RemoveCompleted(list);
    }
  }

  // ----- Ids and order under eviction -----

  ghost predicate DistinctIds(list: seq<Call>) {
    forall i, j :: 0 <= i < j < |list| ==> list[i].id != list[j].id
  }

  ghost predicate StartOrder(list: seq<Call>) {
    forall i, j :: 0 <= i < j < |list| ==> list[i].startedAt <= list[j].startedAt
  }

  predicate Holds(list: seq<Call>, id: string) { exists e :: e in list && e.id == id }

  predicate HasPending(list: seq<Call>, id: string) { exists e :: e in list && e.id == id && e.status == Pending }

  lemma RemoveAtFacts(list: seq<Call>, i: nat)
    requires i < |list|
    ensures forall e :: e in RemoveAt(list, i) ==> e in list
    ensures forall e :: e in list ==> e == list[i] || e in RemoveAt(list, i)
    ensures DistinctIds(list) ==> DistinctIds(RemoveAt(list, i)) && !Holds(RemoveAt(list, i), list[i].id)
    ensures StartOrder(list) ==> StartOrder(RemoveAt(list, i))
  {
    var rest := RemoveAt(list, i);
    forall k | 0 <= k < |rest|
      ensures rest[k] == if k < i then list[k] else list[k + 1]
    {
    }
    forall e | e in list && e != list[i]
      ensures e in rest
    {
      var k :| 0 <= k < |list| && list[k] == e;
      assert e == rest[if k < i then k else k - 1];
    }
  }

  /** Eviction splits a list: what is shed is gone by id, the rest stays in order. */
  lemma {:induction false} EvictionSplits(list: seq<Call>)
    ensures var (kept, ids) := Evicted(list);
      && (forall e :: e in kept ==> e in list)
      && (forall e :: e in list ==> e in kept || e.id in ids)
      && (DistinctIds(list) ==> DistinctIds(kept) && forall id :: id in ids ==> !Holds(kept, id) && Holds(list, id))
      && (StartOrder(list) ==> StartOrder(kept))
    decreases |list|
  {
    if Victim(list).Some? {
      var i := Victim(list).value;
      RemoveAtFacts(list, i);
      EvictionSplits(RemoveAt(list, i));
    }
  }

  lemma {:induction false} PendingOfFacts(list: seq<Call>)
    ensures forall e :: e in PendingOf(list) <==> e in list && e.status == Pending
    decreases |list|
  {
    if list != [] {
      PendingOfFacts(list[1..]);
      assert list == [list[0]] + list[1..];
    }
  }

  lemma {:induction false} PendingOfKeepsDistinct(list: seq<Call>)
    requires DistinctIds(list)
    ensures DistinctIds(PendingOf(list)) && |PendingOf(list)| <= |list|
    decreases |list|
  {
    if list != [] {
      PendingOfKeepsDistinct(list[1..]);
      PendingOfFacts(list[1..]);
      var rest := PendingOf(list[1..]);
      forall k | 0 <= k < |rest|
        ensures rest[k].id != list[0].id
      {
        assert rest[k] in rest;
      }
    }
  }

  lemma {:induction false} PendingOfKeepsOrder(list: seq<Call>)
    requires StartOrder(list)
    ensures StartOrder(PendingOf(list))
    decreases |list|
  {
    if list != [] {
      PendingOfKeepsOrder(list[1..]);
      PendingOfFacts(list[1..]);
      var rest := PendingOf(list[1..]);
      forall k | 0 <= k < |rest|
        ensures list[0].startedAt <= rest[k].startedAt
      {
        assert rest[k] in rest;
      }
    }
  }

  // ----- The agreement of the two tables -----

  ghost predicate ListOk(list: seq<Call>, now: nat) {
    && DistinctIds(list) && StartOrder(list) && |list| <= 400
    && forall e :: e in list ==> e.startedAt <= now
  }

  predicate IsOwner(t: Tables, client: string, id: string) { id in t.owner && t.owner[id] == client }

  predicate Listed(t: Tables, client: string, id: string) { client in t.byClient && Holds(t.byClient[client], id) }

  predicate InFlight(t: Tables, client: string, id: string) {
    client in t.byClient && HasPending(t.byClient[client], id)
  }

  /** An id is mapped to a client exactly when that client's list holds a pending call with it. */
  ghost predicate Agree(t: Tables) { forall c, id :: IsOwner(t, c, id) <==> InFlight(t, c, id) }

  /** No two clients list the same id. */
  ghost predicate Apart(t: Tables) {
    forall c, d, id :: Listed(t, c, id) && Listed(t, d, id) ==> c == d
  }

  ghost predicate Inv(t: Tables, now: nat) {
    && (forall c :: c in t.byClient ==> ListOk(t.byClient[c], now))
    && Apart(t) && Agree(t)
  }

  ghost predicate Held(t: Tables, id: string) { exists c :: Listed(t, c, id) }

  lemma {:induction false} EmptyOk()
    ensures Inv(EMPTY, 0)
  {
  }

  lemma {:induction false} AppendedInOrder(list: seq<Call>, call: Call, before: nat, now: nat, all: seq<Call>)
    requires ListOk(list, before) && before <= now && call.startedAt == now && !Holds(list, call.id)
    requires all == list + [call]
    ensures DistinctIds(all) && StartOrder(all) && forall e :: e in all ==> e.startedAt <= now
  {
    forall i, j | 0 <= i < j < |all|
      ensures all[i].id != all[j].id && all[i].startedAt <= all[j].startedAt
    {
      assert all[i] == list[i] && list[i] in list;
    }
  }

  lemma {:induction false} EvictedListOk(all: seq<Call>, now: nat)
    requires DistinctIds(all) && StartOrder(all) && |all| <= 401
    requires forall e :: e in all ==> e.startedAt <= now
    ensures ListOk(Evicted(all).0, now)
  {
    EvictionSplits(all);
    PendingShedOnlyWhenAllPending(all);
  }

  lemma {:induction false} PushedListOk(list: seq<Call>, call: Call, before: nat, now: nat)
    requires ListOk(list, before) && before <= now && call.startedAt == now && !Holds(list, call.id)
    ensures DistinctIds(list + [call]) && ListOk(Evicted(list + [call]).0, now)
  {
    AppendedInOrder(list, call, before, now, list + [call]);
    EvictedListOk(list + [call], now);
  }

  lemma {:induction false} PushAgrees(t: Tables, client: string, call: Call)
    requires Apart(t) && Agree(t) && call.status == Pending && !Held(t, call.id)
    requires DistinctIds(ListOf(t, client) + [call])
    ensures Apart(Push(t, client, call)) && Agree(Push(t, client, call))
  {
    var all := ListOf(t, client) + [call];
    var (kept, ids) := Evicted(all);
    var u := Push(t, client, call);
    EvictionSplits(all);
    assert forall e :: e in all <==> e in ListOf(t, client) || e == call;
    forall c, id | Listed(u, c, id)
      ensures Listed(t, c, id) || (c == client && id == call.id)
    {
    }
    forall c, id
      ensures IsOwner(u, c, id) <==> InFlight(u, c, id)
    {
      assert IsOwner(t, c, id) <==> InFlight(t, c, id);
      if c != client {
        OtherOwner(t, client, call, ids, c, id);
      } else {
        OwnOwner(t, client, call, kept, ids, id);
      }
    }
  }

  /** Another client's calls and ids are untouched. */
  lemma {:induction false} OtherOwner(t: Tables, client: string, call: Call, ids: seq<string>, c: string, id: string)
    requires Apart(t) && !Held(t, call.id) && c != client
    requires IsOwner(t, c, id) <==> InFlight(t, c, id)
    requires forall x :: x in ids ==> Holds(ListOf(t, client) + [call], x)
    ensures var u := Push(t, client, call);
      ids == Evicted(ListOf(t, client) + [call]).1 ==> (IsOwner(u, c, id) <==> InFlight(u, c, id))
  {
    if InFlight(t, c, id) {
      assert Listed(t, c, id);
      assert !Listed(t, client, id) && id != call.id;
      assert !Holds(ListOf(t, client) + [call], id);
    }
  }

  lemma {:induction false} OwnOwner(
    t: Tables, client: string, call: Call, kept: seq<Call>, ids: seq<string>, id: string)
    requires call.status == Pending
    requires IsOwner(t, client, id) <==> InFlight(t, client, id)
    requires (kept, ids) == Evicted(ListOf(t, client) + [call])
    requires forall e :: e in kept ==> e in ListOf(t, client) + [call]
    requires forall e :: e in ListOf(t, client) + [call] ==> e in kept || e.id in ids
    requires forall x :: x in ids ==> !Holds(kept, x)
    ensures IsOwner(Push(t, client, call), client, id) <==> HasPending(kept, id)
  {
    var all := ListOf(t, client) + [call];
    assert forall e :: e in all <==> e in ListOf(t, client) || e == call;
    assert HasPending(kept, id) ==> Holds(kept, id);
  }

  lemma {:induction false} PushKeeps(t: Tables, client: string, call: Call, before: nat, now: nat)
    requires Inv(t, before) && before <= now && call.status == Pending && call.startedAt == now
    requires !Held(t, call.id)
    ensures Inv(Push(t, client, call), now)
  {
    var list := ListOf(t, client);
    assert Holds(list, call.id) ==> Listed(t, client, call.id);
    PushedListOk(list, call, before, now);
    PushAgrees(t, client, call);
  }

  // ----- Ending, clearing and dropping -----

  lemma {:induction false} EndingOne(list: seq<Call>, i: nat, ended: Call, now: nat)
    requires ListOk(list, now) && i < |list| && list[i].status == Pending
    requires ended.id == list[i].id && ended.startedAt == list[i].startedAt && ended.status != Pending
    ensures ListOk(list[i := ended], now)
    ensures forall x :: Holds(list[i := ended], x) <==> Holds(list, x)
    ensures forall x :: HasPending(list[i := ended], x) <==> HasPending(list, x) && x != ended.id
  {
    var after := list[i := ended];
    assert forall x :: x in after ==> x == ended || x in list;
    forall x: string
      ensures Holds(after, x) <==> Holds(list, x)
    {
      if Holds(list, x) {
        var k :| 0 <= k < |list| && list[k].id == x;
        assert after[k] in after && after[k].id == x;
      }
    }
    forall x: string
      ensures HasPending(after, x) <==> HasPending(list, x) && x != ended.id
    {
      if HasPending(list, x) && x != ended.id {
        var j :| 0 <= j < |list| && list[j].id == x && list[j].status == Pending;
        assert after[j] in after;
      }
    }
  }

  lemma {:induction false} ReplacedKeeps(t: Tables, client: string, id: string, f: Call -> Call, before: nat, now: nat)
    requires Inv(t, before) && before <= now && IsOwner(t, client, id)
    requires forall e: Call :: e.status == Pending ==>
      f(e).id == e.id && f(e).startedAt == e.startedAt && f(e).status != Pending
    ensures Inv(Replaced(t, client, id, f), now)
    ensures EndsExactly(t, Replaced(t, client, id, f), client, id, f)
  {
    assert InFlight(t, client, id);
    var list := t.byClient[client];
    var e :| e in list && e.id == id && e.status == Pending;
    var i := IndexOf(list, id).value;
    assert list[i] == e;
    EndingOne(list, i, f(e), before);
    var u := Replaced(t, client, id, f);
    assert forall c, x :: Listed(u, c, x) <==> Listed(t, c, x);
    forall c, x
      ensures IsOwner(u, c, x) <==> InFlight(u, c, x)
    {
      assert IsOwner(t, c, x) <==> InFlight(t, c, x);
    }
  }

  /** Exactly one call, the pending one with the id, is changed, and its id is forgotten. */
  ghost predicate EndsExactly(t: Tables, u: Tables, client: string, id: string, f: Call -> Call) {
    && u.owner == t.owner - {id}
    && client in t.byClient
    && var list := t.byClient[client];
    (exists i ::
      && 0 <= i < |list| && list[i].id == id && list[i].status == Pending
      && u.byClient == t.byClient[client := list[i := f(list[i])]])
  }

  /** Clearing a client takes no call in flight away and leaves nothing else of the client listed. */
  lemma {:induction false} ClearKeeps(t: Tables, client: string, now: nat)
    requires Inv(t, now)
    ensures Inv(Cleared(t, client), now)
    ensures forall c, id :: InFlight(Cleared(t, client), c, id) <==> InFlight(t, c, id)
    ensures forall id :: Listed(Cleared(t, client), client, id) ==> InFlight(t, client, id)
  {
    if client in t.byClient {
      var list := t.byClient[client];
      var u := Cleared(t, client);
      PendingOfFacts(list);
      PendingOfKeepsDistinct(list);
      PendingOfKeepsOrder(list);
      assert forall c, id :: Listed(u, c, id) ==> Listed(t, c, id);
      forall c, id
        ensures IsOwner(u, c, id) <==> InFlight(u, c, id)
      {
        assert IsOwner(t, c, id) <==> InFlight(t, c, id);
      }
    }
  }

  /** Dropping a client ends exactly its calls in flight: no id is left mapped to it, no other is lost. */
  lemma {:induction false} DropKeeps(t: Tables, client: string, now: nat)
    requires Inv(t, now)
    ensures Inv(Dropped(t, client), now)
    ensures forall c, id :: InFlight(Dropped(t, client), c, id) <==> InFlight(t, c, id) && c != client
    ensures forall c, id :: IsOwner(Dropped(t, client), c, id) <==> IsOwner(t, c, id) && c != client
  {
    var u := Dropped(t, client);
    assert forall c, id :: Listed(u, c, id) ==> Listed(t, c, id);
    forall c, id
      ensures IsOwner(u, c, id) <==> InFlight(u, c, id)
    {
      assert IsOwner(t, c, id) <==> InFlight(t, c, id);
    }
  }

  // ----- Every run -----

  datatype Op =
    | StartCall(client: string, id: string, plugin: string, tool: string, args: Bytes)
    | FinishCall(id: string, ok: bool, result: Bytes)
    | MarkAborted(id: string, reason: Bytes)
    | Clear(client: string)
    | DropClient(client: string)

  function Apply(t: Tables, op: Op, now: nat): Tables {
    match op
    case StartCall(client, id, plugin, tool, args) => Push(t, client, NewCall(id, plugin, tool, args, now))
    case FinishCall(id, ok, result) => Finished(t, id, ok, result, now)
    case MarkAborted(id, reason) => Aborted(t, id, reason, now)
    case Clear(client) => Cleared(t, client)
    case DropClient(client) => Dropped(t, client)
  }

  /** The clock does not run backwards and no call starts under an id the log still lists. */
  ghost predicate Admissible(t: Tables, ops: seq<(Op, nat)>, now: nat)
    decreases |ops|
  {
    ops != [] ==>
      var (op, at) := ops[0];
      && now <= at && (op.StartCall? ==> !Held(t, op.id))
      && Admissible(Apply(t, op, at), ops[1..], at)
  }

  function Run(t: Tables, ops: seq<(Op, nat)>): Tables
    decreases |ops|
  {
    if ops == [] then t else Run(Apply(t, ops[0].0, ops[0].1), ops[1..])
  }

  lemma {:induction false} ApplyKeeps(t: Tables, op: Op, before: nat, now: nat)
    requires Inv(t, before) && before <= now && (op.StartCall? ==> !Held(t, op.id))
    ensures Inv(Apply(t, op, now), now)
  {
    match op
    case StartCall(client, id, plugin, tool, args) =>
      PushKeeps(t, client, NewCall(id, plugin, tool, args, now), before, now);
    case FinishCall(id, ok, result) =>
      if id in t.owner {
        ReplacedKeeps(t, t.owner[id], id, call => Ended(call, ok, Clamp.Clamped(result), now), before, now);
      }
    case MarkAborted(id, reason) =>
      if id in t.owner {
        ReplacedKeeps(t, t.owner[id], id, (call: Call) =>
          if call.status == Pending then Ended(call, false, AbortedNote(reason), now) else call, before, now);
      }
    case Clear(client) => ClearKeeps(t, client, now);
    case DropClient(client) => DropKeeps(t, client, now);
  }

  /** Over every run the two tables agree: an id is mapped to a client exactly when that client's
      list holds a pending call with it, ids are listed once, and every list has at most 400 calls
      in the order they started. */
  lemma {:induction false} RunKeepsAgreement(t: Tables, ops: seq<(Op, nat)>, now: nat) returns (end: nat)
    requires Inv(t, now) && Admissible(t, ops, now)
    ensures Inv(Run(t, ops), end)
    decreases |ops|
  {
    if ops == [] {
      end := now;
    } else {
      var (op, at) := ops[0];
      ApplyKeeps(t, op, now, at);
      end := RunKeepsAgreement(Apply(t, op, at), ops[1..], at);
    }
  }

  /** From the empty log on, over every run. */
  lemma {:induction false} EveryRunAgrees(ops: seq<(Op, nat)>)
    requires Admissible(EMPTY, ops, 0)
    ensures Agree(Run(EMPTY, ops)) && Apart(Run(EMPTY, ops))
    ensures forall c :: c in Run(EMPTY, ops).byClient ==>
      var list := Run(EMPTY, ops).byClient[c]; DistinctIds(list) && StartOrder(list) && |list| <= 400
  {
    EmptyOk();
    var end := RunKeepsAgreement(EMPTY, ops, 0);
  }

  // ----- Why ids must be fresh -----

  function CountId(list: seq<Call>, id: string): nat {
    if list == [] then 0 else (if list[0].id == id then 1 else 0) + CountId(list[1..], id)
  }

  lemma {:induction false} CountConcat(a: seq<Call>, b: seq<Call>, id: string)
    ensures CountId(a + b, id) == CountId(a, id) + CountId(b, id)
    decreases |a|
  {
    if a == [] {
      assert a + b == b;
    } else {
      assert (a + b)[1..] == a[1..] + b;
      CountConcat(a[1..], b, id);
    }
  }

  lemma {:induction false} CountHeld(list: seq<Call>, id: string)
    ensures Holds(list, id) <==> CountId(list, id) > 0
    ensures DistinctIds(list) ==> CountId(list, id) <= 1
    decreases |list|
  {
    if list != [] {
      CountHeld(list[1..], id);
      assert list == [list[0]] + list[1..];
      assert forall e :: e in list <==> e == list[0] || e in list[1..];
      if DistinctIds(list) && list[0].id == id {
        assert !Holds(list[1..], id);
      }
    }
  }

  lemma {:induction false} EvictedCount(list: seq<Call>, id: string)
    requires id !in Evicted(list).1
    ensures CountId(Evicted(list).0, id) == CountId(list, id)
    decreases |list|
  {
    if Victim(list).Some? {
      var i := Victim(list).value;
      assert list == list[..i] + ([list[i]] + list[i + 1..]);
      CountConcat(list[..i], [list[i]] + list[i + 1..], id);
      CountConcat([list[i]], list[i + 1..], id);
      CountConcat(list[..i], list[i + 1..], id);
      assert id != list[i].id;
      EvictedCount(RemoveAt(list, i), id);
    }
  }

  /** The call just started always stays. */
  lemma {:induction false} NewestStays(list: seq<Call>, call: Call)
    requires call.status == Pending
    ensures call in Evicted(list + [call]).0
  {
    EvictionKeepsTheNewest(list + [call]);
    SplitsConcat(list, [call]);
    assert PendingOf([call]) == [call] by { assert [call][1..] == []; }
    var kept := Evicted(list + [call]).0;
    PendingOfFacts(kept);
    assert PendingOf(kept)[|PendingOf(kept)| - 1] == call;
  }

  lemma {:induction false} LastStays(list: seq<Call>)
    requires list != [] && list[|list| - 1].status == Pending
    ensures var kept := Evicted(list).0; kept != [] && kept[|kept| - 1] == list[|list| - 1]
    decreases |list|
  {
    if Victim(list).Some? {
      var rest := RemoveAt(list, Victim(list).value);
      assert Victim(list).value < |list| - 1;
      assert rest[|rest| - 1] == list[|list| - 1];
      LastStays(rest);
    }
  }

  /** The tables agree now and whatever happens next, as long as later calls start under new ids. */
  ghost predicate StaysAgreed(t: Tables, now: nat) {
    forall ops: seq<(Op, nat)> :: Admissible(t, ops, now) ==> Agree(Run(t, ops))
  }

  lemma {:induction false} BreaksAtOnce(t: Tables, now: nat)
    requires !Agree(t)
    ensures !StaysAgreed(t, now)
  {
    assert Admissible(t, [], now) && Run(t, []) == t;
  }

  lemma {:induction false} BreaksAfter(t: Tables, op: Op, now: nat)
    requires op.StartCall? ==> !Held(t, op.id)
    requires !StaysAgreed(Apply(t, op, now), now)
    ensures !StaysAgreed(t, now)
  {
    var rest: seq<(Op, nat)> :| Admissible(Apply(t, op, now), rest, now) && !Agree(Run(Apply(t, op, now), rest));
    var ops := [(op, now)] + rest;
    assert ops[0] == (op, now) && ops[1..] == rest;
    assert Admissible(t, ops, now) && Run(t, ops) == Run(Apply(t, op, now), rest);
  }

  lemma {:induction false} FinishedAt(t: Tables, client: string, id: string, ok: bool, result: Bytes, now: nat)
    requires IsOwner(t, client, id) && IndexOf(ListOf(t, client), id).Some?
    ensures var (list, i) := (ListOf(t, client), IndexOf(ListOf(t, client), id).value);
      Finished(t, id, ok, result, now)
        == Tables(t.byClient[client := list[i := Ended(list[i], ok, Clamp.Clamped(result), now)]], t.owner - {id})
  {
  }

  /** A namesake in the same list comes first, so finishing the new call ends the old one again. */
  lemma {:induction false} FinishMissesTheNewCall(u: Tables, client: string, call: Call, now: nat)
    requires IsOwner(u, client, call.id) && client in u.byClient && call.status == Pending
    requires var kept := u.byClient[client];
      kept != [] && kept[|kept| - 1] == call && CountId(kept, call.id) >= 2
    ensures !Agree(Apply(u, FinishCall(call.id, true, []), now))
  {
    var kept := u.byClient[client];
    var last := |kept| - 1;
    CountConcat(kept[..last], [call], call.id);
    assert kept == kept[..last] + [call];
    CountHeld(kept[..last], call.id);
    var e :| e in kept[..last] && e.id == call.id;
    var k :| 0 <= k < last && kept[k] == e;
    assert IndexOf(kept, call.id).value < last;
    FinishedAt(u, client, call.id, true, [], now);
    var v := Apply(u, FinishCall(call.id, true, []), now);
    assert v.byClient[client][last] == call;
    assert InFlight(v, client, call.id) && !IsOwner(v, client, call.id);
  }

  lemma {:induction false} LengthBound(ids: set<string>) returns (n: nat)
    ensures forall id :: id in ids ==> |id| <= n
    decreases |ids|
  {
    n := 0;
    if ids != {} {
      var one :| one in ids;
      n := LengthBound(ids - {one});
      n := if n < |one| then |one| else n;
    }
  }

  lemma {:induction false} SomeIdIsFresh(t: Tables) returns (id: string)
    ensures !Held(t, id)
  {
    var ids := set c, e | c in t.byClient && e in t.byClient[c] :: e.id;
    var n := LengthBound(ids);
    id := seq(n + 1, _ => 'a');
    forall c, e | c in t.byClient && e in t.byClient[c]
      ensures e.id != id
    {
      assert e.id in ids;
    }
  }

  lemma {:induction false} OneMorePending(list: seq<Call>, call: Call)
    requires call.status == Pending
    ensures var kept := Evicted(list + [call]).0;
      var more := |PendingOf(list)| + 1;
      && (more >= MAX_ENTRIES_PER_CLIENT ==> CompletedOf(kept) == [])
      && (more < MAX_ENTRIES_PER_CLIENT ==> |PendingOf(kept)| == more)
  {
    EvictionKeepsTheNewest(list + [call]);
    SplitsConcat(list, [call]);
    assert PendingOf([call]) == [call] by { assert [call][1..] == []; }
  }

  lemma {:induction false} NotPendingIsCompleted(list: seq<Call>)
    ensures forall e :: e in list ==> e in PendingOf(list) || e in CompletedOf(list)
    decreases |list|
  {
    if list != [] {
      NotPendingIsCompleted(list[1..]);
      assert list == [list[0]] + list[1..];
    }
  }

  /** One more call sheds a completed namesake or leaves less room beside the calls in flight. */
  lemma {:induction false} OneMoreCall(list: seq<Call>, call: Call, id: string)
    requires call.status == Pending && call.id != id && Holds(list, id) && !HasPending(list, id)
    ensures var (kept, ids) := Evicted(list + [call]);
      && !HasPending(kept, id)
      && (id !in ids ==> Holds(kept, id) && RoomBeside(|PendingOf(kept)|) < RoomBeside(|PendingOf(list)|))
  {
    var (kept, ids) := Evicted(list + [call]);
    EvictionSplits(list + [call]);
    OneMorePending(list, call);
    NotPendingIsCompleted(kept);
    PendingOfFacts(kept);
    assert forall e :: e in list + [call] <==> e in list || e == call;
    var e :| e in list && e.id == id;
    assert id !in ids ==> e in kept;
  }

  /** A completed namesake in another client's list takes the mapping with it when it is shed, and
      enough new calls for that client shed it. */
  lemma {:induction false} SheddingUnmapsTheNewCall(t: Tables, client: string, c: string, id: string, now: nat)
    requires c != client && InFlight(t, client, id) && Listed(t, c, id) && !InFlight(t, c, id)
    ensures !StaysAgreed(t, now)
    decreases RoomBeside(|PendingOf(ListOf(t, c))|)
  {
    var other := SomeIdIsFresh(t);
    var call := NewCall(other, "", "", [], now);
    var op := StartCall(c, other, "", "", []);
    var u := Apply(t, op, now);
    OneMoreCall(t.byClient[c], call, id);
    assert u == Push(t, c, call) && InFlight(u, client, id);
    if id in Evicted(t.byClient[c] + [call]).1 {
      assert !IsOwner(u, client, id);
      BreaksAtOnce(u, now);
    } else {
      SheddingUnmapsTheNewCall(u, client, c, id, now);
    }
    BreaksAfter(t, op, now);
  }

  lemma {:induction false} NamesakeInTheSameList(t: Tables, client: string, call: Call, now: nat)
    requires call.status == Pending && Listed(t, client, call.id)
    ensures !StaysAgreed(Push(t, client, call), now)
  {
    var list := ListOf(t, client);
    var all := list + [call];
    var (kept, ids) := Evicted(all);
    var u := Push(t, client, call);
    LastStays(all);
    if call.id in ids {
      assert call in kept && InFlight(u, client, call.id) && !IsOwner(u, client, call.id);
      BreaksAtOnce(u, now);
    } else {
      EvictedCount(all, call.id);
      CountConcat(list, [call], call.id);
      CountHeld(list, call.id);
      FinishMissesTheNewCall(u, client, call, now);
      var op := FinishCall(call.id, true, []);
      BreaksAtOnce(Apply(u, op, now), now);
      BreaksAfter(u, op, now);
    }
  }

  lemma {:induction false} NamesakeInAnotherList(t: Tables, client: string, c: string, call: Call, now: nat)
    requires call.status == Pending && Listed(t, c, call.id) && c != client
    ensures !StaysAgreed(Push(t, client, call), now)
  {
    var u := Push(t, client, call);
    NewestStays(ListOf(t, client), call);
    assert InFlight(u, client, call.id) && Listed(u, c, call.id);
    if InFlight(u, c, call.id) {
      assert !(IsOwner(u, client, call.id) && IsOwner(u, c, call.id));
      BreaksAtOnce(u, now);
    } else {
      SheddingUnmapsTheNewCall(u, client, c, call.id, now);
    }
  }

  /** A call may be started under an id exactly when the log does not list it: then the tables agree
      after every continuation, and otherwise some continuation, its later starts under new ids, leaves
      a call in flight that no id is mapped for, so that no result can reach it. */
  lemma {:induction false} StartIsSafeIff(t: Tables, client: string, call: Call, before: nat, now: nat)
    requires Inv(t, before) && before <= now && call.status == Pending && call.startedAt == now
    ensures !Held(t, call.id) <==> StaysAgreed(Push(t, client, call), now)
  {
    var u := Push(t, client, call);
    if Held(t, call.id) {
      var c :| Listed(t, c, call.id);
      if c == client {
        NamesakeInTheSameList(t, client, call, now);
      } else {
        NamesakeInAnotherList(t, client, c, call, now);
      }
    } else {
      PushKeeps(t, client, call, before, now);
      forall ops: seq<(Op, nat)> | Admissible(u, ops, now)
        ensures Agree(Run(u, ops))
      {
        var end := RunKeepsAgreement(u, ops, now);
      }
    }
  }

  lemma {:induction false} RunTwo(t: Tables, x: (Op, nat), y: (Op, nat))
    ensures Run(t, [x, y]) == Apply(Apply(t, x.0, x.1), y.0, y.1)
  {
    var u := Apply(t, x.0, x.1);
    assert [x, y][1..] == [y] && [y][1..] == [];
    assert Run(u, [y]) == Run(Apply(u, y.0, y.1), []);
  }

  lemma {:induction false} StartAndFinish(client: string, id: string, now: nat, call: Call, ended: Call)
    requires call == NewCall(id, "", "", [], now) && ended == Ended(call, true, Clamp.Clamped([]), now)
    ensures Run(EMPTY, [(StartCall(client, id, "", "", []), now), (FinishCall(id, true, []), now)])
      == Tables(map[client := [ended]], map[])
  {
    var start, finish := StartCall(client, id, "", "", []), FinishCall(id, true, []);
    var t := Tables(map[client := [call]], map[id := client]);
    assert Apply(EMPTY, start, now) == t by { assert [] + [call] == [call]; }
    FinishedAt(t, client, id, true, [], now);
    assert [call][0 := ended] == [ended];
    RunTwo(EMPTY, (start, now), (finish, now));
  }

  lemma {:induction false} StartAgain(client: string, id: string, now: nat, call: Call, ended: Call)
    requires call == NewCall(id, "", "", [], now) && ended == Ended(call, true, Clamp.Clamped([]), now)
    ensures var t := Tables(map[client := [ended]], map[]);
      && Apply(t, StartCall(client, id, "", "", []), now) == Tables(map[client := [ended, call]], map[id := client])
  {
    assert [ended] + [call] == [ended, call];
  }

  lemma {:induction false} FinishTheWrongOne(client: string, id: string, now: nat, call: Call, ended: Call)
    requires call.id == id && ended == Ended(call, true, Clamp.Clamped([]), now)
    ensures var t := Tables(map[client := [ended, call]], map[id := client]);
      Apply(t, FinishCall(id, true, []), now) == Tables(map[client := [ended, call]], map[])
  {
    var t := Tables(map[client := [ended, call]], map[id := client]);
    FinishedAt(t, client, id, true, [], now);
    assert [ended, call][0 := ended] == [ended, call];
  }

  /** A client that started, finished and started a call under one id still has agreeing tables, and
      finishing it once more leaves the second call in flight with no id mapped. */
  lemma {:induction false} ReuseBreaksLater(client: string, id: string, now: nat)
    ensures var start, finish := (StartCall(client, id, "", "", []), now), (FinishCall(id, true, []), now);
      && Agree(Run(Run(EMPTY, [start, finish]), [start]))
      && !Agree(Run(Run(EMPTY, [start, finish]), [start, finish]))
  {
    var start, finish := StartCall(client, id, "", "", []), FinishCall(id, true, []);
    var call := NewCall(id, "", "", [], now);
    var ended := Ended(call, true, Clamp.Clamped([]), now);
    var t := Run(EMPTY, [(start, now), (finish, now)]);
    StartAndFinish(client, id, now, call, ended);
    StartAgain(client, id, now, call, ended);
    FinishTheWrongOne(client, id, now, call, ended);
    RunTwo(t, (start, now), (finish, now));
    var (u, v) := (Apply(t, start, now), Run(t, [(start, now), (finish, now)]));
    assert Run(t, [(start, now)]) == u;
    assert InFlight(u, client, id) by { assert u.byClient[client][1] == call; }
    assert InFlight(v, client, id) by { assert v.byClient[client][1] == call; }
  }

  // ----- What the viewer reads -----

  ghost function MappedTo(t: Tables, client: string): set<string> {
    set id | id in t.owner && t.owner[id] == client
  }

  lemma {:induction false} PendingIds(list: seq<Call>, ids: set<string>)
    requires DistinctIds(list) && forall id :: id in ids <==> HasPending(list, id)
    ensures |PendingOf(list)| == |ids|
    decreases |list|
  {
    if list == [] {
      assert ids == {};
    } else {
      assert forall e :: e in list <==> e == list[0] || e in list[1..];
      var rest := if list[0].status == Pending then ids - {list[0].id} else ids;
      assert !HasPending(list[1..], list[0].id);
      assert list[0].status == Pending ==> list[0].id in ids;
      PendingIds(list[1..], rest);
    }
  }

  /** The pending count of a client is the number of calls in flight for it and for no client. */
  lemma {:induction false} PendingCountIsMapped(t: Tables, client: string, now: nat)
    requires Inv(t, now)
    ensures PendingCount(t, client) ==
      |MappedTo(t, client)| + if client != GLOBAL_KEY then |MappedTo(t, GLOBAL_KEY)| else 0
  {
    forall c
      ensures |PendingOf(ListOf(t, c))| == |MappedTo(t, c)|
    {
      forall id
        ensures id in MappedTo(t, c) <==> HasPending(ListOf(t, c), id)
      {
        assert IsOwner(t, c, id) <==> InFlight(t, c, id);
      }
      PendingIds(ListOf(t, c), MappedTo(t, c));
    }
  }

  lemma {:induction false} InsertIntoMerge(a: seq<Call>, b: seq<Call>, x: Call)
    requires StartOrder(a) && StartOrder(b) && forall y :: y in b ==> y.startedAt <= x.startedAt
    ensures Insert(Merge(a, b), x) == Merge(a, b + [x])
    decreases |a| + |b|
  {
    var more := b + [x];
    if a == [] {
      InsertLast(b, x);
    } else if b == [] {
      if a[0].startedAt <= x.startedAt {
        InsertIntoMerge(a[1..], b, x);
        assert [a[0]] + a[1..] == a;
      }
    } else {
      assert more[0] == b[0] && more[1..] == b[1..] + [x];
      if a[0].startedAt <= b[0].startedAt {
        assert b[0] in b;
        InsertIntoMerge(a[1..], b, x);
        assert ([a[0]] + Merge(a[1..], b))[1..] == Merge(a[1..], b);
      } else {
        InsertIntoMerge(a, b[1..], x);
        assert ([b[0]] + Merge(a, b[1..]))[1..] == Merge(a, b[1..]);
      }
    }
  }

  lemma {:induction false} InsertLast(b: seq<Call>, x: Call)
    requires forall y :: y in b ==> y.startedAt <= x.startedAt
    ensures Insert(b, x) == b + [x]
    decreases |b|
  {
    if b != [] {
      InsertLast(b[1..], x);
      assert [b[0]] + (b[1..] + [x]) == b + [x];
    }
  }

  lemma {:induction false} AllButLast(b: seq<Call>)
    requires StartOrder(b) && b != []
    ensures var n := |b| - 1;
      StartOrder(b[..n]) && (forall y :: y in b[..n] ==> y.startedAt <= b[n].startedAt) && b[..n] + [b[n]] == b
  {
  }

  lemma {:induction false} SortSnoc(a: seq<Call>, x: Call)
    ensures SortByStart(a + [x]) == Insert(SortByStart(a), x)
  {
    assert (a + [x])[..|a|] == a;
  }

  lemma {:induction false} SortedStays(a: seq<Call>)
    requires StartOrder(a)
    ensures SortByStart(a) == a
    decreases |a|
  {
    if a != [] {
      var front, x := a[..|a| - 1], a[|a| - 1];
      AllButLast(a);
      SortedStays(front);
      SortSnoc(front, x);
      InsertLast(front, x);
    }
  }

  /** Sorting two lists in start order together is merging them, the first before the second
      at equal times. */
  lemma {:induction false} SortMerges(a: seq<Call>, b: seq<Call>)
    requires StartOrder(a) && StartOrder(b)
    ensures SortByStart(a + b) == Merge(a, b)
    decreases |b|
  {
    if b == [] {
      assert a + b == a;
      SortedStays(a);
    } else {
      var front, x := b[..|b| - 1], b[|b| - 1];
      AllButLast(b);
      SortMerges(a, front);
      assert (a + front) + [x] == a + b;
      SortSnoc(a + front, x);
      InsertIntoMerge(a, front, x);
    }
  }

  /** An earliest call in front of a list that has what two lists have. */
  lemma {:induction false} FirstInOrder(x: Call, rest: seq<Call>, a: seq<Call>, b: seq<Call>)
    requires StartOrder(rest) && forall e :: e in rest <==> e in a || e in b
    requires forall e :: e in a || e in b ==> x.startedAt <= e.startedAt
    ensures StartOrder([x] + rest) && forall e :: e in [x] + rest <==> e == x || e in a || e in b
  {
    forall k | 0 <= k < |rest|
      ensures x.startedAt <= rest[k].startedAt
    {
      assert rest[k] in rest;
    }
  }

  lemma {:induction false} FirstIsEarliest(s: seq<Call>)
    requires StartOrder(s) && s != []
    ensures StartOrder(s[1..]) && (forall e :: e in s ==> s[0].startedAt <= e.startedAt)
    ensures forall e :: e in s <==> e == s[0] || e in s[1..]
  {
    assert s == [s[0]] + s[1..];
  }

  lemma {:induction false} MergeInOrder(a: seq<Call>, b: seq<Call>)
    requires StartOrder(a) && StartOrder(b)
    ensures StartOrder(Merge(a, b)) && |Merge(a, b)| == |a| + |b|
    ensures forall e :: e in Merge(a, b) <==> e in a || e in b
    decreases |a| + |b|
  {
    if a != [] && b != [] {
      FirstIsEarliest(a);
      FirstIsEarliest(b);
      if a[0].startedAt <= b[0].startedAt {
        MergeInOrder(a[1..], b);
        FirstInOrder(a[0], Merge(a[1..], b), a[1..], b);
      } else {
        MergeInOrder(a, b[1..]);
        FirstInOrder(b[0], Merge(a, b[1..]), a, b[1..]);
      }
    }
  }

  /** A client's view lists exactly its calls and the calls of no client, by start time, its own
      first at equal times. */
  lemma {:induction false} ViewMergesInStartOrder(t: Tables, client: string, now: nat)
    requires Inv(t, now)
    ensures var view := ViewOf(t, client);
      && StartOrder(view)
      && (client != GLOBAL_KEY ==> view == Merge(ListOf(t, client), ListOf(t, GLOBAL_KEY)))
      && forall e :: e in view <==> e in ListOf(t, client) || e in ListOf(t, GLOBAL_KEY)
  {
    var a, b := ListOf(t, client), ListOf(t, GLOBAL_KEY);
    assert StartOrder(a) && StartOrder(b);
    SortMerges(a, b);
    MergeInOrder(a, b);
  }

  /** A call that finished is not ended again by the guard dropped behind it. */
  lemma {:induction false} AbortAfterFinishIsNothing(
    t: Tables, id: string, ok: bool, result: Bytes, reason: Bytes, now: nat, later: nat)
    ensures var u := Finished(t, id, ok, result, now); Aborted(u, id, reason, later) == u
    ensures var u := Aborted(t, id, reason, now); Finished(u, id, ok, result, later) == u
  {
    if id in t.owner {
      assert id !in t.owner - {id};
    }
  }
}
