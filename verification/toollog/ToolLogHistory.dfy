/** What the log says of a call against what happened to it. */
module ToolLogHistory {
  import opened Wrappers
  import opened Utf8
  import opened ToolLog
  import opened ToolLogRuns
  import Clamp

  type History = seq<(Op, nat)>

  predicate Starts(op: Op, id: string) { op.StartCall? && op.id == id }

  predicate Ends(op: Op, id: string) { (op.FinishCall? || op.MarkAborted?) && op.id == id }

  /** The call `e` of client `c` is the one started at `s`, the last under its id. */
  ghost predicate StartedAt(ops: History, s: nat, c: string, e: Call) {
    && s < |ops|
    && (var (op, at) := ops[s];
        && op.StartCall? && op.client == c && op.id == e.id && op.plugin == e.plugin && op.tool == e.tool
        && e.args == Clamp.Clamped(op.args) && e.startedAt == at)
    && forall i :: s < i < |ops| ==> !Starts(ops[i].0, e.id)
  }

  ghost predicate NoEnding(ops: History, s: nat, f: nat, id: string) {
    forall i :: s < i < f && i < |ops| ==> !Ends(ops[i].0, id)
  }

  /** The first ending of the id after `s` is at `f`. */
  ghost predicate FirstEnding(ops: History, s: nat, f: nat, id: string) {
    s < f < |ops| && Ends(ops[f].0, id) && NoEnding(ops, s, f, id)
  }

  /** What an ending leaves of a call. */
  ghost predicate EndedBy(op: Op, at: nat, e: Call) {
    && e.finishedAt == Some(at)
    && (op.FinishCall? ==>
          e.status == (if op.ok then Success else Error) && e.result == Some(Clamp.Clamped(op.result)))
    && (op.MarkAborted? ==>
          e.status == Error && e.result == Some(Encode("{\"aborted\":\"") + (op.reason + Encode("\"}"))))
  }

  predicate Untouched(e: Call) { e.status == Pending && e.finishedAt == None && e.result == None }

  /** The call is as its start and the first ending of its id since then, if any, left it. */
  ghost predicate Recorded(ops: History, c: string, e: Call) {
    exists s: nat :: StartedAt(ops, s, c, e) && AsLeft(ops, s, e)
  }

  ghost predicate AsLeft(ops: History, s: nat, e: Call) {
    || (Untouched(e) && NoEnding(ops, s, |ops|, e.id))
    || exists f: nat :: FirstEnding(ops, s, f, e.id) && EndedBy(ops[f].0, ops[f].1, e)
  }

  ghost predicate AllRecorded(ops: History, t: Tables) {
    forall c, e :: c in t.byClient && e in t.byClient[c] ==> Recorded(ops, c, e)
  }

  // ----- One more operation -----

  lemma {:induction false} StartStays(ops: History, x: (Op, nat), s: nat, c: string, e: Call)
    requires StartedAt(ops, s, c, e) && !Starts(x.0, e.id)
    ensures StartedAt(ops + [x], s, c, e)
  {
  }

  lemma {:induction false} EndingStays(ops: History, x: (Op, nat), s: nat, f: nat, id: string)
    requires FirstEnding(ops, s, f, id)
    ensures FirstEnding(ops + [x], s, f, id) && (ops + [x])[f] == ops[f]
  {
  }

  lemma {:induction false} NoEndingStays(ops: History, x: (Op, nat), s: nat, id: string)
    requires NoEnding(ops, s, |ops|, id) && !Ends(x.0, id)
    ensures NoEnding(ops + [x], s, |ops + [x]|, id)
  {
  }

  lemma {:induction false} StillRecorded(ops: History, x: (Op, nat), c: string, e: Call)
    requires Recorded(ops, c, e) && !Starts(x.0, e.id) && (Ends(x.0, e.id) ==> e.status != Pending)
    ensures Recorded(ops + [x], c, e)
  {
    var s: nat :| StartedAt(ops, s, c, e) && AsLeft(ops, s, e);
    StartStays(ops, x, s, c, e);
    if f: nat :| FirstEnding(ops, s, f, e.id) && EndedBy(ops[f].0, ops[f].1, e) {
      EndingStays(ops, x, s, f, e.id);
      assert AsLeft(ops + [x], s, e);
    } else {
      NoEndingStays(ops, x, s, e.id);
    }
  }

  lemma {:induction false} EndingIsNext(ops: History, x: (Op, nat), s: nat, id: string)
    requires NoEnding(ops, s, |ops|, id) && s < |ops| && Ends(x.0, id)
    ensures FirstEnding(ops + [x], s, |ops|, id) && (ops + [x])[|ops|] == x
  {
  }

  lemma {:induction false} PendingHasNoEnding(ops: History, s: nat, e: Call)
    requires AsLeft(ops, s, e) && e.status == Pending
    ensures NoEnding(ops, s, |ops|, e.id)
  {
  }

  lemma {:induction false} NowEnded(ops: History, x: (Op, nat), c: string, e: Call, ended: Call)
    requires Recorded(ops, c, e) && e.status == Pending && Ends(x.0, e.id) && EndedBy(x.0, x.1, ended)
    requires ended == e.(status := ended.status, finishedAt := ended.finishedAt, result := ended.result)
    ensures Recorded(ops + [x], c, ended)
  {
    var s: nat :| StartedAt(ops, s, c, e) && AsLeft(ops, s, e);
    PendingHasNoEnding(ops, s, e);
    StartStays(ops, x, s, c, e);
    EndingIsNext(ops, x, s, e.id);
    assert StartedAt(ops + [x], s, c, ended) && AsLeft(ops + [x], s, ended);
  }

  lemma {:induction false} NowStarted(ops: History, op: Op, at: nat)
    requires op.StartCall?
    ensures Recorded(ops + [(op, at)], op.client, NewCall(op.id, op.plugin, op.tool, op.args, at))
  {
    var e, more := NewCall(op.id, op.plugin, op.tool, op.args, at), ops + [(op, at)];
    assert StartedAt(more, |ops|, op.client, e) && AsLeft(more, |ops|, e);
  }

  lemma {:induction false} StartRecords(t: Tables, ops: History, op: Op, at: nat)
    requires AllRecorded(ops, t) && op.StartCall? && !Held(t, op.id)
    ensures AllRecorded(ops + [(op, at)], Apply(t, op, at))
  {
    var u := Apply(t, op, at);
    var call := NewCall(op.id, op.plugin, op.tool, op.args, at);
    EvictionSplits(ListOf(t, op.client) + [call]);
    NowStarted(ops, op, at);
    forall c, e | c in u.byClient && e in u.byClient[c]
      ensures Recorded(ops + [(op, at)], c, e)
    {
      if c != op.client || e != call {
        assert c in t.byClient && e in t.byClient[c];
        assert Listed(t, c, e.id);
        StillRecorded(ops, (op, at), c, e);
      }
    }
  }

  /** No call in flight has the id. */
  lemma {:induction false} UnmappedIsNotPending(t: Tables, now: nat, c: string, e: Call)
    requires Inv(t, now) && c in t.byClient && e in t.byClient[c] && e.id !in t.owner
    ensures e.status != Pending
  {
    assert InFlight(t, c, e.id) ==> IsOwner(t, c, e.id);
  }

  lemma {:induction false} IdleEndingRecords(t: Tables, now: nat, ops: History, x: (Op, nat))
    requires Inv(t, now) && AllRecorded(ops, t) && (x.0.FinishCall? || x.0.MarkAborted?) && x.0.id !in t.owner
    ensures AllRecorded(ops + [x], t)
  {
    forall c, e | c in t.byClient && e in t.byClient[c]
      ensures Recorded(ops + [x], c, e)
    {
      if e.id == x.0.id {
        UnmappedIsNotPending(t, now, c, e);
      }
      StillRecorded(ops, x, c, e);
    }
  }

  /** No other listed call has the id of the one at `i`. */
  lemma {:induction false} OnlyOne(t: Tables, now: nat, client: string, i: nat, c: string, e: Call)
    requires Inv(t, now) && client in t.byClient && i < |t.byClient[client]|
    requires c in t.byClient && e in t.byClient[c] && e.id == t.byClient[client][i].id
    ensures c == client && e == t.byClient[client][i]
  {
    var list := t.byClient[client];
    assert list[i] in list && Listed(t, client, e.id) && Listed(t, c, e.id);
    var j :| 0 <= j < |list| && list[j] == e;
    assert DistinctIds(list);
  }

  lemma {:induction false} EndingRecords(
    t: Tables, now: nat, ops: History, x: (Op, nat), client: string, i: nat, ended: Call, u: Tables)
    requires Inv(t, now) && AllRecorded(ops, t) && client in t.byClient && i < |t.byClient[client]|
    requires var e := t.byClient[client][i];
      && e.status == Pending && Ends(x.0, e.id) && EndedBy(x.0, x.1, ended)
      && ended == e.(status := ended.status, finishedAt := ended.finishedAt, result := ended.result)
    requires u.byClient == t.byClient[client := t.byClient[client][i := ended]]
    ensures AllRecorded(ops + [x], u)
  {
    var list := t.byClient[client];
    assert list[i] in list;
    NowEnded(ops, x, client, list[i], ended);
    forall c, e | c in u.byClient && e in u.byClient[c]
      ensures Recorded(ops + [x], c, e)
    {
      if c != client || e != ended {
        assert c in t.byClient && e in t.byClient[c];
        if e.id == list[i].id {
          OnlyOne(t, now, client, i, c, e);
          OtherPlace(list, i, ended, e);
        }
        StillRecorded(ops, x, c, e);
      }
    }
  }

  /** A call still listed after another was put in its place is not the one replaced. */
  lemma {:induction false} OtherPlace(list: seq<Call>, i: nat, ended: Call, e: Call)
    requires DistinctIds(list) && i < |list| && e in list[i := ended] && e != ended
    ensures e != list[i]
  {
    var after := list[i := ended];
    var j :| 0 <= j < |after| && after[j] == e;
    assert j != i && list[j] == e;
  }

  lemma {:induction false} FinishRecords(t: Tables, before: nat, ops: History, x: (Op, nat))
    requires Inv(t, before) && before <= x.1 && AllRecorded(ops, t) && x.0.FinishCall? && x.0.id in t.owner
    ensures AllRecorded(ops + [x], Apply(t, x.0, x.1))
  {
    var FinishCall(id, ok, result) := x.0;
    var client := t.owner[id];
    var f := (call: Call) => Ended(call, ok, Clamp.Clamped(result), x.1);
    ReplacedKeeps(t, client, id, f, before, x.1);
    var u := Replaced(t, client, id, f);
    var list := t.byClient[client];
    var i :| 0 <= i < |list| && list[i].id == id && list[i].status == Pending
      && u.byClient == t.byClient[client := list[i := f(list[i])]];
    EndingRecords(t, before, ops, x, client, i, f(list[i]), u);
  }

  lemma {:induction false} AbortEnds(e: Call, reason: Bytes, at: nat, op: Op, ended: Call)
    requires op == MarkAborted(e.id, reason) && ended == Ended(e, false, AbortedNote(reason), at)
    ensures EndedBy(op, at, ended)
    ensures ended == e.(status := ended.status, finishedAt := ended.finishedAt, result := ended.result)
  {
  }

  /** Where the call aborted is, and what becomes of the lists. */
  lemma {:induction false} AbortedAt(t: Tables, before: nat, id: string, reason: Bytes, at: nat) returns (i: nat)
    requires Inv(t, before) && before <= at && id in t.owner
    ensures var client := t.owner[id];
      && client in t.byClient && i < |t.byClient[client]|
      && t.byClient[client][i].id == id && t.byClient[client][i].status == Pending
      && Aborted(t, id, reason, at).byClient == t.byClient[client :=
           t.byClient[client][i := Ended(t.byClient[client][i], false, AbortedNote(reason), at)]]
  {
    var client := t.owner[id];
    var f := (call: Call) => if call.status == Pending then Ended(call, false, AbortedNote(reason), at) else call;
    ReplacedKeeps(t, client, id, f, before, at);
    var list := t.byClient[client];
    i :| 0 <= i < |list| && list[i].id == id && list[i].status == Pending
      && Replaced(t, client, id, f).byClient == t.byClient[client := list[i := f(list[i])]];
  }

  lemma {:induction false} AbortRecords(t: Tables, before: nat, ops: History, x: (Op, nat))
    requires Inv(t, before) && before <= x.1 && AllRecorded(ops, t) && x.0.MarkAborted? && x.0.id in t.owner
    ensures AllRecorded(ops + [x], Apply(t, x.0, x.1))
  {
    var MarkAborted(id, reason) := x.0;
    var client := t.owner[id];
    var i := AbortedAt(t, before, id, reason, x.1);
    var ended := Ended(t.byClient[client][i], false, AbortedNote(reason), x.1);
    AbortEnds(t.byClient[client][i], reason, x.1, x.0, ended);
    EndingRecords(t, before, ops, x, client, i, ended, Aborted(t, id, reason, x.1));
  }

  /** Operations that only take calls off lists. */
  lemma {:induction false} RemovalRecords(t: Tables, ops: History, x: (Op, nat))
    requires AllRecorded(ops, t) && (x.0.Clear? || x.0.DropClient?)
    ensures AllRecorded(ops + [x], Apply(t, x.0, x.1))
  {
    var u := Apply(t, x.0, x.1);
    forall c, e | c in u.byClient && e in u.byClient[c]
      ensures Recorded(ops + [x], c, e)
    {
      PendingOfFacts(t.byClient[c]);
      StillRecorded(ops, x, c, e);
    }
  }

  lemma {:induction false} ApplyRecords(t: Tables, before: nat, ops: History, x: (Op, nat))
    requires Inv(t, before) && before <= x.1 && AllRecorded(ops, t) && (x.0.StartCall? ==> !Held(t, x.0.id))
    ensures AllRecorded(ops + [x], Apply(t, x.0, x.1))
  {
    match x.0
    case StartCall(_, _, _, _, _) => StartRecords(t, ops, x.0, x.1);
    case FinishCall(id, _, _) =>
      if id in t.owner {
        FinishRecords(t, before, ops, x);
      } else {
        IdleEndingRecords(t, before, ops, x);
      }
    case MarkAborted(id, _) =>
      if id in t.owner {
        AbortRecords(t, before, ops, x);
      } else {
        IdleEndingRecords(t, before, ops, x);
      }
    case Clear(_) => RemovalRecords(t, ops, x);
    case DropClient(_) => RemovalRecords(t, ops, x);
  }

  lemma {:induction false} RunRecords(t: Tables, now: nat, past: History, ops: History)
    requires Inv(t, now) && Admissible(t, ops, now) && AllRecorded(past, t)
    ensures AllRecorded(past + ops, Run(t, ops))
    decreases |ops|
  {
    if ops == [] {
      assert past + ops == past;
    } else {
      var x := ops[0];
      ApplyKeeps(t, x.0, now, x.1);
      ApplyRecords(t, now, past, x);
      RunRecords(Apply(t, x.0, x.1), x.1, past + [x], ops[1..]);
      assert past + [x] + ops[1..] == past + ops;
    }
  }

  /** Over every run from the empty log on, a listed call has the plugin, tool, arguments and start time of the
      last start under its id, and is pending when its id was not ended since, and otherwise a success, an
      error or aborted as the first ending says, with that ending's time and result. */
  lemma {:induction false} CallsAreRecorded(ops: History)
    requires Admissible(EMPTY, ops, 0)
    ensures AllRecorded(ops, Run(EMPTY, ops))
  {
    EmptyOk();
    RunRecords(EMPTY, 0, [], ops);
    assert [] + ops == ops;
  }

  /** For instance its status. */
  lemma {:induction false} StatusTellsTheEnding(ops: History, c: string, e: Call, s: nat)
    requires Recorded(ops, c, e) && StartedAt(ops, s, c, e)
    ensures e.status == Pending <==> NoEnding(ops, s, |ops|, e.id)
    ensures e.status == Success <==>
      exists f: nat :: FirstEnding(ops, s, f, e.id) && ops[f].0.FinishCall? && ops[f].0.ok
  {
    var r: nat :| StartedAt(ops, r, c, e) && AsLeft(ops, r, e);
    assert r == s by { assert Starts(ops[r].0, e.id) && Starts(ops[s].0, e.id); }
    if f: nat :| FirstEnding(ops, s, f, e.id) {
      forall g: nat | FirstEnding(ops, s, g, e.id) ensures g == f {}
      assert Ends(ops[f].0, e.id) && !NoEnding(ops, s, |ops|, e.id);
    }
  }

  // ----- Whose list an operation changes -----

  /** The client whose calls the operation is about. */
  predicate Concerns(t: Tables, op: Op, client: string) {
    match op
    case StartCall(c, _, _, _, _) => c == client
    case FinishCall(id, _, _) => IsOwner(t, client, id)
    case MarkAborted(id, _) => IsOwner(t, client, id)
    case Clear(c) => c == client
    case DropClient(c) => c == client
  }

  /** No operation touches the calls of a client it is not about. */
  lemma {:induction false} OtherListsStay(t: Tables, op: Op, at: nat, client: string)
    requires !Concerns(t, op, client)
    ensures var u := Apply(t, op, at);
      (client in u.byClient <==> client in t.byClient) && ListOf(u, client) == ListOf(t, client)
  {
  }

  /** In any tables whatever, aborting touches no call that has ended. */
  lemma {:induction false} AbortsKeepEndedCalls(t: Tables, id: string, reason: Bytes, at: nat, client: string, i: nat)
    requires i < |ListOf(t, client)| && ListOf(t, client)[i].status != Pending
    ensures var list := ListOf(Aborted(t, id, reason, at), client);
      |list| == |ListOf(t, client)| && list[i] == ListOf(t, client)[i]
  {
  }

  /** Clearing leaves a client the calls in flight, in their order, and dropping leaves it nothing. */
  lemma {:induction false} OwnListAfter(t: Tables, client: string, at: nat)
    ensures ListOf(Apply(t, Clear(client), at), client) == PendingOf(ListOf(t, client))
    ensures ListOf(Apply(t, DropClient(client), at), client) == []
  {
  }
}
