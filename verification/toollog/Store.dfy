/** The store behind the log: two tables changed in place. */
module ToolLogStore {
  import opened Sequences
  import opened Wrappers
  import opened Utf8
  import opened ToolLog
  import Clamp

  lemma {:induction false} SameCall(t: Tables, client: string, list: seq<Call>, i: nat, e: Call)
    requires client in t.byClient && t.byClient[client] == list && i < |list| && list[i] == e
    ensures t.byClient[client := list[i := e]] == t.byClient
  {
    assert list[i := e] == list;
  }

  class Store {
    var byClient: map<string, seq<Call>>
    var requestToClient: map<string, string>

    ghost function Contents(): Tables
      reads this
    {
      Tables(byClient, requestToClient)
    }

    constructor ()
      ensures Contents() == EMPTY
    {
      byClient, requestToClient := map[], map[];
    }

    method StartCall(client: string, id: string, plugin: string, tool: string, args: Bytes, now: nat)
      modifies this
      ensures Contents() == Push(old(Contents()), client, NewCall(id, plugin, tool, args, now))
    {
      requestToClient := requestToClient[id := client];
      var clamped := Clamp.ClampPayload(args);
      var entry := Call(id, plugin, tool, clamped, Pending, now, None, None);
      var list := if client in byClient then byClient[client] else [];
      byClient := byClient[client := list + [entry]];
      EvictOverflow(client);
    }

    method EvictOverflow(client: string)
      modifies this
      ensures client !in old(byClient) ==> Contents() == old(Contents())
      ensures client in old(byClient) ==>
        var (kept, ids) := Evicted(old(byClient)[client]);
        Contents() == Tables(old(byClient)[client := kept], Without(old(requestToClient), ids))
    {
      if client !in byClient {
        return;
      }
      var kept, evicted := Shed(byClient[client]);
      byClient := byClient[client := kept];
      Forget(evicted);
    }

    /** What the limits keep of a list, and the ids they shed. */
    static method Shed(all: seq<Call>) returns (list: seq<Call>, evicted: seq<string>)
      ensures (list, evicted) == Evicted(all)
    {
      list, evicted := all, [];
      while |list| > MAX_ENTRIES_PER_CLIENT
        invariant Evicted(list).0 == Evicted(all).0 && evicted + Evicted(list).1 == Evicted(all).1
        decreases |list|
      {
        ghost var before := list;
        match FirstCompleted(list)
        case Some(i) =>
          evicted := evicted + [list[i].id];
          list := RemoveAt(list, i);
          Shift(evicted[..|evicted| - 1], before[i].id, Evicted(list).1);
        case None =>
          if |list| > HARD_CAP_PER_CLIENT {
            evicted := evicted + [list[0].id];
            list := list[1..];
            assert list == RemoveAt(before, 0);
            Shift(evicted[..|evicted| - 1], before[0].id, Evicted(list).1);
          } else {
            break;
          }
      }
      assert Evicted(list) == (list, []);
      assert evicted + [] == evicted;
    }

    /** Unmaps ids. */
    method Forget(ids: seq<string>)
      modifies this`requestToClient
      ensures requestToClient == Without(old(requestToClient), ids)
    {
      ghost var start := requestToClient;
      for i := 0 to |ids|
        invariant requestToClient == Without(start, ids[..i])
      {
        requestToClient := requestToClient - {ids[i]};
        assert ids[..i + 1] == ids[..i] + [ids[i]];
      }
      assert ids[..|ids|] == ids;
    }

    method FinishCall(id: string, ok: bool, result: Bytes, now: nat)
      modifies this
      ensures Contents() == Finished(old(Contents()), id, ok, result, now)
    {
      if id !in requestToClient {
        return;
      }
      var client := requestToClient[id];
      requestToClient := requestToClient - {id};
      if client in byClient {
        var list := byClient[client];
        match IndexOf(list, id)
        case None =>
        case Some(i) =>
          var clamped := Clamp.ClampPayload(result);
          var e := list[i];
          e := e.(status := if ok then Success else Error);
          e := e.(finishedAt := Some(now));
          e := e.(result := Some(clamped));
          byClient := byClient[client := list[i := e]];
      }
    }

    method MarkAborted(id: string, reason: Bytes, now: nat)
      modifies this
      ensures Contents() == Aborted(old(Contents()), id, reason, now)
    {
      if id !in requestToClient {
        return;
      }
      var client := requestToClient[id];
      requestToClient := requestToClient - {id};
      if client in byClient {
        var list := byClient[client];
        match IndexOf(list, id)
        case None =>
        case Some(i) =>
          var e := list[i];
          if e.status == Pending {
            e := e.(status := Error, finishedAt := Some(now), result := Some(AbortedNote(reason)));
            byClient := byClient[client := list[i := e]];
          } else {
            SameCall(Contents(), client, list, i, e);
          }
      }
    }

    /** Forgets the completed calls of a client. */
    method Clear(client: string)
      modifies this
      ensures Contents() == Cleared(old(Contents()), client)
    {
      if client in byClient {
        byClient := byClient[client := PendingOf(byClient[client])];
      }
    }

    method DropClient(client: string)
      modifies this
      ensures Contents() == Dropped(old(Contents()), client)
    {
      byClient := byClient - {client};
      requestToClient := map id | id in requestToClient && requestToClient[id] != client :: requestToClient[id];
    }

    method CountPending(client: string) returns (n: nat)
      ensures n == PendingCount(Contents(), client)
    {
      n := 0;
      if client in byClient {
        n := |PendingOf(byClient[client])|;
      }
      if client != GLOBAL_KEY && GLOBAL_KEY in byClient {
        n := n + |PendingOf(byClient[GLOBAL_KEY])|;
      }
    }

    method GetForClient(client: string) returns (entries: seq<Call>)
      ensures entries == ViewOf(Contents(), client)
    {
      entries := if client in byClient then byClient[client] else [];
      if client != GLOBAL_KEY {
        entries := entries + if GLOBAL_KEY in byClient then byClient[GLOBAL_KEY] else [];
        entries := SortByStart(entries);
      }
    }
  }
}
