/** The per-client log of tool calls as two tables that must agree: each client's list of calls,
    and the client each call still in flight belongs to. */
module ToolLog {
  import opened Wrappers
  import opened Utf8
  import Clamp

  const GLOBAL_KEY := "_mcp_server"
  const MAX_ENTRIES_PER_CLIENT := 200
  const HARD_CAP_PER_CLIENT := 400

  datatype Status = Pending | Success | Error

  datatype Call = Call(
    id: string,
    plugin: string,
    tool: string,
    args: Bytes,
    status: Status,
    startedAt: nat,
    finishedAt: Option<nat>,
    result: Option<Bytes>)

  datatype Tables = Tables(byClient: map<string, seq<Call>>, owner: map<string, string>)

  const EMPTY := Tables(map[], map[])

  /** The list of a client, empty when it has none. */
  function ListOf(t: Tables, client: string): seq<Call> {
    if client in t.byClient then t.byClient[client] else []
  }

  // ----- Eviction -----

  /** Index of the oldest call no longer in flight. */
  function FirstCompleted(list: seq<Call>): (r: Option<nat>)
    ensures r.Some? ==> r.value < |list| && list[r.value].status != Pending
    ensures r.Some? ==> forall i :: 0 <= i < r.value ==> list[i].status == Pending
    ensures r.None? ==> forall i :: 0 <= i < |list| ==> list[i].status == Pending
  {
    if list == [] then None
    else if list[0].status != Pending then Some(0)
    else
      match FirstCompleted(list[1..])
      case None => None
      case Some(i) => Some(i + 1)
  }

  function RemoveAt<T>(s: seq<T>, i: nat): (r: seq<T>)
    requires i < |s|
    ensures |r| == |s| - 1
  {
    s[..i] + s[i + 1..]
  }

  /** The entry the limits shed next, if any. */
  function Victim(list: seq<Call>): (r: Option<nat>)
    ensures r.Some? ==> r.value < |list|
  {
    if |list| <= MAX_ENTRIES_PER_CLIENT then None
    else
      match FirstCompleted(list)
      case Some(i) => Some(i)
      case None => if |list| > HARD_CAP_PER_CLIENT then Some(0) else None
  }

  /** What stays of a list, and the ids shed, oldest first. */
  function Evicted(list: seq<Call>): (seq<Call>, seq<string>)
    decreases |list|
  {
    match Victim(list)
    case None => (list, [])
    case Some(i) =>
      var (kept, ids) := Evicted(RemoveAt(list, i));
      (kept, [list[i].id] + ids)
  }

  function Without(owner: map<string, string>, ids: seq<string>): map<string, string> {
    map id | id in owner && id !in ids :: owner[id]
  }

  // ----- The operations -----

  function Push(t: Tables, client: string, call: Call): Tables {
    var (kept, ids) := Evicted(ListOf(t, client) + [call]);
    Tables(t.byClient[client := kept], Without(t.owner[call.id := client], ids))
  }

  function NewCall(id: string, plugin: string, tool: string, args: Bytes, now: nat): Call {
    Call(id, plugin, tool, Clamp.Clamped(args), Pending, now, None, None)
  }

  /** Index of the first call with an id. */
  function IndexOf(list: seq<Call>, id: string): (r: Option<nat>)
    ensures r.Some? ==> r.value < |list| && list[r.value].id == id
    ensures r.Some? ==> forall i :: 0 <= i < r.value ==> list[i].id != id
    ensures r.None? ==> forall i :: 0 <= i < |list| ==> list[i].id != id
  {
    if list == [] then None
    else if list[0].id == id then Some(0)
    else
      match IndexOf(list[1..], id)
      case None => None
      case Some(i) => Some(i + 1)
  }

  function Ended(call: Call, ok: bool, result: Bytes, now: nat): Call {
    call.(status := if ok then Success else Error, finishedAt := Some(now), result := Some(result))
  }

  /** The first call with the id, replaced by what `f` makes of it. */
  function Replaced(t: Tables, client: string, id: string, f: Call -> Call): Tables {
    var owner := t.owner - {id};
    match IndexOf(ListOf(t, client), id)
    case None => Tables(t.byClient, owner)
    case Some(i) =>
      var list := ListOf(t, client);
      Tables(t.byClient[client := list[i := f(list[i])]], owner)
  }

  function Finished(t: Tables, id: string, ok: bool, result: Bytes, now: nat): Tables {
    if id !in t.owner then t
    else Replaced(t, t.owner[id], id, call => Ended(call, ok, Clamp.Clamped(result), now))
  }

  function AbortedNote(reason: Bytes): Bytes { Encode("{\"aborted\":\"") + (reason + Encode("\"}")) }

  function Aborted(t: Tables, id: string, reason: Bytes, now: nat): Tables {
    if id !in t.owner then t
    else
      Replaced(t, t.owner[id], id, (call: Call) =>
        if call.status == Pending then Ended(call, false, AbortedNote(reason), now) else call)
  }

  function PendingOf(list: seq<Call>): seq<Call> {
    if list == [] then []
    else (if list[0].status == Pending then [list[0]] else []) + PendingOf(list[1..])
  }

  function CompletedOf(list: seq<Call>): seq<Call> {
    if list == [] then []
    else (if list[0].status != Pending then [list[0]] else []) + CompletedOf(list[1..])
  }

  function Cleared(t: Tables, client: string): Tables {
    if client in t.byClient then t.(byClient := t.byClient[client := PendingOf(t.byClient[client])]) else t
  }

  function Dropped(t: Tables, client: string): Tables {
    Tables(t.byClient - {client}, map id | id in t.owner && t.owner[id] != client :: t.owner[id])
  }

  function PendingCount(t: Tables, client: string): nat {
    |PendingOf(ListOf(t, client))| + if client != GLOBAL_KEY then |PendingOf(ListOf(t, GLOBAL_KEY))| else 0
  }

  // ----- The viewer's list -----

  /** Behind everything that started no later. */
  function Insert(s: seq<Call>, x: Call): seq<Call> {
    if s == [] then [x]
    else if s[0].startedAt <= x.startedAt then [s[0]] + Insert(s[1..], x)
    else [x] + s
  }

  /** A stable sort by start time. */
  function SortByStart(s: seq<Call>): seq<Call> {
    if s == [] then [] else Insert(SortByStart(s[..|s| - 1]), s[|s| - 1])
  }

  function Merge(a: seq<Call>, b: seq<Call>): seq<Call>
    decreases |a| + |b|
  {
    if a == [] then b
    else if b == [] then a
    else if a[0].startedAt <= b[0].startedAt then [a[0]] + Merge(a[1..], b)
    else [b[0]] + Merge(a, b[1..])
  }

  function ViewOf(t: Tables, client: string): seq<Call> {
    if client == GLOBAL_KEY then ListOf(t, client)
    else SortByStart(ListOf(t, client) + ListOf(t, GLOBAL_KEY))
  }
}
