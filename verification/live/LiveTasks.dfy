/** A task list kept current by live-query events: a list with unique ids that refines a map. */
module LiveTasks {
  import opened Wrappers

  datatype Task = Task(id: string, body: string)

  datatype Event = Create(task: Task) | Update(task: Task) | Delete(task: Task)

  // ----- The list -----

  function IndexOf(tasks: seq<Task>, id: string): (r: Option<nat>)
    ensures r.Some? ==> r.value < |tasks| && tasks[r.value].id == id
    ensures r.Some? ==> forall i :: 0 <= i < r.value ==> tasks[i].id != id
    ensures r.None? ==> forall i :: 0 <= i < |tasks| ==> tasks[i].id != id
  {
    if tasks == [] then None
    else if tasks[0].id == id then Some(0)
    else
      match IndexOf(tasks[1..], id)
      case None => None
      case Some(i) => Some(i + 1)
  }

  function Upserted(tasks: seq<Task>, task: Task): seq<Task> {
    match IndexOf(tasks, task.id)
    case Some(i) => tasks[i := task]
    case None => tasks + [task]
  }

  function Removed(tasks: seq<Task>, id: string): seq<Task> {
    match IndexOf(tasks, id)
    case Some(i) => tasks[..i] + tasks[i + 1..]
    case None => tasks
  }

  function Applied(tasks: seq<Task>, e: Event): seq<Task> {
    match e
    case Create(task) => Upserted(tasks, task)
    case Update(task) => Upserted(tasks, task)
    case Delete(task) => Removed(tasks, task.id)
  }

  class LiveList {
    var tasks: seq<Task>

    constructor ()
      ensures tasks == []
    {
      tasks := [];
    }

    method UpdateOrInsert(task: Task)
      modifies this
      ensures tasks == Upserted(old(tasks), task)
    {
      var updated := false;
      var i := 0;
      while i < |tasks| && !updated
        invariant i <= |tasks|
        invariant !updated ==> tasks == old(tasks) && forall j :: 0 <= j < i ==> tasks[j].id != task.id
        invariant updated ==> tasks == Upserted(old(tasks), task)
        decreases |tasks| - i, !updated
      {
        if tasks[i].id == task.id {
          tasks := tasks[i := task];
          updated := true;
        } else {
          i := i + 1;
        }
      }
      if !updated {
        tasks := tasks + [task];
      }
    }

    method HandleLiveData(e: Event)
      modifies this
      ensures tasks == Applied(old(tasks), e)
    {
      match e
      case Create(task) => UpdateOrInsert(task);
      case Update(task) => UpdateOrInsert(task);
      case Delete(task) =>
        match IndexOf(tasks, task.id)
        case None =>
        case Some(i) => tasks := tasks[..i] + tasks[i + 1..];
    }
  }

  // ----- The map it refines -----

  ghost predicate UniqueIds(tasks: seq<Task>) {
    forall i, j :: 0 <= i < j < |tasks| ==> tasks[i].id != tasks[j].id
  }

  /** What a lookup by id finds. */
  function AsMap(tasks: seq<Task>): map<string, Task> {
    map id | id in (set t | t in tasks :: t.id) :: tasks[IndexAt(tasks, id)]
  }

  function IndexAt(tasks: seq<Task>, id: string): (i: nat)
    requires exists t :: t in tasks && t.id == id
    ensures i < |tasks|
  {
    IndexOf(tasks, id).value
  }

  predicate Lists(tasks: seq<Task>, id: string) { IndexOf(tasks, id).Some? }

  lemma {:induction false} AsMapIs(tasks: seq<Task>, id: string)
    ensures id in AsMap(tasks) <==> Lists(tasks, id)
    ensures Lists(tasks, id) ==> AsMap(tasks)[id] == tasks[IndexOf(tasks, id).value]
  {
    if Lists(tasks, id) {
      assert tasks[IndexOf(tasks, id).value] in tasks;
    }
  }

  function Stored(m: map<string, Task>, e: Event): map<string, Task> {
    match e
    case Create(task) => m[task.id := task]
    case Update(task) => m[task.id := task]
    case Delete(task) => m - {task.id}
  }

  lemma FirstIs(tasks: seq<Task>, id: string, k: nat)
    requires k < |tasks| && tasks[k].id == id && forall i :: 0 <= i < k ==> tasks[i].id != id
    ensures IndexOf(tasks, id) == Some(k)
  {
  }

  lemma {:induction false} UpsertFinds(tasks: seq<Task>, task: Task, id: string)
    ensures var after := Upserted(tasks, task);
      if id == task.id then IndexOf(after, id).Some? && after[IndexOf(after, id).value] == task
      else if Lists(tasks, id) then
        Lists(after, id) && after[IndexOf(after, id).value] == tasks[IndexOf(tasks, id).value]
      else !Lists(after, id)
  {
    var after := Upserted(tasks, task);
    var at := IndexOf(tasks, task.id);
    if id == task.id {
      FirstIs(after, id, if at.Some? then at.value else |tasks|);
    } else if Lists(tasks, id) {
      FirstIs(after, id, IndexOf(tasks, id).value);
    }
  }

  /** An insert or update stores the task under its id and leaves every other lookup alone. */
  lemma {:induction false} UpsertRefines(tasks: seq<Task>, task: Task)
    ensures AsMap(Upserted(tasks, task)) == AsMap(tasks)[task.id := task]
    ensures UniqueIds(tasks) ==> UniqueIds(Upserted(tasks, task))
  {
    var after := Upserted(tasks, task);
    UpsertFinds(tasks, task, task.id);
    forall id
      ensures id in AsMap(after) <==> id in AsMap(tasks) || id == task.id
      ensures id in AsMap(after) ==> AsMap(after)[id] == AsMap(tasks)[task.id := task][id]
    {
      AsMapIs(after, id);
      AsMapIs(tasks, id);
      UpsertFinds(tasks, task, id);
    }
  }

  lemma {:induction false} RemoveFinds(tasks: seq<Task>, gone: string, id: string)
    requires id != gone
    ensures var after := Removed(tasks, gone);
      if Lists(tasks, id) then Lists(after, id) && after[IndexOf(after, id).value] == tasks[IndexOf(tasks, id).value]
      else !Lists(after, id)
  {
    var at := IndexOf(tasks, gone);
    if at.Some? && Lists(tasks, id) {
      var k := IndexOf(tasks, id).value;
      FirstIs(Removed(tasks, gone), id, if k < at.value then k else k - 1);
    }
  }

  ghost predicate HeldOnce(tasks: seq<Task>, id: string) {
    forall i, j :: 0 <= i < j < |tasks| ==> tasks[i].id != id || tasks[j].id != id
  }

  lemma {:induction false} RemovedLeavesIff(tasks: seq<Task>, id: string)
    ensures Lists(Removed(tasks, id), id) <==> !HeldOnce(tasks, id)
  {
    var at := IndexOf(tasks, id);
    if at.Some? {
      var after := Removed(tasks, id);
      if Lists(after, id) {
        var k := IndexOf(after, id).value;
        assert tasks[k + 1].id == id;
      }
      if i, j :| 0 <= i < j < |tasks| && tasks[i].id == id && tasks[j].id == id {
        assert after[j - 1].id == id;
      }
    }
  }

  lemma {:induction false} OthersStay(tasks: seq<Task>, id: string, other: string)
    requires other != id
    ensures var (before, after) := (AsMap(tasks), AsMap(Removed(tasks, id)));
      (other in after <==> other in before) && (other in after ==> after[other] == before[other])
  {
    AsMapIs(Removed(tasks, id), other);
    AsMapIs(tasks, other);
    RemoveFinds(tasks, id, other);
  }

  lemma {:induction false} RemovingKeepsUnique(tasks: seq<Task>, id: string)
    requires UniqueIds(tasks)
    ensures UniqueIds(Removed(tasks, id)) && HeldOnce(tasks, id)
  {
  }

  /** A delete is a map delete exactly when the list holds the id at most once. */
  lemma {:induction false} DeleteRefinesIff(tasks: seq<Task>, task: Task)
    ensures AsMap(Removed(tasks, task.id)) == AsMap(tasks) - {task.id} <==> HeldOnce(tasks, task.id)
    ensures UniqueIds(tasks) ==> UniqueIds(Removed(tasks, task.id)) && HeldOnce(tasks, task.id)
  {
    var before, after := AsMap(tasks), AsMap(Removed(tasks, task.id));
    RemovedLeavesIff(tasks, task.id);
    AsMapIs(Removed(tasks, task.id), task.id);
    forall id | id != task.id
      ensures id in after <==> id in before
      ensures id in after ==> after[id] == before[id]
    {
      OthersStay(tasks, task.id, id);
    }
    if UniqueIds(tasks) {
      RemovingKeepsUnique(tasks, task.id);
    }
  }

  function RunList(tasks: seq<Task>, events: seq<Event>): seq<Task>
    decreases |events|
  {
    if events == [] then tasks else RunList(Applied(tasks, events[0]), events[1..])
  }

  function RunMap(m: map<string, Task>, events: seq<Event>): map<string, Task>
    decreases |events|
  {
    if events == [] then m else RunMap(Stored(m, events[0]), events[1..])
  }

  /** Under any events a list that starts with unique ids keeps them unique and answers every
      lookup as a map fed the same events would. */
  lemma {:induction false} ListRefinesMap(tasks: seq<Task>, events: seq<Event>)
    requires UniqueIds(tasks)
    ensures UniqueIds(RunList(tasks, events)) && AsMap(RunList(tasks, events)) == RunMap(AsMap(tasks), events)
    decreases |events|
  {
    if events != [] {
      match events[0]
      {
        case Create(task) => UpsertRefines(tasks, task);
        case Update(task) => UpsertRefines(tasks, task);
        case Delete(task) => DeleteRefinesIff(tasks, task);
      }
      ListRefinesMap(Applied(tasks, events[0]), events[1..]);
    }
  }
}
