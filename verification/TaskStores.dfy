/** The bounded in-memory task store of the A2A server, and the log it keeps the end of. */
module TaskStores {
  import opened Sequences
  import opened Wrappers

  datatype TaskState = Pending | Running | Completed | Failed | Cancelled
  {
    predicate Terminal() { Completed? || Failed? || Cancelled? }
  }

  datatype Task = Task(
    id: string,
    state: TaskState,
    message: string,
    response: Option<string>,
    createdAt: nat,
    completedAt: Option<nat>,
    from: Option<string>)

  /** The value of a store: ids from oldest to newest, the tasks by id, and the capacity. */
  datatype Store = Store(order: seq<string>, tasks: map<string, Task>, capacity: nat)

  function Evict(s: Store): Store
    requires s.order != []
  {
    s.(order := s.order[1..], tasks := s.tasks - {s.order[0]})
  }

  function Insert(s: Store, task: Task): (t: Store)
    requires s.capacity >= 1
    ensures t.capacity == s.capacity
    decreases |s.order|
  {
    if |s.order| >= s.capacity then Insert(Evict(s), task)
    else s.(order := s.order + [task.id], tasks := s.tasks[task.id := task])
  }

  function Min(a: nat, b: nat): nat { if a < b then a else b }

  /** The tasks named by a list of ids, skipping the ones that are gone. */
  function Present(tasks: map<string, Task>, ids: seq<string>): seq<Task> {
    if ids == [] then []
    else (if ids[0] in tasks then [tasks[ids[0]]] else []) + Present(tasks, ids[1..])
  }

  function Reversed<T>(s: seq<T>): (r: seq<T>)
    ensures |r| == |s| && forall i :: 0 <= i < |s| ==> r[i] == s[|s| - 1 - i]
  {
    if s == [] then [] else Reversed(s[1..]) + [s[0]]
  }

  function List(s: Store, limit: nat): seq<Task> {
    Present(s.tasks, Reversed(s.order)[..Min(limit, |s.order|)])
  }

  // ---------- what the handlers do to one task ----------

  /** handle_cancel_task: the new store and the HTTP status. */
  function Cancel(s: Store, id: string, now: nat): (Store, nat) {
    if id !in s.tasks then (s, 404)
    else if s.tasks[id].state.Terminal() then (s, 409)
    else (s.(tasks := s.tasks[id := s.tasks[id].(state := Cancelled, completedAt := Some(now))]), 200)
  }

  /** The first half of process_task, and whether it goes on. */
  function Start(s: Store, id: string): (Store, bool) {
    if id !in s.tasks then (s, true)
    else if s.tasks[id].state == Cancelled then (s, false)
    else (s.(tasks := s.tasks[id := s.tasks[id].(state := Running)]), true)
  }

  /** Its second half. */
  function Finish(s: Store, id: string, result: Result<string, string>, now: nat): Store {
    if id !in s.tasks || s.tasks[id].state == Cancelled then s
    else
      var task := s.tasks[id].(completedAt := Some(now));
      s.(tasks := s.tasks[id := match result
        case Ok(response) => task.(state := Completed, response := Some(response))
        case Err(e) => task.(state := Failed, response := Some("error: " + e))])
  }

  class TaskStore {
    var tasks: map<string, Task>
    var order: seq<string>
    const capacity: nat

    function View(): Store
      reads this
    {
      Store(order, tasks, capacity)
    }

    constructor (capacity: nat)
      ensures View() == Store([], map[], capacity)
    {
      this.capacity := capacity;
      tasks, order := map[], [];
    }

    method InsertTask(task: Task)
      requires capacity >= 1
      modifies this
      ensures View() == Insert(old(View()), task)
    {
      while |order| >= capacity
        invariant Insert(View(), task) == Insert(old(View()), task)
        decreases |order|
      {
        var oldest := order[0];
        tasks := tasks - {oldest};
        order := order[1..];
      }
      order := order + [task.id];
      tasks := tasks[task.id := task];
    }

    function Get(id: string): (found: Option<Task>)
      reads this
    {
      if id in tasks then Some(tasks[id]) else None
    }

    function ListTasks(limit: nat): seq<Task>
      reads this
    {
      List(View(), limit)
    }

    method HandleCancelTask(id: string, now: nat) returns (status: nat)
      modifies this`tasks
      ensures (View(), status) == Cancel(old(View()), id, now)
    {
      if id !in tasks { return 404; }
      var task := tasks[id];
      if task.state == Pending || task.state == Running {
        task := task.(state := Cancelled);
        task := task.(completedAt := Some(now));
        tasks := tasks[id := task];
        status := 200;
      } else {
        status := 409;
      }
    }

    method MarkRunning(id: string) returns (goOn: bool)
      modifies this`tasks
      ensures (View(), goOn) == Start(old(View()), id)
    {
      if id in tasks {
        if tasks[id].state == Cancelled { return false; }
        tasks := tasks[id := tasks[id].(state := Running)];
      }
      goOn := true;
    }

    method RecordResult(id: string, result: Result<string, string>, now: nat)
      modifies this`tasks
      ensures View() == Finish(old(View()), id, result, now)
    {
      if id in tasks {
        var task := tasks[id];
        if task.state == Cancelled { return; }
        match result {
          case Ok(response) => task := task.(state := Completed, response := Some(response));
          case Err(e) => task := task.(state := Failed, response := Some("error: " + e));
        }
        task := task.(completedAt := Some(now));
        tasks := tasks[id := task];
      }
    }
  }

  // ---------- the log ----------

  predicate DistinctIds(log: seq<Task>) {
    forall i, j :: 0 <= i < j < |log| ==> log[i].id != log[j].id
  }

  /** The last n elements. */
  function Newest<T>(log: seq<T>, n: nat): (end: seq<T>)
    ensures |end| == Min(n, |log|)
    ensures forall i :: 0 <= i < |end| ==> end[i] == log[|log| - |end| + i]
  {
    log[|log| - Min(n, |log|)..]
  }

  lemma NewestOneMore<T>(log: seq<T>, x: T, n: nat)
    requires n >= 1
    ensures Newest(log + [x], n) == (if |log| >= n then Newest(log, n)[1..] else Newest(log, n)) + [x]
  {
    hide Newest;
    var front := if |log| >= n then Newest(log, n)[1..] else Newest(log, n);
    var end := Newest(log + [x], n);
    assert |end| == |front| + 1;
    forall i | 0 <= i < |end| ensures end[i] == (front + [x])[i] {
      assert end[i] == (log + [x])[|log| + 1 - |end| + i];
    }
  }

  /** The store holds exactly the last `capacity` tasks of the log, under their ids, in their order. */
  ghost predicate HoldsEndOf(s: Store, log: seq<Task>) {
    var end := Newest(log, s.capacity);
    && |s.order| == |end|
    && (forall i :: 0 <= i < |end| ==> s.order[i] == end[i].id)
    && (forall id :: id in s.tasks <==> id in s.order)
    && (forall i :: 0 <= i < |end| ==> end[i].id in s.tasks && s.tasks[end[i].id] == end[i])
  }

  lemma OrderIsDistinct(s: Store, log: seq<Task>)
    requires DistinctIds(log) && HoldsEndOf(s, log)
    ensures Distinct(s.order)
  {
  }

  /** Freshness in terms of the store: the new id is in none of the entries. */
  lemma FreshToStore(s: Store, log: seq<Task>, task: Task)
    requires DistinctIds(log + [task]) && HoldsEndOf(s, log)
    ensures task.id !in s.order && task.id !in s.tasks
  {
    var longer := log + [task];
    assert longer[|log|] == task;
    forall i | 0 <= i < |s.order| ensures s.order[i] != task.id {
      var k := |log| - |s.order| + i;
      assert s.order[i] == Newest(log, s.capacity)[i].id == log[k].id && longer[k] == log[k];
    }
  }

  lemma AppendKeepsEnd(s: Store, log: seq<Task>, task: Task)
    requires |s.order| < s.capacity && HoldsEndOf(s, log) && task.id !in s.order
    ensures HoldsEndOf(s.(order := s.order + [task.id], tasks := s.tasks[task.id := task]), log + [task])
  {
    var t := s.(order := s.order + [task.id], tasks := s.tasks[task.id := task]);
    var longer := log + [task];
    assert |log| < s.capacity;
    hide HoldsEndOf;
    ShortLog(s, log);
    assert Newest(longer, s.capacity) == longer;
    forall i | 0 <= i < |longer|
      ensures t.order[i] == longer[i].id && t.tasks[longer[i].id] == longer[i]
    {
      assert i < |log| ==> longer[i] == log[i] && s.order[i] == log[i].id != task.id;
    }
    ShortLogConverse(t, longer);
  }

  lemma ShortLog(s: Store, log: seq<Task>)
    requires HoldsEndOf(s, log) && |log| <= s.capacity
    ensures |s.order| == |log| && forall id :: id in s.tasks <==> id in s.order
    ensures forall i :: 0 <= i < |log| ==>
      s.order[i] == log[i].id && log[i].id in s.tasks && s.tasks[log[i].id] == log[i]
  {
    assert Newest(log, s.capacity) == log;
  }

  lemma ShortLogConverse(s: Store, log: seq<Task>)
    requires |log| <= s.capacity && |s.order| == |log| && forall id :: id in s.tasks <==> id in s.order
    requires forall i :: 0 <= i < |log| ==>
      s.order[i] == log[i].id && log[i].id in s.tasks && s.tasks[log[i].id] == log[i]
    ensures HoldsEndOf(s, log)
  {
    assert Newest(log, s.capacity) == log;
  }

  lemma RollKeepsEnd(s: Store, log: seq<Task>, task: Task)
    requires |s.order| == s.capacity >= 1 && HoldsEndOf(s, log) && Distinct(s.order) && task.id !in s.order
    ensures HoldsEndOf(s.(order := s.order[1..] + [task.id],
                          tasks := (s.tasks - {s.order[0]})[task.id := task]), log + [task])
  {
    var t := s.(order := s.order[1..] + [task.id], tasks := (s.tasks - {s.order[0]})[task.id := task]);
    var end, end' := Newest(log, s.capacity), Newest(log + [task], s.capacity);
    hide Newest;
    NewestOneMore(log, task, s.capacity);
    RolledMembers(s, task);
    forall i | 0 <= i < |end'|
      ensures t.order[i] == end'[i].id && end'[i].id in t.tasks && t.tasks[end'[i].id] == end'[i]
    {
      if i < |end| - 1 {
        assert s.order[i + 1] == end[i + 1].id && s.order[i + 1] != s.order[0];
      }
    }
  }

  lemma RolledMembers(s: Store, task: Task)
    requires s.order != [] && Distinct(s.order) && forall id :: id in s.tasks <==> id in s.order
    ensures forall id :: id in (s.tasks - {s.order[0]})[task.id := task] <==> id in s.order[1..] + [task.id]
  {
    assert s.order == [s.order[0]] + s.order[1..];
    forall id | id in s.order[1..] ensures id != s.order[0] {
      var i :| 0 <= i < |s.order[1..]| && s.order[1..][i] == id;
      assert s.order[i + 1] == id;
    }
  }

  lemma InsertKeepsEnd(s: Store, log: seq<Task>, task: Task)
    requires s.capacity >= 1 && DistinctIds(log + [task]) && HoldsEndOf(s, log)
    ensures HoldsEndOf(Insert(s, task), log + [task])
  {
    hide HoldsEndOf, DistinctIds, Distinct;
    DistinctFront(log, task);
    OrderIsDistinct(s, log);
    FreshToStore(s, log, task);
    OrderFits(s, log);
    if |s.order| < s.capacity {
      AppendKeepsEnd(s, log, task);
    } else {
      RollKeepsEnd(s, log, task);
    }
  }

  lemma OrderFits(s: Store, log: seq<Task>)
    requires HoldsEndOf(s, log)
    ensures |s.order| <= s.capacity
  {
  }

  lemma DistinctFront(log: seq<Task>, task: Task)
    requires DistinctIds(log + [task])
    ensures DistinctIds(log)
  {
    assert forall i :: 0 <= i < |log| ==> (log + [task])[i] == log[i];
  }

  function InsertAll(s: Store, log: seq<Task>): (t: Store)
    requires s.capacity >= 1
    ensures t.capacity == s.capacity
    decreases |log|
  {
    if log == [] then s else Insert(InsertAll(s, log[..|log| - 1]), log[|log| - 1])
  }

  lemma NothingHeld(capacity: nat)
    ensures HoldsEndOf(Store([], map[], capacity), [])
  {
  }

  /** After any insertions with fresh ids the store holds exactly the last `capacity` tasks. */
  lemma {:induction false} StoreRefinesLog(capacity: nat, log: seq<Task>)
    requires capacity >= 1 && DistinctIds(log)
    ensures HoldsEndOf(InsertAll(Store([], map[], capacity), log), log)
    decreases |log|
  {
    if log == [] {
      NothingHeld(capacity);
    } else {
      var before, last := log[..|log| - 1], log[|log| - 1];
      assert before + [last] == log;
      InsertedLast(capacity, before, last);
      DistinctFront(before, last);
      hide *;
      StoreRefinesLog(capacity, before);
      InsertKeepsEnd(InsertAll(Store([], map[], capacity), before), before, last);
    }
  }

  lemma InsertedLast(capacity: nat, before: seq<Task>, last: Task)
    requires capacity >= 1
    ensures var s := Store([], map[], capacity);
      InsertAll(s, before + [last]) == Insert(InsertAll(s, before), last)
  {
    hide Insert;
    assert (before + [last])[..|before|] == before;
  }

  lemma {:induction false} PresentAll(tasks: map<string, Task>, ids: seq<string>)
    requires forall i :: 0 <= i < |ids| ==> ids[i] in tasks
    ensures |Present(tasks, ids)| == |ids|
    ensures forall i :: 0 <= i < |ids| ==> Present(tasks, ids)[i] == tasks[ids[i]]
  {
    if ids != [] { PresentAll(tasks, ids[1..]); }
  }

  /** Listing gives the newest tasks first. */
  lemma ListIsNewestFirst(s: Store, log: seq<Task>, limit: nat)
    requires HoldsEndOf(s, log)
    ensures List(s, limit) == Reversed(Newest(log, Min(limit, s.capacity)))
  {
    NewestIsBounded(s, log);
    hide Newest, HoldsEndOf, Reversed;
    var n := Min(limit, |s.order|);
    var ids := Reversed(s.order)[..n];
    var newest := Reversed(Newest(log, Min(limit, s.capacity)));
    assert |newest| == n;
    forall i | 0 <= i < n ensures ids[i] in s.tasks && s.tasks[ids[i]] == newest[i] {
      ListedAt(s, log, limit, i);
    }
    PresentAll(s.tasks, ids);
  }

  lemma NewestIsBounded(s: Store, log: seq<Task>)
    requires HoldsEndOf(s, log)
    ensures |s.order| == Min(s.capacity, |log|)
  {
  }

  lemma ListedAt(s: Store, log: seq<Task>, limit: nat, i: nat)
    requires HoldsEndOf(s, log) && i < Min(limit, |s.order|)
    ensures var id := Reversed(s.order)[i]; id in s.tasks && s.tasks[id] == log[|log| - 1 - i]
    ensures Reversed(Newest(log, Min(limit, s.capacity)))[i] == log[|log| - 1 - i]
  {
    hide Newest, Reversed;
    var k := |s.order| - 1 - i;
    assert Newest(log, s.capacity)[k] == log[|log| - 1 - i];
    assert s.order[k] == Newest(log, s.capacity)[k].id;
  }
}
