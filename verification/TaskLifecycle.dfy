/**
The life of A2A tasks under concurrency.  A create draws its id first and inserts its task later, under
the store's write lock; a worker runs process_task in two steps under that lock, and a cancel is one.
Draws, insertions with their evictions, workers and cancels interleave in any order.
*/
module TaskLifecycle {
  import opened Sequences
  import opened TaskIds
  import opened TaskStores
  import opened Wrappers

  /** Where a create and the worker it spawns stand. */
  datatype Stage = Drawn | Queued | Working | Done

  /** ids[n] and stages[n] belong to the n-th id ever drawn, `created` lists the ids in the order in which
      their tasks were inserted, and `answers` every reply to a cancel request, oldest first. */
  datatype Server = Server(
    store: Store,
    ids: seq<string>,
    stages: seq<Stage>,
    created: seq<string>,
    answers: seq<(string, nat)>)

  datatype Step =
    | DrawId(now: nat)
    | InsertTask(n: nat, now: nat, message: string, from: Option<string>)
    | StartWork(n: nat)
    | FinishWork(n: nat, result: Result<string, string>, now: nat)
    | CancelTask(id: string, now: nat)

  function NewTask(id: string, now: nat, message: string, from: Option<string>): Task {
    Task(id, Pending, message, None, now, None, from)
  }

  /** The n-th create inserts its task. */
  function Inserted(s: Server, n: nat, task: Task): Server
    requires s.store.capacity >= 1 && n < |s.stages|
  {
    s.(store := Insert(s.store, task), stages := s.stages[n := Queued], created := s.created + [task.id])
  }

  function Next(s: Server, step: Step): Option<Server>
    requires s.store.capacity >= 1 && |s.ids| == |s.stages|
  {
    match step
    case DrawId(now) => Some(s.(ids := s.ids + [TaskId(now, |s.ids|)], stages := s.stages + [Drawn]))
    case InsertTask(n, now, message, from) =>
      if n >= |s.ids| || s.stages[n] != Drawn then None
      else Some(Inserted(s, n, NewTask(s.ids[n], now, message, from)))
    case StartWork(n) =>
      if n >= |s.ids| || s.stages[n] != Queued then None
      else
        var (store, goOn) := Start(s.store, s.ids[n]);
        Some(s.(store := store, stages := s.stages[n := if goOn then Working else Done]))
    case FinishWork(n, result, now) =>
      if n >= |s.ids| || s.stages[n] != Working then None
      else Some(s.(store := Finish(s.store, s.ids[n], result, now), stages := s.stages[n := Done]))
    case CancelTask(id, now) =>
      var (store, status) := Cancel(s.store, id, now);
      Some(s.(store := store, answers := s.answers + [(id, status)]))
  }

  // ---------- the invariant ----------

  /** The response and the completion time are set exactly in the states that call for them. */
  predicate FieldsMatchState(t: Task) {
    && (t.completedAt.Some? <==> t.state.Terminal())
    && (t.response.Some? <==> t.state.Completed? || t.state.Failed?)
  }

  predicate StateMatchesStage(t: Task, stage: Stage) {
    match stage
    case Drawn => false
    case Queued => t.state.Pending? || t.state.Cancelled?
    case Working => t.state.Running? || t.state.Cancelled?
    case Done => t.state.Terminal()
  }

  predicate IdsNumbered(s: Server) {
    |s.ids| == |s.stages| && Distinct(s.ids)
  }

  /** Every id was made by generate_task_id, with the number of ids drawn before it as its count. */
  ghost predicate IdsGenerated(s: Server) {
    forall i :: 0 <= i < |s.ids| ==> Generated(s.ids[i], i)
  }

  ghost predicate Generated(id: string, count: nat) {
    exists now :: id == TaskId(now, count)
  }

  /** Each drawn id is inserted at most once, and the store's order is the end of the insertions. */
  ghost predicate CreationConsistent(s: Server)
    requires |s.ids| == |s.stages|
  {
    && Distinct(s.created)
    && (forall n :: 0 <= n < |s.ids| ==> (s.ids[n] in s.created <==> s.stages[n] != Drawn))
    && (forall id :: id in s.created ==> id in s.ids)
    && s.store.order == Newest(s.created, s.store.capacity)
  }

  ghost predicate StoreConsistent(s: Server) {
    && s.store.capacity >= 1
    && (forall id :: id in s.store.tasks <==> id in s.store.order)
    && (forall id :: id in s.store.tasks ==> FieldsMatchState(s.store.tasks[id]))
  }

  predicate StagesConsistent(s: Server)
    requires |s.ids| == |s.stages|
  {
    forall n :: 0 <= n < |s.ids| && s.ids[n] in s.store.tasks ==>
      StateMatchesStage(s.store.tasks[s.ids[n]], s.stages[n])
  }

  /** A task whose cancel was answered 200 is cancelled, as long as the store still has it. */
  ghost predicate AnswersConsistent(s: Server) {
    forall id :: (id, 200) in s.answers ==>
      id in s.created && (id in s.store.tasks ==> s.store.tasks[id].state.Cancelled?)
  }

  ghost predicate Inv(s: Server) {
    && IdsNumbered(s) && IdsGenerated(s) && CreationConsistent(s)
    && StoreConsistent(s) && StagesConsistent(s) && AnswersConsistent(s)
  }

  function Initial(capacity: nat): Server { Server(Store([], map[], capacity), [], [], [], []) }

  // ---------- drawing an id ----------

  lemma {:induction false} NextIdIsFresh(s: Server, now: nat)
    requires IdsGenerated(s)
    ensures TaskId(now, |s.ids|) !in s.ids
  {
    forall i | 0 <= i < |s.ids| ensures s.ids[i] != TaskId(now, |s.ids|) {
      var earlier :| s.ids[i] == TaskId(earlier, i);
      if s.ids[i] == TaskId(now, |s.ids|) { TaskIdInjective(earlier, i, now, |s.ids|); }
    }
  }

  lemma {:induction false} OrderIsCreated(s: Server)
    requires IdsNumbered(s) && CreationConsistent(s) && StoreConsistent(s)
    ensures Distinct(s.store.order) && forall id :: id in s.store.tasks ==> id in s.created && id in s.ids
  {
    hide Newest, FieldsMatchState;
    var k := |s.created| - |s.store.order|;
    forall id | id in s.store.order ensures id in s.created {
      var i :| 0 <= i < |s.store.order| && s.store.order[i] == id;
      assert s.created[k + i] == id;
    }
    forall i, j | 0 <= i < j < |s.store.order| ensures s.store.order[i] != s.store.order[j] {
      assert s.created[k + i] == s.store.order[i] && s.created[k + j] == s.store.order[j];
    }
  }

  lemma {:induction false} DrawKeepsIds(s: Server, t: Server, id: string)
    requires IdsNumbered(s) && IdsGenerated(s) && id !in s.ids && Generated(id, |s.ids|)
    requires t.ids == s.ids + [id] && t.stages == s.stages + [Drawn]
    ensures IdsNumbered(t) && IdsGenerated(t)
  {
    hide Generated;
    assert forall i :: 0 <= i < |s.ids| ==> t.ids[i] == s.ids[i];
  }

  lemma {:induction false} DrawKeepsTasks(s: Server, t: Server, id: string)
    requires IdsNumbered(s) && CreationConsistent(s) && StoreConsistent(s) && StagesConsistent(s) && id !in s.ids
    requires t == s.(ids := s.ids + [id], stages := s.stages + [Drawn])
    ensures CreationConsistent(t) && StagesConsistent(t)
  {
    OrderIsCreated(s);
    hide StateMatchesStage, StoreConsistent, Newest, Distinct;
    assert forall i :: 0 <= i < |s.ids| ==> t.ids[i] == s.ids[i] && t.stages[i] == s.stages[i];
  }

  lemma {:induction false} DrawKeepsInv(s: Server, step: Step)
    requires Inv(s) && step.DrawId?
    ensures Inv(Next(s, step).value)
  {
    var id := TaskId(step.now, |s.ids|);
    NextIdIsFresh(s, step.now);
    assert Generated(id, |s.ids|);
    hide TaskId, Generated, IdsGenerated, CreationConsistent, StagesConsistent;
    DrawKeepsIds(s, Next(s, step).value, id);
    DrawKeepsTasks(s, Next(s, step).value, id);
  }

  // ---------- inserting a task ----------

  /** Inserting a fresh task evicts some and adds one; nothing else about the store changes. */
  lemma {:induction false} InsertFresh(s: Store, task: Task)
    requires s.capacity >= 1 && Distinct(s.order) && task.id !in s.order
    requires forall id :: id in s.tasks <==> id in s.order
    ensures var t := Insert(s, task);
      && (forall id :: id in t.tasks <==> id in t.order)
      && task.id in t.tasks && t.tasks[task.id] == task
      && forall id :: id in t.tasks && id != task.id ==> id in s.tasks && t.tasks[id] == s.tasks[id]
    decreases |s.order|
  {
    if |s.order| >= s.capacity {
      var e := Evict(s);
      forall id ensures id in e.tasks <==> id in e.order {
        if id in s.order {
          var i :| 0 <= i < |s.order| && s.order[i] == id;
          assert i > 0 ==> e.order[i - 1] == id && id != s.order[0];
        }
      }
      InsertFresh(e, task);
    } else {
      var longer := s.order + [task.id];
      assert forall id :: id in longer <==> id in s.order || id == task.id;
    }
  }

  lemma {:induction false} InsertKeepsOrder(s: Store, task: Task, created: seq<string>)
    requires s.capacity >= 1 && s.order == Newest(created, s.capacity)
    ensures Insert(s, task).order == Newest(created + [task.id], s.capacity)
  {
    NewestOneMore(created, task.id, s.capacity);
    hide Newest;
    if |s.order| >= s.capacity { assert Insert(s, task).order == Evict(s).order + [task.id]; }
  }

  /** What the insertion of the n-th create's task means for ids, stages and the store. */
  ghost predicate Inserts(s: Server, t: Server, n: nat, task: Task) {
    && n < |s.ids| == |s.stages| && s.stages[n] == Drawn && task.id == s.ids[n]
    && t.ids == s.ids && t.stages == s.stages[n := Queued] && t.created == s.created + [task.id]
    && t.answers == s.answers && t.store.capacity == s.store.capacity
    && task.id in t.store.tasks && t.store.tasks[task.id] == task
    && (forall id :: id in t.store.tasks <==> id in t.store.order)
    && (forall id :: id in t.store.tasks && id != task.id ==>
          id in s.store.tasks && t.store.tasks[id] == s.store.tasks[id])
  }

  lemma {:induction false} InsertingKeepsCreation(s: Server, t: Server, n: nat, task: Task)
    requires Inserts(s, t, n, task) && IdsNumbered(s) && CreationConsistent(s)
    requires t.store.order == Newest(t.created, t.store.capacity)
    ensures IdsNumbered(t) && CreationConsistent(t)
  {
    hide Newest;
    assert task.id !in s.created;
    assert forall i :: 0 <= i < |s.created| ==> t.created[i] == s.created[i];
    assert forall id :: id in t.created <==> id in s.created || id == task.id;
  }

  lemma {:induction false} InsertingKeepsTasks(s: Server, t: Server, n: nat, task: Task)
    requires Inserts(s, t, n, task) && IdsNumbered(s) && StoreConsistent(s) && StagesConsistent(s)
    requires FieldsMatchState(task) && task.state == Pending
    ensures StoreConsistent(t) && StagesConsistent(t)
  {
    hide FieldsMatchState;
    forall m | 0 <= m < |t.ids| && t.ids[m] in t.store.tasks
      ensures StateMatchesStage(t.store.tasks[t.ids[m]], t.stages[m])
    {
      if m != n { assert t.ids[m] != task.id; }
    }
  }

  lemma {:induction false} InsertingKeepsAnswers(s: Server, t: Server, n: nat, task: Task)
    requires Inserts(s, t, n, task) && CreationConsistent(s) && AnswersConsistent(s)
    ensures AnswersConsistent(t)
  {
    hide Newest;
    assert task.id !in s.created;
  }

  lemma {:induction false} DrawnIsFresh(s: Server, n: nat)
    requires IdsNumbered(s) && CreationConsistent(s) && StoreConsistent(s) && n < |s.ids| && s.stages[n] == Drawn
    ensures s.ids[n] !in s.created && s.ids[n] !in s.store.order && Distinct(s.store.order)
    ensures s.store.capacity >= 1 && s.store.order == Newest(s.created, s.store.capacity)
    ensures forall id :: id in s.store.tasks <==> id in s.store.order
  {
    OrderIsCreated(s);
    hide Newest, Distinct;
  }

  lemma {:induction false} InsertionHappens(s: Server, n: nat, task: Task)
    requires |s.ids| == |s.stages| && IdsNumbered(s) && CreationConsistent(s) && StoreConsistent(s)
    requires n < |s.ids| && s.store.capacity >= 1 && s.stages[n] == Drawn && task.id == s.ids[n]
    ensures var t := Inserted(s, n, task);
      Inserts(s, t, n, task) && t.store.order == Newest(t.created, t.store.capacity)
  {
    hide Insert, Newest, Distinct, CreationConsistent, StoreConsistent;
    DrawnIsFresh(s, n);
    InsertKeepsOrder(s.store, task, s.created);
    InsertFresh(s.store, task);
  }

  lemma {:induction false} InsertedKeepsInv(s: Server, n: nat, task: Task)
    requires Inv(s) && n < |s.ids| == |s.stages| && s.stages[n] == Drawn && task.id == s.ids[n]
    requires FieldsMatchState(task) && task.state == Pending && s.store.capacity >= 1
    ensures Inv(Inserted(s, n, task))
  {
    hide IdsNumbered, IdsGenerated, CreationConsistent, StoreConsistent, StagesConsistent, AnswersConsistent;
    hide Insert, FieldsMatchState, Inserts;
    var t := Inserted(s, n, task);
    InsertionHappens(s, n, task);
    GeneratedByIds(s, t);
    InsertingKeepsCreation(s, t, n, task);
    InsertingKeepsTasks(s, t, n, task);
    InsertingKeepsAnswers(s, t, n, task);
  }

  lemma {:induction false} GeneratedByIds(s: Server, t: Server)
    requires IdsGenerated(s) && t.ids == s.ids
    ensures IdsGenerated(t)
  {
    hide Generated;
  }

  lemma {:induction false} InsertKeepsInv(s: Server, step: Step)
    requires Inv(s) && step.InsertTask? && Next(s, step).Some?
    ensures Inv(Next(s, step).value)
  {
    hide IdsGenerated, CreationConsistent, StagesConsistent, AnswersConsistent, Inserted;
    InsertedKeepsInv(s, step.n, NewTask(s.ids[step.n], step.now, step.message, step.from));
  }

  // ---------- workers and cancels ----------

  /** A step that leaves ids, creations and keys alone and changes at most the task of one id. */
  ghost predicate TouchesOnly(s: Server, t: Server, id: string) {
    && t.ids == s.ids && t.created == s.created && |t.stages| == |s.stages|
    && (forall n :: 0 <= n < |s.stages| ==> (t.stages[n] == Drawn <==> s.stages[n] == Drawn))
    && t.store.capacity == s.store.capacity && t.store.order == s.store.order
    && t.store.tasks.Keys == s.store.tasks.Keys
    && forall other :: other in s.store.tasks && other != id ==> t.store.tasks[other] == s.store.tasks[other]
  }

  lemma {:induction false} StoredFieldsMatch(s: Server, id: string)
    requires StoreConsistent(s)
    ensures id in s.store.tasks ==> FieldsMatchState(s.store.tasks[id])
    ensures s.store.capacity >= 1
  {
  }

  lemma {:induction false} TouchKeepsStore(s: Server, t: Server, id: string)
    requires IdsNumbered(s) && IdsGenerated(s) && CreationConsistent(s) && StoreConsistent(s) && TouchesOnly(s, t, id)
    requires id in s.store.tasks ==> FieldsMatchState(t.store.tasks[id])
    ensures IdsNumbered(t) && IdsGenerated(t) && CreationConsistent(t) && StoreConsistent(t)
  {
    hide FieldsMatchState, Generated, Newest;
  }

  /** Only a task that is not cancelled is changed by its worker. */
  lemma {:induction false} TouchKeepsAnswers(s: Server, t: Server, id: string)
    requires AnswersConsistent(s) && TouchesOnly(s, t, id) && t.answers == s.answers
    requires id in s.store.tasks ==> s.store.tasks[id].state.Cancelled? ==> t.store.tasks[id].state.Cancelled?
    ensures AnswersConsistent(t)
  {
  }

  lemma {:induction false} WorkKeepsInv(s: Server, step: Step)
    requires Inv(s) && (step.StartWork? || step.FinishWork?) && Next(s, step).Some?
    ensures Inv(Next(s, step).value)
  {
    hide TaskId, IdsGenerated, CreationConsistent, StoreConsistent, AnswersConsistent;
    StoredFieldsMatch(s, s.ids[step.n]);
    var t, id := Next(s, step).value, s.ids[step.n];
    assert TouchesOnly(s, t, id);
    TouchKeepsStore(s, t, id);
    TouchKeepsAnswers(s, t, id);
  }

  lemma {:induction false} CancelKeepsAnswers(s: Server, t: Server, id: string, now: nat)
    requires IdsNumbered(s) && CreationConsistent(s) && StoreConsistent(s) && AnswersConsistent(s)
    requires TouchesOnly(s, t, id)
    requires var (store, status) := Cancel(s.store, id, now);
      t.store == store && t.answers == s.answers + [(id, status)]
    ensures AnswersConsistent(t)
  {
    OrderIsCreated(s);
    hide CreationConsistent, StoreConsistent;
  }

  lemma {:induction false} CancelKeepsInv(s: Server, step: Step)
    requires Inv(s) && step.CancelTask?
    ensures Inv(Next(s, step).value)
  {
    hide TaskId, IdsGenerated, CreationConsistent, StoreConsistent, AnswersConsistent;
    StoredFieldsMatch(s, step.id);
    var t := Next(s, step).value;
    assert TouchesOnly(s, t, step.id);
    TouchKeepsStore(s, t, step.id);
    CancelKeepsAnswers(s, t, step.id, step.now);
  }

  lemma {:induction false} NextKeepsInv(s: Server, step: Step)
    requires Inv(s) && Next(s, step).Some?
    ensures Inv(Next(s, step).value)
  {
    match step
    case DrawId(_) => DrawKeepsInv(s, step);
    case InsertTask(_, _, _, _) => InsertKeepsInv(s, step);
    case CancelTask(_, _) => CancelKeepsInv(s, step);
    case _ => WorkKeepsInv(s, step);
  }

  function Execute(s: Server, steps: seq<Step>): (t: Option<Server>)
    requires s.store.capacity >= 1 && |s.ids| == |s.stages|
    ensures t.Some? ==> t.value.store.capacity == s.store.capacity && |t.value.ids| == |t.value.stages|
    decreases |steps|
  {
    if steps == [] then Some(s)
    else
      var next := Next(s, steps[0]);
      NextKeepsShape(s, steps[0]);
      if next.None? then None else Execute(next.value, steps[1..])
  }

  lemma {:induction false} NextKeepsShape(s: Server, step: Step)
    requires s.store.capacity >= 1 && |s.ids| == |s.stages|
    ensures Next(s, step).Some? ==>
      && Next(s, step).value.store.capacity == s.store.capacity
      && |Next(s, step).value.ids| == |Next(s, step).value.stages|
  {
  }
}
