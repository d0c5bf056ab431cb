/** What a client of the A2A server can rely on over every interleaving, however long. */
module TaskTheorems {
  import opened Sequences
  import opened TaskIds
  import opened TaskLifecycle
  import opened TaskStores
  import opened Wrappers

  lemma InitialInv(capacity: nat)
    requires capacity >= 1
    ensures Inv(Initial(capacity))
  {
  }

  lemma {:induction false} RunKeepsInv(s: Server, steps: seq<Step>)
    requires Inv(s) && Execute(s, steps).Some?
    ensures Inv(Execute(s, steps).value)
    decreases |steps|
  {
    if steps != [] {
      NextKeepsInv(s, steps[0]);
      RunKeepsInv(Next(s, steps[0]).value, steps[1..]);
    }
  }

  /** In every reachable state each task's fields match its state, and ids are unique. */
  lemma ReachableTasks(capacity: nat, steps: seq<Step>, s: Server, id: string)
    requires capacity >= 1 && Execute(Initial(capacity), steps) == Some(s) && id in s.store.tasks
    ensures s.store.tasks[id].completedAt.Some? <==> s.store.tasks[id].state.Terminal()
    ensures s.store.tasks[id].response.Some? <==> s.store.tasks[id].state in {Completed, Failed}
  {
    InitialInv(capacity);
    RunKeepsInv(Initial(capacity), steps);
  }

  /** Over every run the store has exactly the last `capacity` tasks inserted, and lists the newest ones,
      the latest first. */
  lemma ReachableStore(capacity: nat, steps: seq<Step>, s: Server, limit: nat)
    requires capacity >= 1 && Execute(Initial(capacity), steps) == Some(s)
    ensures s.store.capacity == capacity && s.store.order == Newest(s.created, capacity) && Distinct(s.created)
    ensures forall id :: id in s.store.tasks <==> id in s.store.order
    ensures var listed, ids := List(s.store, limit), Reversed(Newest(s.created, Min(limit, capacity)));
      |listed| == |ids| && forall i :: 0 <= i < |ids| ==> ids[i] in s.store.tasks && listed[i] == s.store.tasks[ids[i]]
  {
    InitialInv(capacity);
    RunKeepsInv(Initial(capacity), steps);
    hide Execute, IdsNumbered, IdsGenerated, StagesConsistent, AnswersConsistent, List, Newest, Reversed;
    ListsNewest(s, limit);
    NewestIsStored(s.store, s.created, Min(limit, capacity));
    PresentAll(s.store.tasks, Reversed(Newest(s.created, Min(limit, capacity))));
  }

  lemma ListsNewest(s: Server, limit: nat)
    requires s.store.order == Newest(s.created, s.store.capacity)
    ensures List(s.store, limit) == Present(s.store.tasks, Reversed(Newest(s.created, Min(limit, s.store.capacity))))
  {
    hide Newest, Reversed, Present;
    var n := Min(limit, |s.store.order|);
    var ids, newest := Reversed(s.store.order)[..n], Newest(s.created, Min(limit, s.store.capacity));
    assert |newest| == n;
    forall i | 0 <= i < n ensures ids[i] == Reversed(newest)[i] {
      assert ids[i] == s.store.order[|s.store.order| - 1 - i] == s.created[|s.created| - 1 - i];
      assert Reversed(newest)[i] == newest[n - 1 - i] == s.created[|s.created| - 1 - i];
    }
    assert ids == Reversed(newest);
  }

  lemma NewestIsStored(store: Store, created: seq<string>, n: nat)
    requires store.order == Newest(created, store.capacity) && n <= store.capacity
    requires forall id :: id in store.tasks <==> id in store.order
    ensures var ids := Reversed(Newest(created, n)); forall i :: 0 <= i < |ids| ==> ids[i] in store.tasks
  {
    hide Newest, Reversed;
    var ids, newest := Reversed(Newest(created, n)), Newest(created, n);
    forall i | 0 <= i < |ids| ensures ids[i] in store.tasks {
      assert ids[i] == newest[|newest| - 1 - i] == store.order[|store.order| - 1 - i];
    }
  }

  // ---------- eviction is for good ----------

  /** A step changes a task that was created before only in the store, and never brings one back. */
  lemma StepNeverRestores(s: Server, step: Step, id: string)
    requires Inv(s) && Next(s, step).Some? && id in s.created
    ensures var t := Next(s, step).value;
      && id in t.created
      && (id in t.store.tasks ==> id in s.store.tasks)
      && (step.InsertTask? && id in t.store.tasks ==> t.store.tasks[id] == s.store.tasks[id])
  {
    if step.InsertTask? {
      hide IdsGenerated, StagesConsistent, AnswersConsistent, Inserted, Newest;
      var task := NewTask(s.ids[step.n], step.now, step.message, step.from);
      InsertionHappens(s, step.n, task);
      DrawnIsFresh(s, step.n);
    }
  }

  // ---------- terminal states are final ----------

  /** One step leaves a terminal task as it is, or evicts it. */
  lemma TerminalStep(s: Server, step: Step, id: string)
    requires Inv(s) && Next(s, step).Some?
    requires id in s.store.tasks && s.store.tasks[id].state.Terminal()
    ensures var t := Next(s, step).value;
      id in t.store.tasks ==> t.store.tasks[id] == s.store.tasks[id]
  {
    if step.InsertTask? {
      OrderIsCreated(s);
      StepNeverRestores(s, step, id);
    } else {
      TerminalWork(s, step, id);
    }
  }

  /** No worker and no cancel changes a terminal task. */
  lemma TerminalWork(s: Server, step: Step, id: string)
    requires Inv(s) && Next(s, step).Some? && !step.InsertTask?
    requires id in s.store.tasks && s.store.tasks[id].state.Terminal()
    ensures var t := Next(s, step).value;
      id in t.store.tasks ==> t.store.tasks[id] == s.store.tasks[id]
  {
    hide IdsNumbered, IdsGenerated, CreationConsistent, StoreConsistent, AnswersConsistent, Inserted, TaskId;
  }

  lemma {:induction false} EvictedStaysOut(s: Server, steps: seq<Step>, id: string)
    requires Inv(s) && Execute(s, steps).Some? && id in s.created && id !in s.store.tasks
    ensures id !in Execute(s, steps).value.store.tasks
    decreases |steps|
  {
    if steps != [] {
      StepNeverRestores(s, steps[0], id);
      NextKeepsInv(s, steps[0]);
      EvictedStaysOut(Next(s, steps[0]).value, steps[1..], id);
    }
  }

  /** A task that has completed, failed or been cancelled never changes again; at most it is evicted. */
  lemma {:induction false} TerminalIsFinal(s: Server, steps: seq<Step>, id: string)
    requires Inv(s) && Execute(s, steps).Some?
    requires id in s.store.tasks && s.store.tasks[id].state.Terminal()
    ensures var t := Execute(s, steps).value;
      id in t.store.tasks ==> t.store.tasks[id] == s.store.tasks[id]
    decreases |steps|
  {
    if steps != [] {
      var next := Next(s, steps[0]).value;
      TerminalStep(s, steps[0], id);
      OrderIsCreated(s);
      StepNeverRestores(s, steps[0], id);
      NextKeepsInv(s, steps[0]);
      if id in next.store.tasks {
        TerminalIsFinal(next, steps[1..], id);
      } else {
        EvictedStaysOut(next, steps[1..], id);
      }
    }
  }

  // ---------- cancel answers ----------

  /** How often a cancel of `id` was answered 200. */
  function Successes(answers: seq<(string, nat)>, id: string): nat {
    if answers == [] then 0
    else Successes(answers[..|answers| - 1], id) + if answers[|answers| - 1] == (id, 200) then 1 else 0
  }

  lemma {:induction false} NoSuccess(answers: seq<(string, nat)>, id: string)
    ensures Successes(answers, id) == 0 <==> (id, 200) !in answers
  {
    if answers != [] {
      NoSuccess(answers[..|answers| - 1], id);
      assert answers == answers[..|answers| - 1] + [answers[|answers| - 1]];
    }
  }

  lemma StepAddsFirstSuccess(s: Server, step: Step, id: string)
    requires Inv(s) && Next(s, step).Some? && Successes(s.answers, id) <= 1
    ensures Successes(Next(s, step).value.answers, id) <= 1
  {
    NoSuccess(s.answers, id);
    if step.CancelTask? {
      var t := Next(s, step).value;
      assert t.answers[..|s.answers|] == s.answers;
    }
  }

  lemma {:induction false} RunAddsFirstSuccess(s: Server, steps: seq<Step>, id: string)
    requires Inv(s) && Execute(s, steps).Some? && Successes(s.answers, id) <= 1
    ensures Successes(Execute(s, steps).value.answers, id) <= 1
    decreases |steps|
  {
    if steps != [] {
      StepAddsFirstSuccess(s, steps[0], id);
      NextKeepsInv(s, steps[0]);
      RunAddsFirstSuccess(Next(s, steps[0]).value, steps[1..], id);
    }
  }

  /** Cancelling answers 200 at most once per task, whatever else happens in between. */
  lemma CancelSucceedsAtMostOnce(capacity: nat, steps: seq<Step>, id: string)
    requires capacity >= 1 && Execute(Initial(capacity), steps).Some?
    ensures Successes(Execute(Initial(capacity), steps).value.answers, id) <= 1
  {
    InitialInv(capacity);
    RunAddsFirstSuccess(Initial(capacity), steps, id);
  }

  lemma {:induction false} FinishedIsNotCancelledLater(s: Server, steps: seq<Step>, id: string)
    requires Inv(s) && Execute(s, steps).Some? && id in s.created && (id, 200) !in s.answers
    requires id in s.store.tasks ==> s.store.tasks[id].state in {Completed, Failed}
    ensures (id, 200) !in Execute(s, steps).value.answers
    decreases |steps|
  {
    if steps != [] {
      var next := Next(s, steps[0]).value;
      StepNeverRestores(s, steps[0], id);
      NextKeepsInv(s, steps[0]);
      if id in next.store.tasks { TerminalStep(s, steps[0], id); }
      FinishedIsNotCancelledLater(next, steps[1..], id);
    }
  }

  /** A task seen completed or failed at any time is never answered 200 to a cancel, before or after. */
  lemma FinishedIsNeverCancelled(capacity: nat, before: seq<Step>, s: Server, after: seq<Step>, t: Server, id: string)
    requires capacity >= 1 && Execute(Initial(capacity), before) == Some(s) && Execute(s, after) == Some(t)
    requires id in s.store.tasks && s.store.tasks[id].state in {Completed, Failed}
    ensures (id, 200) !in t.answers
  {
    InitialInv(capacity);
    RunKeepsInv(Initial(capacity), before);
    OrderIsCreated(s);
    FinishedIsNotCancelledLater(s, after, id);
  }

  // ---------- what each step does to the task it is about ----------

  /** The server after a step is the one before it but for one stored task and the stage of one create. */
  predicate ChangesOnly(s: Server, t: Server, id: string, task: Task, stages: seq<Stage>) {
    && t.ids == s.ids && t.created == s.created && t.stages == stages
    && t.store == s.store.(tasks := s.store.tasks[id := task])
  }

  lemma ReachableInv(capacity: nat, steps: seq<Step>, s: Server)
    requires capacity >= 1 && Execute(Initial(capacity), steps) == Some(s)
    ensures Inv(s)
  {
    InitialInv(capacity);
    RunKeepsInv(Initial(capacity), steps);
  }

  /** A result completes the running task it belongs to, an error fails it with its text; a task that was
      cancelled or evicted meanwhile is left alone. */
  lemma ResultIsRecorded(capacity: nat, steps: seq<Step>, s: Server, n: nat, result: Result<string, string>, now: nat)
    requires capacity >= 1 && Execute(Initial(capacity), steps) == Some(s)
    requires n < |s.ids| == |s.stages| && s.stages[n] == Working
    ensures Next(s, FinishWork(n, result, now)).Some?
    ensures var id, t := s.ids[n], Next(s, FinishWork(n, result, now)).value;
      && t.answers == s.answers
      && (id in s.store.tasks ==> s.store.tasks[id].state in {Running, Cancelled})
      && (id in s.store.tasks && s.store.tasks[id].state == Running ==>
            var recorded := match result
              case Ok(r) =>
                s.store.tasks[id].(state := Completed, response := Some(r), completedAt := Some(now))
              case Err(e) =>
                s.store.tasks[id].(state := Failed, response := Some("error: " + e), completedAt := Some(now));
            ChangesOnly(s, t, id, recorded, s.stages[n := Done]))
      && (id !in s.store.tasks || s.store.tasks[id].state == Cancelled ==> t == s.(stages := s.stages[n := Done]))
  {
    ReachableInv(capacity, steps, s);
    hide Execute, IdsNumbered, IdsGenerated, CreationConsistent, StoreConsistent, AnswersConsistent;
  }

  /** A queued task starts running; one that was cancelled first is never worked on. */
  lemma WorkStarts(capacity: nat, steps: seq<Step>, s: Server, n: nat)
    requires capacity >= 1 && Execute(Initial(capacity), steps) == Some(s)
    requires n < |s.ids| == |s.stages| && s.stages[n] == Queued
    ensures Next(s, StartWork(n)).Some?
    ensures var id, t := s.ids[n], Next(s, StartWork(n)).value;
      && t.answers == s.answers
      && (id in s.store.tasks ==> s.store.tasks[id].state in {Pending, Cancelled})
      && (id in s.store.tasks && s.store.tasks[id].state == Pending ==>
            ChangesOnly(s, t, id, s.store.tasks[id].(state := Running), s.stages[n := Working]))
      && (id in s.store.tasks && s.store.tasks[id].state == Cancelled ==> t == s.(stages := s.stages[n := Done]))
      && (id !in s.store.tasks ==> t == s.(stages := s.stages[n := Working]))
  {
    ReachableInv(capacity, steps, s);
    hide Execute, IdsNumbered, IdsGenerated, CreationConsistent, StoreConsistent, AnswersConsistent;
  }

  /** A cancel is answered 200 and cancels exactly the pending and running tasks; otherwise it answers 404
      or 409 and changes nothing. */
  lemma CancelIsExact(capacity: nat, steps: seq<Step>, s: Server, id: string, now: nat)
    requires capacity >= 1 && Execute(Initial(capacity), steps) == Some(s)
    ensures |s.ids| == |s.stages| && Next(s, CancelTask(id, now)).Some?
    ensures var t := Next(s, CancelTask(id, now)).value;
      && (id !in s.store.tasks ==> t == s.(answers := s.answers + [(id, 404)]))
      && (id in s.store.tasks && s.store.tasks[id].state in {Pending, Running} ==>
            && t.answers == s.answers + [(id, 200)]
            && ChangesOnly(s, t, id, s.store.tasks[id].(state := Cancelled, completedAt := Some(now)), s.stages))
      && (id in s.store.tasks && s.store.tasks[id].state in {Completed, Failed, Cancelled} ==>
            t == s.(answers := s.answers + [(id, 409)]))
  {
    ReachableInv(capacity, steps, s);
    hide Execute, IdsNumbered, IdsGenerated, CreationConsistent, StoreConsistent, AnswersConsistent;
  }

  /** The id drawn is `task-<seconds>-<ids drawn before>`, and no earlier one. */
  lemma DrawIsExact(capacity: nat, steps: seq<Step>, s: Server, now: nat)
    requires capacity >= 1 && Execute(Initial(capacity), steps) == Some(s)
    ensures |s.ids| == |s.stages|
    ensures var id := "task-" + Decimal(now) + "-" + Decimal(|s.ids|);
      id !in s.ids && Next(s, DrawId(now)) == Some(s.(ids := s.ids + [id], stages := s.stages + [Drawn]))
  {
    ReachableInv(capacity, steps, s);
    hide Execute, CreationConsistent, StoreConsistent, StagesConsistent, AnswersConsistent, Generated, Decimal;
    NextIdIsFresh(s, now);
  }

  /** The task inserted for an id is pending with nothing but what the create came with; it takes the
      place of the oldest if the store is full, and no other task changes. */
  lemma InsertIsExact(capacity: nat, steps: seq<Step>, s: Server, n: nat, now: nat, message: string,
                      from: Option<string>)
    requires capacity >= 1 && Execute(Initial(capacity), steps) == Some(s)
    requires n < |s.ids| == |s.stages| && s.stages[n] == Drawn
    ensures s.store.capacity == capacity && Next(s, InsertTask(n, now, message, from)).Some?
    ensures var id, t := s.ids[n], Next(s, InsertTask(n, now, message, from)).value;
      && id !in s.store.tasks && id in t.store.tasks
      && t.store.tasks[id] == Task(id, Pending, message, None, now, None, from)
      && t.ids == s.ids && t.answers == s.answers && t.stages == s.stages[n := Queued]
      && t.created == s.created + [id] && t.store.order == Newest(s.created + [id], capacity)
      && (forall other :: other in t.store.tasks <==> other in t.store.order)
      && forall other :: other in t.store.tasks && other != id ==>
           other in s.store.tasks && t.store.tasks[other] == s.store.tasks[other]
  {
    ReachableInv(capacity, steps, s);
    CapacityStays(Initial(capacity), steps);
    hide *;
    InsertStep(s, n, now, message, from);
  }

  lemma InsertStep(s: Server, n: nat, now: nat, message: string, from: Option<string>)
    requires Inv(s) && n < |s.ids| == |s.stages| && s.stages[n] == Drawn && s.store.capacity >= 1
    ensures Next(s, InsertTask(n, now, message, from)).Some?
    ensures var id, t := s.ids[n], Next(s, InsertTask(n, now, message, from)).value;
      && id !in s.store.tasks && id in t.store.tasks
      && t.store.tasks[id] == Task(id, Pending, message, None, now, None, from)
      && t.ids == s.ids && t.answers == s.answers && t.stages == s.stages[n := Queued]
      && t.created == s.created + [id] && t.store.order == Newest(s.created + [id], s.store.capacity)
      && (forall other :: other in t.store.tasks <==> other in t.store.order)
      && forall other :: other in t.store.tasks && other != id ==>
           other in s.store.tasks && t.store.tasks[other] == s.store.tasks[other]
  {
    hide IdsNumbered, IdsGenerated, CreationConsistent, StoreConsistent, StagesConsistent, AnswersConsistent;
    hide Insert, Newest, Distinct;
    DrawnIsFresh(s, n);
    InsertionHappens(s, n, NewTask(s.ids[n], now, message, from));
  }

  lemma CapacityStays(s: Server, steps: seq<Step>)
    requires s.store.capacity >= 1 && |s.ids| == |s.stages| && Execute(s, steps).Some?
    ensures Execute(s, steps).value.store.capacity == s.store.capacity
  {
  }
}
