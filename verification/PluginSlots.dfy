/**
PluginSlot as the class of the source: its methods make one atomic access at a time, and between any
two of them every other task may do anything the protocol lets it do.  Each method is proved to be a
run of the transition system, so that what is proved over runs holds of the code.
*/
module PluginSlots {
  import opened Plugins
  import opened Wrappers
  import opened SlotProtocol

  lemma ExecuteSnoc(s: Slot, run: seq<Step>, at: Slot, step: Step, t: Slot)
    requires Execute(s, run) == Some(at) && Next(at, step) == Some(t)
    ensures Execute(s, run + [step]) == Some(t)
  {
    ExecuteConcat(s, run, [step]);
    assert [step][1..] == [];
  }

  /** The task that is looking at the slot: caller number c, or the management operation. */
  datatype Actor = Caller(c: nat) | Operator
  {
    predicate Takes(step: Step) {
      if Operator? then step.Begin? || step.Manage? || step.Cancel? else step.OfCaller() && step.c == c
    }
  }

  /** What a task sees across steps that are not its own. */
  predicate Untouched(me: Actor, before: Slot, after: Slot) {
    match me
    case Caller(c) => c < |before.callers| <= |after.callers| && after.callers[c] == before.callers[c]
    case Operator => after.manager == before.manager && before.clock <= after.clock
  }

  lemma OthersLeaveAlone(me: Actor, s: Slot, step: Step)
    requires Inv(s) && !me.Takes(step) && Next(s, step).Some? && (me.Caller? ==> me.c < |s.callers|)
    ensures Untouched(me, s, Next(s, step).value)
  {
  }

  /** The steps of caller c in a run, and the operations begun in it. */
  function Own(c: nat, run: seq<Step>): seq<Step> {
    if run == [] then []
    else
      var last := run[|run| - 1];
      Own(c, run[..|run| - 1]) + if last.OfCaller() && last.c == c then [last] else []
  }

  function Begun(run: seq<Step>): seq<Operation> {
    if run == [] then []
    else Begun(run[..|run| - 1]) + if run[|run| - 1].Begin? then [run[|run| - 1].op] else []
  }

  /** How try_acquire goes on after its increment. */
  function Answer(c: nat, guard: bool): seq<Step> {
    if guard then [Recheck(c)] else [Recheck(c), BackOut(c)]
  }

  lemma OneMoreStep(run: seq<Step>, step: Step)
    ensures Begun(run + [step]) == Begun(run) + if step.Begin? then [step.op] else []
    ensures forall c :: Own(c, run + [step]) == Own(c, run) + if step.OfCaller() && step.c == c then [step] else []
  {
    assert (run + [step])[..|run|] == run;
  }

  /** Until its last stores an operation finds DRAINING, the old module, and the slot registered. */
  lemma MarkedUntilOver(s: Slot)
    requires Inv(s) && s.manager.Busy? && !s.manager.phase.Swapped? && !s.manager.phase.Retired?
    ensures s.state == Draining && s.registered && s.module_ == s.manager.before
  {
  }

  lemma QuietAfterZero(s: Slot)
    requires Inv(s) && s.manager.Busy? && s.manager.phase in {Swapped(false), Retired(false)}
    ensures NoGuard(s)
  {
  }

  class PluginSlot {
    const manifest: PluginManifest
    const limits: Limits
    var module_: Module
    var activeCalls: int
    var state: SlotState
    // The tasks around the slot, the clock they share, whether the registry lists the slot, and how
    // often a deadline forced a swap.
    var callers: seq<Caller>
    var manager: Manager
    var clock: nat
    var registered: bool
    var forcedSwaps: nat

    function View(): Slot
      reads this
    {
      Slot(state, activeCalls, module_, manifest, limits, callers, manager, clock, registered, forcedSwaps)
    }

    constructor (loaded: LoadedPlugin, now: nat)
      ensures View() == Fresh(loaded, now) && Inv(View())
      ensures state == Active && activeCalls == 0 && module_ == loaded.module_ && registered
      ensures manifest == loaded.manifest && limits == loaded.limits
    {
      manifest, module_, limits := loaded.manifest, loaded.module_, loaded.limits;
      activeCalls, state := 0, Active;
      callers, manager, clock, registered, forcedSwaps := [], Free(NotYet), now, true, 0;
    }

    /** One step of some other task. */
    method OtherStep(step: Step) returns (taken: bool)
      modifies this
      ensures taken <==> Next(old(View()), step).Some?
      ensures View() == if taken then Next(old(View()), step).value else old(View())
    {
      var next := Next(View(), step);
      taken := next.Some?;
      if taken {
        IdentityStep(View(), step);
        var t := next.value;
        module_, activeCalls, state, callers := t.module_, t.activeCalls, t.state, t.callers;
        manager, clock, registered, forcedSwaps := t.manager, t.clock, t.registered, t.forcedSwaps;
      }
    }

    /** Any number of steps of any tasks other than `me`, appended to the run so far. */
    method Interfere(me: Actor, ghost start: Slot, ghost past: seq<Step>) returns (ghost run: seq<Step>)
      requires Inv(View()) && (me.Caller? ==> me.c < |callers|)
      requires Execute(start, past) == Some(View())
      modifies this
      ensures Inv(View()) && Execute(start, run) == Some(View())
      ensures Untouched(me, old(View()), View())
      ensures if me.Operator? then Begun(run) == Begun(past) else Own(me.c, run) == Own(me.c, past)
    {
      hide Execute, Inv, Next, Own, Begun;
      run := past;
      var more: nat := *;
      while more > 0
        invariant Inv(View()) && Execute(start, run) == Some(View())
        invariant Untouched(me, old(View()), View())
        invariant if me.Operator? then Begun(run) == Begun(past) else Own(me.c, run) == Own(me.c, past)
      {
        var step: Step := *;
        if !me.Takes(step) {
          ghost var at := View();
          var taken := OtherStep(step);
          if taken {
            OthersLeaveAlone(me, at, step);
            NextKeepsInv(at, step);
            ExecuteSnoc(start, run, at, step, View());
            OneMoreStep(run, step);
            run := run + [step];
          }
        }
        more := more - 1;
      }
    }

    // ---------- the accesses of try_acquire ----------

    method LoadState(c: nat) returns (active: bool)
      requires c < |callers| && callers[c] == Idle
      modifies this`callers
      ensures Next(old(View()), CheckState(c)) == Some(View())
      ensures active == (state == Active) && callers == if active then old(callers)[c := Checked] else old(callers)
    {
      active := state == Active;
      if active { callers := callers[c := Checked]; }
    }

    method Increment(c: nat)
      requires c < |callers| && callers[c] == Checked
      modifies this`activeCalls, this`callers
      ensures Next(old(View()), FetchAdd(c)) == Some(View())
      ensures callers == old(callers)[c := Counted]
    {
      activeCalls, callers := activeCalls + 1, callers[c := Counted];
    }

    method LoadStateAgain(c: nat) returns (active: bool)
      requires c < |callers| && callers[c] == Counted
      modifies this`callers
      ensures Next(old(View()), Recheck(c)) == Some(View())
      ensures active == (state == Active)
      ensures callers == old(callers)[c := if active then Guarded(None) else BackingOut]
    {
      active := state == Active;
      callers := callers[c := if active then Guarded(None) else BackingOut];
    }

    method Decrement(c: nat)
      requires c < |callers| && (callers[c].BackingOut? || callers[c].Guarded?)
      modifies this`activeCalls, this`callers
      ensures Next(old(View()), if old(callers)[c].BackingOut? then BackOut(c) else DropGuard(c)) == Some(View())
      ensures callers == old(callers)[c := Idle]
    {
      activeCalls, callers := activeCalls - 1, callers[c := Idle];
    }

    /** try_acquire by the idle caller c: check, increment, check again, back out.  With what each step
        does, the caller's own steps leave no other way to answer. */
    method TryAcquire(c: nat) returns (guard: bool, ghost run: seq<Step>)
      requires Inv(View()) && c < |callers| && callers[c] == Idle
      modifies this
      ensures Inv(View()) && Execute(old(View()), run) == Some(View())
      ensures c < |callers| && callers[c] == if guard then Guarded(None) else Idle
      ensures old(state) != Active ==> !guard && Own(c, run) == [CheckState(c)]
      ensures old(state) == Active ==> Own(c, run) == [CheckState(c), FetchAdd(c)] + Answer(c, guard)
    {
      assert Own(c, []) == [] && Execute(View(), []) == Some(View());
      hide Execute, Inv, Own, Next, Answer;
      ghost var start := View();
      var active := LoadState(c);
      run := Record(start, [], start, CheckState(c));
      if !active { return false, run; }
      guard, run := AcquireChecked(c, start, run);
      assert [CheckState(c)] + ([FetchAdd(c)] + Answer(c, guard)) == [CheckState(c), FetchAdd(c)] + Answer(c, guard);
    }

    /** The part of try_acquire after its first check. */
    method AcquireChecked(c: nat, ghost start: Slot, ghost past: seq<Step>) returns (guard: bool, ghost run: seq<Step>)
      requires Inv(View()) && c < |callers| && callers[c] == Checked
      requires Execute(start, past) == Some(View())
      modifies this
      ensures Inv(View()) && Execute(start, run) == Some(View())
      ensures c < |callers| && callers[c] == if guard then Guarded(None) else Idle
      ensures Own(c, run) == Own(c, past) + ([FetchAdd(c)] + Answer(c, guard))
    {
      hide Execute, Inv, Own, Next, Answer;
      run := Interfere(Caller(c), start, past);
      ghost var at := View();
      Increment(c);
      run := Record(start, run, at, FetchAdd(c));
      guard, run := AcquireCounted(c, start, run);
      assert Own(c, past) + [FetchAdd(c)] + Answer(c, guard) == Own(c, past) + ([FetchAdd(c)] + Answer(c, guard));
    }

    /** The part of try_acquire after its fetch_add. */
    method AcquireCounted(c: nat, ghost start: Slot, ghost past: seq<Step>) returns (guard: bool, ghost run: seq<Step>)
      requires Inv(View()) && c < |callers| && callers[c] == Counted
      requires Execute(start, past) == Some(View())
      modifies this
      ensures Inv(View()) && Execute(start, run) == Some(View())
      ensures c < |callers| && callers[c] == if guard then Guarded(None) else Idle
      ensures Own(c, run) == Own(c, past) + Answer(c, guard)
    {
      hide Execute, Inv, Own, Next;
      run := Interfere(Caller(c), start, past);
      ghost var at := View();
      guard := LoadStateAgain(c);
      run := Record(start, run, at, Recheck(c));
      if !guard {
        run := Interfere(Caller(c), start, run);
        at := View();
        Decrement(c);
        run := Record(start, run, at, BackOut(c));
      }
    }

    /** The step just made, at the end of the run so far. */
    ghost method Record(start: Slot, past: seq<Step>, at: Slot, step: Step) returns (run: seq<Step>)
      requires Inv(at) && Execute(start, past) == Some(at) && Next(at, step) == Some(View())
      ensures Inv(View()) && Execute(start, run) == Some(View())
      ensures Begun(run) == Begun(past) + if step.Begin? then [step.op] else []
      ensures forall c :: Own(c, run) == Own(c, past) + if step.OfCaller() && step.c == c then [step] else []
    {
      hide Execute, Inv, Next, Own, Begun;
      NextKeepsInv(at, step);
      OneMoreStep(past, step);
      ExecuteSnoc(start, past, at, step, View());
      run := past + [step];
    }

    /** The drop of caller c's CallGuard. */
    method DropCallGuard(c: nat) returns (ghost run: seq<Step>)
      requires Inv(View()) && c < |callers| && callers[c].Guarded?
      modifies this
      ensures Inv(View()) && Execute(old(View()), run) == Some(View())
      ensures View() == old(View()).(activeCalls := old(activeCalls) - 1, callers := old(callers)[c := Idle])
      ensures activeCalls >= 0
    {
      ghost var start := View();
      Decrement(c);
      run := Record(start, [], start, DropGuard(c));
    }

    // ---------- the accesses of the drain loop ----------

    method LoadActiveCalls() returns (zero: bool)
      requires manager.Busy? && manager.phase.Polling?
      modifies this`manager
      ensures Next(old(View()), Manage) == Some(View())
      ensures zero == (activeCalls == 0)
      ensures manager == old(manager).(phase := if zero then Drained(false)
                                                else Comparing(old(manager.phase.start), old(manager.phase.naps)))
    {
      zero := activeCalls == 0;
      manager := manager.(phase := if zero then Drained(false) else Comparing(manager.phase.start, manager.phase.naps));
    }

    method CompareClock(deadline: nat) returns (late: bool)
      requires manager.Busy? && manager.phase.Comparing? && deadline == manager.phase.start + DRAIN_TIMEOUT
      modifies this`manager
      ensures Next(old(View()), Manage) == Some(View())
      ensures late == (clock >= deadline)
      ensures manager == old(manager).(phase := if late then Drained(true)
                           else Napping(old(manager.phase.start), old(manager.phase.naps) + 1, clock + 50))
    {
      late := clock >= deadline;
      manager := manager.(phase := if late then Drained(true)
                                   else Napping(manager.phase.start, manager.phase.naps + 1, clock + NAP));
    }

    /** The end of a sleep: the clock has reached the wake-up time, at the latest now. */
    method WakeUp(ghost start: Slot, ghost past: seq<Step>) returns (ghost run: seq<Step>)
      requires Inv(View()) && manager.Busy? && manager.phase.Napping?
      requires Execute(start, past) == Some(View())
      modifies this`clock, this`manager
      ensures Inv(View()) && Execute(start, run) == Some(View())
      ensures manager == old(manager).(phase := Polling(old(manager.phase.start), old(manager.phase.naps)))
      ensures clock >= old(clock)
      ensures Begun(run) == Begun(past)
    {
      hide Begun;
      run := past;
      ghost var at := View();
      if clock < manager.phase.wake {
        ghost var slept := manager.phase.wake - clock;
        clock := manager.phase.wake;
        run := Record(start, run, at, Tick(slept));
        at := View();
      }
      manager := manager.(phase := Polling(manager.phase.start, manager.phase.naps));
      run := Record(start, run, at, Manage);
    }

    /** One turn of the drain loop.  Without a verdict it has slept and polls again. */
    method DrainTurn(deadline: nat, ghost start: Slot, ghost past: seq<Step>)
      returns (done: bool, dropped: bool, ghost run: seq<Step>)
      requires Inv(View()) && manager.Busy? && manager.phase.Polling?
      requires deadline == manager.phase.start + DRAIN_TIMEOUT
      requires Execute(start, past) == Some(View())
      modifies this
      ensures Inv(View()) && Execute(start, run) == Some(View())
      ensures manager.Busy? && manager.op == old(manager.op) && manager.before == old(manager.before)
      ensures done ==> if dropped then manager.phase.Napping? else manager.phase.Drained?
      ensures clock >= old(clock)
      ensures !done ==> manager.phase == Polling(old(manager.phase.start), old(manager.phase.naps) + 1)
      ensures done && !dropped && manager.phase.forced ==> clock >= old(manager.phase.start) + 30000
      ensures Begun(run) == Begun(past)
    {
      hide Execute, Inv, Next, Begun;
      dropped := false;
      run := Interfere(Operator, start, past);
      ghost var at := View();
      done := LoadActiveCalls();
      run := Record(start, run, at, Manage);
      if done { return; }
      run := Interfere(Operator, start, run);
      at := View();
      done := CompareClock(deadline);
      run := Record(start, run, at, Manage);
      if done { return; }
      run := Interfere(Operator, start, run);
      dropped := *;
      if dropped { return true, true, run; }
      run := WakeUp(start, run);
    }

    /** The drain loop of both operations: returns once the counter was read as zero, or the deadline
        has passed, or the future was dropped in its sleep. */
    method Drain(ghost start: Slot, ghost past: seq<Step>) returns (dropped: bool, ghost run: seq<Step>)
      requires Inv(View()) && manager.Busy? && manager.phase == Marked
      requires Execute(start, past) == Some(View())
      modifies this
      ensures Inv(View()) && Execute(start, run) == Some(View())
      ensures manager.Busy? && manager.op == old(manager.op) && manager.before == old(manager.before)
      ensures if dropped then manager.phase.Napping? else manager.phase.Drained?
      ensures clock >= if !dropped && manager.phase.forced then old(clock) + 30000 else old(clock)
      ensures Begun(run) == Begun(past)
    {
      hide Begun, Execute;
      ghost var at := View();
      var deadline := clock + DRAIN_TIMEOUT;
      manager := manager.(phase := Polling(clock, 0));
      run := Record(start, past, at, Manage);
      var done := false;
      dropped := false;
      while !done
        invariant Inv(View()) && Execute(start, run) == Some(View())
        invariant manager.Busy? && manager.op == old(manager.op) && manager.before == old(manager.before)
        invariant !done ==> manager.phase.Polling? && deadline == manager.phase.start + DRAIN_TIMEOUT
        invariant done ==> if dropped then manager.phase.Napping? else manager.phase.Drained?
        invariant clock >= if done && !dropped && manager.phase.forced then old(clock) + 30000 else old(clock)
        invariant !done ==> manager.phase.start >= old(clock)
        invariant Begun(run) == Begun(past)
        decreases !done, if manager.phase.Polling? then 600 - manager.phase.naps else 0
      {
        done, dropped, run := DrainTurn(deadline, start, run);
      }
    }

    // ---------- reload ----------

    /** The first store of both operations. */
    method StoreDraining(op: Operation)
      requires manager.Free? && registered
      modifies this`state, this`manager
      ensures Next(old(View()), Begin(op)) == Some(View())
      ensures manager == Busy(op, module_, Marked) && state == Draining
    {
      manager := Busy(op, module_, Marked);
      state := Draining;
    }

    method SwapModule()
      requires manager.Busy? && manager.op.Reload? && manager.phase.Drained?
      modifies this`module_, this`manager, this`forcedSwaps
      ensures Next(old(View()), Manage) == Some(View())
      ensures manager == old(manager).(phase := Swapped(old(manager.phase.forced)))
      ensures module_ == manager.op.incoming.module_
    {
      if manager.phase.forced { forcedSwaps := forcedSwaps + 1; }
      module_ := manager.op.incoming.module_;
      manager := manager.(phase := Swapped(manager.phase.forced));
    }

    method ScopeGuard()
      requires manager.Busy? && manager.op.Reload? && (manager.phase.Napping? || manager.phase.Drained?)
      modifies this`state, this`manager
      ensures Next(old(View()), Cancel) == Some(View())
      ensures manager == Free(ReloadCancelled) && (old(state) == Draining ==> state == Active)
    {
      if state == Draining { state := Active; }
      manager := Free(ReloadCancelled);
    }

    /** drain_and_reload.  `completed` is false when the future was dropped at an await; the scope guard
        has then put ACTIVE back. */
    method DrainAndReload(incoming: LoadedPlugin) returns (completed: bool, ghost run: seq<Step>)
      requires Inv(View()) && manager.Free? && registered
      modifies this
      ensures Inv(View()) && Execute(old(View()), run) == Some(View())
      ensures manager == Free(if completed then Reloaded else ReloadCancelled)
      ensures state == Active && registered
      ensures module_ == if completed then incoming.module_ else old(module_)
      ensures completed ==> clock >= old(clock) + 30000 || NoGuard(View())
      ensures Begun(run) == [Reload(incoming)]
    {
      assert Begun([]) == [] && Execute(View(), []) == Some(View());
      hide Execute, Begun, Inv, Next;
      ghost var start := View();
      StoreDraining(Reload(incoming));
      run := Record(start, [], start, Begin(Reload(incoming)));
      run := Interfere(Operator, start, run);
      var dropped;
      dropped, run := Drain(start, run);
      if !dropped {
        run := Interfere(Operator, start, run);
        dropped := *;
      }
      MarkedUntilOver(View());
      completed := !dropped;
      run := EndReload(dropped, start, run);
    }

    /** After the wait: swap and activate, or let the scope guard put ACTIVE back. */
    method EndReload(dropped: bool, ghost start: Slot, ghost past: seq<Step>) returns (ghost run: seq<Step>)
      requires Inv(View()) && manager.Busy? && manager.op.Reload?
      requires manager.phase.Drained? || (dropped && manager.phase.Napping?)
      requires Execute(start, past) == Some(View())
      modifies this
      ensures Inv(View()) && Execute(start, run) == Some(View())
      ensures manager == Free(if dropped then ReloadCancelled else Reloaded) && state == Active && registered
      ensures module_ == if dropped then old(module_) else old(manager).op.incoming.module_
      ensures clock >= old(clock) && (!dropped ==> old(manager).phase.forced || NoGuard(View()))
      ensures Begun(run) == Begun(past)
    {
      MarkedUntilOver(View());
      hide Execute, Begun, Inv, Next;
      ghost var at := View();
      if dropped {
        ScopeGuard();
        run := Record(start, past, at, Cancel);
      } else {
        SwapModule();
        run := Record(start, past, at, Manage);
        run := Activate(start, run);
      }
    }

    /** The last store of a reload. */
    method Activate(ghost start: Slot, ghost past: seq<Step>) returns (ghost run: seq<Step>)
      requires Inv(View()) && manager.Busy? && manager.phase.Swapped?
      requires Execute(start, past) == Some(View())
      modifies this
      ensures Inv(View()) && Execute(start, run) == Some(View())
      ensures manager == Free(Reloaded) && state == Active && registered
      ensures module_ == old(manager).op.incoming.module_
      ensures clock >= old(clock) && (old(manager).phase.forced || NoGuard(View()))
      ensures Begun(run) == Begun(past)
    {
      hide Execute, Begun, CounterExact, QuietSwap, NoStaleCall, WaitTimed;
      run := Interfere(Operator, start, past);
      ghost var at := View();
      if !manager.phase.forced { QuietAfterZero(at); }
      state := Active;
      manager := Free(Reloaded);
      run := Record(start, run, at, Manage);
    }

    // ---------- unload ----------

    method StoreUnloaded()
      requires manager.Busy? && manager.op.Unload? && manager.phase.Drained?
      modifies this`state, this`manager
      ensures Next(old(View()), Manage) == Some(View())
      ensures manager == old(manager).(phase := Retired(old(manager.phase.forced)))
    {
      state := Unloaded;
      manager := manager.(phase := Retired(manager.phase.forced));
    }

    /** The end of an unload whose drain is over: store UNLOADED, then take the registry's write lock
        and remove the slot, unless the future is dropped while it waits for that lock. */
    method StoreAndRemove(ghost start: Slot, ghost past: seq<Step>) returns (completed: bool, ghost run: seq<Step>)
      requires Inv(View()) && manager.Busy? && manager.op.Unload? && manager.phase.Drained?
      requires Execute(start, past) == Some(View())
      modifies this
      ensures Inv(View()) && Execute(start, run) == Some(View())
      ensures manager == Free(if completed then Removed else UnloadAbandoned)
      ensures module_ == old(manager).before && registered == !completed && state == Unloaded
      ensures clock >= old(clock) && (completed ==> old(manager).phase.forced || NoGuard(View()))
      ensures Begun(run) == Begun(past)
    {
      hide Execute, Begun, CounterExact, QuietSwap, NoStaleCall, WaitTimed;
      run := Interfere(Operator, start, past);
      ghost var at := View();
      StoreUnloaded();
      run := Record(start, run, at, Manage);
      run := Interfere(Operator, start, run);
      at := View();
      if !manager.phase.forced { QuietAfterZero(at); }
      completed := *;
      if completed {
        registered := false;
        manager := Free(Removed);
        run := Record(start, run, at, Manage);
      } else {
        manager := Free(UnloadAbandoned);
        run := Record(start, run, at, Cancel);
      }
    }

    /** unload, and the removal from the registry that follows it.  There is no scope guard: a dropped
        future leaves the slot registered and refusing calls. */
    method UnloadAndRemove() returns (completed: bool, ghost run: seq<Step>)
      requires Inv(View()) && manager.Free? && registered
      modifies this
      ensures Inv(View()) && Execute(old(View()), run) == Some(View())
      ensures manager == Free(if completed then Removed else UnloadAbandoned)
      ensures registered == !completed && (if completed then state == Unloaded else state != Active)
      ensures module_ == old(module_)
      ensures completed ==> clock >= old(clock) + 30000 || NoGuard(View())
      ensures Begun(run) == [Unload]
    {
      assert Begun([]) == [] && Execute(View(), []) == Some(View());
      hide Execute, Begun, Inv;
      ghost var start := View();
      StoreDraining(Unload);
      run := Record(start, [], start, Begin(Unload));
      run := Interfere(Operator, start, run);
      var dropped;
      dropped, run := Drain(start, run);
      ghost var at := View();
      MarkedUntilOver(at);
      if dropped {
        manager := Free(UnloadAbandoned);
        run := Record(start, run, at, Cancel);
        completed := false;
      } else {
        completed, run := StoreAndRemove(start, run);
      }
    }
  }
}
