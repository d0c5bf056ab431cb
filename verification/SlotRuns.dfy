/**
What the drain protocol guarantees over whole runs: every interleaving of any number of callers with
a sequence of reloads and unloads, cancelled anywhere, that starts from a freshly registered slot.
*/
module SlotRuns {
  import opened Plugins
  import opened Wrappers
  import opened SlotProtocol

  predicate Reaches(loaded: LoadedPlugin, now: nat, steps: seq<Step>, s: Slot) {
    Execute(Fresh(loaded, now), steps) == Some(s)
  }

  lemma ReachableInv(loaded: LoadedPlugin, now: nat, steps: seq<Step>, s: Slot)
    requires Reaches(loaded, now, steps, s)
    ensures Inv(s)
  {
    RunKeepsInv(Fresh(loaded, now), steps);
  }

  /** The counter is exact and never negative; the caller about to subtract always finds it positive. */
  lemma CounterNeverUnderflows(loaded: LoadedPlugin, now: nat, steps: seq<Step>, s: Slot)
    requires Reaches(loaded, now, steps, s)
    ensures s.activeCalls == Occupants(s.callers)
    ensures forall c :: 0 <= c < |s.callers| && s.callers[c].Occupies() ==> s.activeCalls >= 1
  {
    ReachableInv(loaded, now, steps, s);
    NoOccupants(s.callers);
  }

  /** From the load that read zero until ACTIVE is stored no CallGuard exists, whatever callers do. */
  lemma DrainedByZeroIsQuiet(loaded: LoadedPlugin, now: nat, steps: seq<Step>, s: Slot)
    requires Reaches(loaded, now, steps, s)
    requires s.manager.Busy? && s.manager.phase in {Drained(false), Swapped(false)}
    ensures NoGuard(s) && s.state == Draining
  {
    ReachableInv(loaded, now, steps, s);
  }

  /** The module is replaced by the manager only, and never under a call unless the deadline forced it. */
  lemma SwapNeverUnderACall(loaded: LoadedPlugin, now: nat, steps: seq<Step>, s: Slot, step: Step, t: Slot)
    requires Reaches(loaded, now, steps, s) && Next(s, step) == Some(t)
    requires t.module_ != s.module_
    ensures step == Manage && s.state == Draining
    ensures t.forcedSwaps == s.forcedSwaps ==> NoGuard(s) && NoGuard(t)
    ensures t.forcedSwaps != s.forcedSwaps ==> s.manager.Busy? && s.manager.phase == Drained(true)
  {
    ReachableInv(loaded, now, steps, s);
    NextKeepsInv(s, step);
  }

  // ---------- which module a call runs ----------

  /** If the caller holds a guard and has cloned the module, it is the one the slot holds now. */
  predicate RunsCurrent(s: Slot, c: nat) {
    c < |s.callers| && s.callers[c].Guarded? && s.callers[c].loaded.Some? ==> s.callers[c].loaded.value == s.module_
  }

  lemma NextKeepsCurrent(s: Slot, step: Step, c: nat)
    requires Inv(s) && RunsCurrent(s, c) && Next(s, step).Some?
    ensures s.forcedSwaps <= Next(s, step).value.forcedSwaps
    ensures Next(s, step).value.forcedSwaps == s.forcedSwaps ==> RunsCurrent(Next(s, step).value, c)
  {
    hide CounterExact, NoStaleCall, WaitTimed;
  }

  lemma {:induction false} ForcedSwapsOnlyGrow(s: Slot, steps: seq<Step>)
    requires Inv(s) && Execute(s, steps).Some?
    ensures s.forcedSwaps <= Execute(s, steps).value.forcedSwaps
    decreases |steps|
  {
    if steps != [] {
      NextKeepsInv(s, steps[0]);
      ForcedSwapsOnlyGrow(Next(s, steps[0]).value, steps[1..]);
    }
  }

  lemma {:induction false} RunKeepsCurrent(s: Slot, steps: seq<Step>, c: nat)
    requires Inv(s) && RunsCurrent(s, c) && Execute(s, steps).Some?
    requires Execute(s, steps).value.forcedSwaps == s.forcedSwaps
    ensures RunsCurrent(Execute(s, steps).value, c)
    decreases |steps|
  {
    if steps != [] {
      hide Inv, Next;
      NextKeepsInv(s, steps[0]);
      NextKeepsCurrent(s, steps[0], c);
      ForcedSwapsOnlyGrow(Next(s, steps[0]).value, steps[1..]);
      RunKeepsCurrent(Next(s, steps[0]).value, steps[1..], c);
    }
  }

  /** Take any moment s, such as the one after a forced swap.  Until the next forced swap a call runs the
      slot's own module, unless it already ran another one at s: so does every guard granted since. */
  lemma CallsRunCurrentModule(loaded: LoadedPlugin, now: nat, past: seq<Step>, s: Slot,
                              steps: seq<Step>, t: Slot, c: nat)
    requires Reaches(loaded, now, past, s) && Execute(s, steps) == Some(t)
    requires t.forcedSwaps == s.forcedSwaps && RunsCurrent(s, c)
    ensures RunsCurrent(t, c)
  {
    ReachableInv(loaded, now, past, s);
    RunKeepsCurrent(s, steps, c);
  }

  // ---------- a slot nobody has reloaded ----------

  lemma {:induction false} UntouchedKept(s: Slot, steps: seq<Step>)
    requires s.manager.Free? && NoBegin(steps) && Execute(s, steps).Some?
    ensures var t := Execute(s, steps).value; t.module_ == s.module_ && t.state == s.state && t.manager == s.manager
    decreases |steps|
  {
    if steps != [] { UntouchedKept(Next(s, steps[0]).value, steps[1..]); }
  }

  /** Until the first reload or unload the slot is active and runs the module it was registered with, with
      its manifest and limits. */
  lemma UntouchedSlotRunsLoadedModule(loaded: LoadedPlugin, now: nat, steps: seq<Step>, s: Slot)
    requires Reaches(loaded, now, steps, s) && NoBegin(steps)
    ensures s.state == Active && s.registered && s.module_ == loaded.module_
    ensures s.manifest == loaded.manifest && s.limits == loaded.limits
  {
    UntouchedKept(Fresh(loaded, now), steps);
    RegistrationKept(Fresh(loaded, now), steps);
    IdentityKept(Fresh(loaded, now), steps);
  }

  /** In an active slot an uninterrupted call gets its guard and the slot's module, and dropping the guard
      leaves the slot as it was; in any other it is turned away and changes nothing. */
  lemma ActiveSlotGrants(loaded: LoadedPlugin, now: nat, past: seq<Step>, s: Slot, c: nat)
    requires Reaches(loaded, now, past, s) && c < |s.callers| && s.callers[c] == Idle
    ensures s.state == Active ==>
      var t := s.(activeCalls := s.activeCalls + 1, callers := s.callers[c := Guarded(Some(s.module_))]);
      && Execute(s, [CheckState(c), FetchAdd(c), Recheck(c), ReadModule(c)]) == Some(t)
      && Next(t, DropGuard(c)) == Some(s)
    ensures s.state != Active ==> Next(s, CheckState(c)) == Some(s)
  {
    if s.state == Active {
      var checked := s.(callers := s.callers[c := Checked]);
      var counted := s.(activeCalls := s.activeCalls + 1, callers := s.callers[c := Counted]);
      var guarded := counted.(callers := s.callers[c := Guarded(None)]);
      var t := counted.(callers := s.callers[c := Guarded(Some(s.module_))]);
      assert checked.callers[c := Counted] == counted.callers;
      assert counted.callers[c := Guarded(None)] == guarded.callers;
      assert guarded.callers[c := Guarded(Some(s.module_))] == t.callers;
      assert t.callers[c := Idle] == s.callers;
      Chain(s, [CheckState(c), FetchAdd(c), Recheck(c), ReadModule(c)], [s, checked, counted, guarded, t]);
    }
  }

  // ---------- when a reload swaps under a call ----------

  /** A schedule in which the callers stay inside for 30 seconds: the module is swapped under every one of
      them that holds a guard. */
  lemma DeadlineSwapsUnderCalls(loaded: LoadedPlugin, now: nat, past: seq<Step>, s: Slot, incoming: LoadedPlugin)
    requires Reaches(loaded, now, past, s) && s.manager.Free? && s.registered && !NoGuard(s)
    ensures var t := Execute(s, [Begin(Reload(incoming)), Manage, Manage, Tick(DRAIN_TIMEOUT), Manage, Manage]);
      && t.Some? && t.value.module_ == incoming.module_ && t.value.callers == s.callers
      && t.value.manager == Busy(Reload(incoming), s.module_, Swapped(true))
      && t.value.forcedSwaps == s.forcedSwaps + 1
  {
    ReachableInv(loaded, now, past, s);
    NoOccupants(s.callers);
    hide Inv;
    var begun := s.(state := Draining, manager := Busy(Reload(incoming), s.module_, Marked));
    var polling := begun.(manager := begun.manager.(phase := Polling(s.clock, 0)));
    var comparing := begun.(manager := begun.manager.(phase := Comparing(s.clock, 0)));
    var late := comparing.(clock := s.clock + DRAIN_TIMEOUT);
    var drained := late.(manager := begun.manager.(phase := Drained(true)));
    Chain(s, [Begin(Reload(incoming)), Manage, Manage, Tick(DRAIN_TIMEOUT), Manage, Manage],
          [s, begun, polling, comparing, late, drained, Next(drained, Manage).value]);
  }

  /** This run of a reload from s has just swapped the module while some call holds a guard. */
  predicate SwapsUnderCall(s: Slot, incoming: LoadedPlugin, steps: seq<Step>, t: Slot) {
    && NoBegin(steps) && Execute(s, [Begin(Reload(incoming))] + steps) == Some(t)
    && t.manager.Busy? && t.manager.phase.Swapped? && !NoGuard(t)
  }

  lemma {:induction false} OperationGrantsNothing(s: Slot, steps: seq<Step>)
    requires Inv(s) && s.manager.Busy? && NoBegin(steps) && Execute(s, steps).Some?
    requires Execute(s, steps).value.manager.Busy?
    ensures GrantsNothing(s, Execute(s, steps).value)
    decreases |steps|
  {
    if steps != [] {
      var t := Next(s, steps[0]).value;
      NextKeepsInv(s, steps[0]);
      if t.manager.Free? { RegistrationKept(t, steps[1..]); }
      StepGrantsNothing(s, steps[0]);
      hide Inv, Next;
      OperationGrantsNothing(t, steps[1..]);
    }
  }

  lemma StepGrantsNothing(s: Slot, step: Step)
    requires Inv(s) && s.state != Active && Next(s, step).Some?
    ensures GrantsNothing(s, Next(s, step).value)
  {
  }

  /** A reload can swap the module under a call if and only if some call holds a guard when it begins. */
  lemma SwapUnderCallIff(loaded: LoadedPlugin, now: nat, past: seq<Step>, s: Slot, incoming: LoadedPlugin)
    requires Reaches(loaded, now, past, s) && s.manager.Free? && s.registered
    ensures (exists steps, t :: SwapsUnderCall(s, incoming, steps, t)) <==> !NoGuard(s)
  {
    var begin := Begin(Reload(incoming));
    if !NoGuard(s) {
      DeadlineSwapsUnderCalls(loaded, now, past, s, incoming);
      var steps := [Manage, Manage, Tick(DRAIN_TIMEOUT), Manage, Manage];
      assert [begin] + steps == [begin, Manage, Manage, Tick(DRAIN_TIMEOUT), Manage, Manage];
      assert SwapsUnderCall(s, incoming, steps, Execute(s, [begin] + steps).value);
    }
    if steps, t :| SwapsUnderCall(s, incoming, steps, t) {
      ReachableInv(loaded, now, past, s);
      NextKeepsInv(s, begin);
      assert ([begin] + steps)[1..] == steps;
      OperationGrantsNothing(Next(s, begin).value, steps);
    }
  }

  lemma {:induction false} Chain(s: Slot, steps: seq<Step>, states: seq<Slot>)
    requires |states| == |steps| + 1 && states[0] == s
    requires forall i :: 0 <= i < |steps| ==> Next(states[i], steps[i]) == Some(states[i + 1])
    ensures Execute(s, steps) == Some(states[|steps|])
    decreases |steps|
  {
    if steps != [] {
      Chain(states[1], steps[1..], states[1..]);
    }
  }

  // ---------- reload is all or nothing ----------

  predicate NoBegin(steps: seq<Step>) {
    forall i :: 0 <= i < |steps| ==> !steps[i].Begin?
  }

  /** How a reload of `incoming` into a slot that held `before` stands: still in flight, or ended with
      the new module, or ended with the old one. */
  predicate ReloadStands(s: Slot, before: Module, incoming: LoadedPlugin) {
    match s.manager
    case Busy(op, b, _) => op == Reload(incoming) && b == before
    case Free(last) =>
      && s.state == Active
      && ((last == Reloaded && s.module_ == incoming.module_) || (last == ReloadCancelled && s.module_ == before))
  }

  lemma ReloadStandsNext(s: Slot, step: Step, before: Module, incoming: LoadedPlugin)
    requires Inv(s) && ReloadStands(s, before, incoming)
    requires !step.Begin? && Next(s, step).Some?
    ensures ReloadStands(Next(s, step).value, before, incoming)
    ensures Next(s, step).value.manifest == s.manifest && Next(s, step).value.limits == s.limits
  {
  }

  lemma {:induction false} ReloadStandsRun(s: Slot, steps: seq<Step>, before: Module, incoming: LoadedPlugin)
    requires Inv(s) && ReloadStands(s, before, incoming)
    requires NoBegin(steps) && Execute(s, steps).Some?
    ensures ReloadStands(Execute(s, steps).value, before, incoming)
    ensures Execute(s, steps).value.manifest == s.manifest && Execute(s, steps).value.limits == s.limits
    decreases |steps|
  {
    if steps != [] {
      ReloadStandsNext(s, steps[0], before, incoming);
      NextKeepsInv(s, steps[0]);
      ReloadStandsRun(Next(s, steps[0]).value, steps[1..], before, incoming);
    }
  }

  /** Whatever callers and clock do, a reload that has ended left the slot ACTIVE, either with the new
      module or, if its future was dropped at any await, with the old one.  The manifest and the limits
      are those of the first load in both cases, whatever the new binary brought. */
  lemma ReloadIsAllOrNothing(loaded: LoadedPlugin, now: nat, past: seq<Step>, s: Slot,
                             incoming: LoadedPlugin, steps: seq<Step>, t: Slot)
    requires Reaches(loaded, now, past, s)
    requires NoBegin(steps) && Execute(s, [Begin(Reload(incoming))] + steps) == Some(t)
    requires t.manager.Free?
    ensures t.state == Active && t.registered
    ensures t.manager.last in {Reloaded, ReloadCancelled}
    ensures t.module_ == if t.manager.last == Reloaded then incoming.module_ else s.module_
    ensures t.manifest == loaded.manifest && t.limits == loaded.limits
  {
    ReachableInv(loaded, now, past, s);
    var all := [Begin(Reload(incoming))] + steps;
    assert all[1..] == steps;
    var begun := Next(s, all[0]).value;
    NextKeepsInv(s, all[0]);
    ReloadStandsRun(begun, steps, s.module_, incoming);
    RunKeepsInv(begun, steps);
    IdentityKept(Fresh(loaded, now), past);
  }

  lemma {:induction false} IdentityKept(s: Slot, steps: seq<Step>)
    requires Execute(s, steps).Some?
    ensures Execute(s, steps).value.manifest == s.manifest && Execute(s, steps).value.limits == s.limits
    decreases |steps|
  {
    if steps != [] { IdentityKept(Next(s, steps[0]).value, steps[1..]); }
  }

  // ---------- the drain ends ----------

  /** Accesses the operation in flight can still make. */
  function Rank(s: Slot): int {
    match s.manager
    case Free(_) => 0
    case Busy(_, _, phase) =>
      match phase
      case Marked => 1805
      case Polling(_, naps) => 3 * (600 - naps) + 4
      case Comparing(_, naps) => 3 * (600 - naps) + 3
      case Napping(_, naps, _) => 3 * (600 - naps) + 5
      case Drained(_) => 2
      case Swapped(_) => 1
      case Retired(_) => 1
  }

  function ManagerSteps(steps: seq<Step>): nat {
    if steps == [] then 0 else (if steps[0] == Manage then 1 else 0) + ManagerSteps(steps[1..])
  }

  lemma RankFalls(s: Slot, step: Step)
    requires Inv(s) && !step.Begin? && Next(s, step).Some?
    ensures 0 <= Rank(Next(s, step).value) <= Rank(s) - (if step == Manage then 1 else 0)
  {
    NextKeepsInv(s, step);
  }

  lemma {:induction false} RankBoundsRun(s: Slot, steps: seq<Step>)
    requires Inv(s) && NoBegin(steps) && Execute(s, steps).Some?
    ensures 0 <= ManagerSteps(steps) <= Rank(s)
    decreases |steps|
  {
    if steps == [] {
    } else {
      RankFalls(s, steps[0]);
      NextKeepsInv(s, steps[0]);
      RankBoundsRun(Next(s, steps[0]).value, steps[1..]);
    }
  }

  /** One management operation makes at most 1805 accesses (600 sleeps) before it ends, even if guards
      are never dropped. */
  lemma OperationIsBounded(loaded: LoadedPlugin, now: nat, past: seq<Step>, s: Slot, op: Operation, steps: seq<Step>)
    requires Reaches(loaded, now, past, s)
    requires NoBegin(steps) && Execute(s, [Begin(op)] + steps).Some?
    ensures ManagerSteps(steps) <= 1805
  {
    ReachableInv(loaded, now, past, s);
    assert ([Begin(op)] + steps)[1..] == steps;
    NextKeepsInv(s, Begin(op));
    RankBoundsRun(Next(s, Begin(op)).value, steps);
  }

  /** An operation in flight is never stuck: it can take its next access, at the latest once the current
      sleep is over, and no sleep lasts past the deadline by a whole nap. */
  lemma OperationNeverStuck(loaded: LoadedPlugin, now: nat, past: seq<Step>, s: Slot)
    requires Reaches(loaded, now, past, s) && s.manager.Busy?
    ensures Next(s, Manage).Some? || (s.manager.phase.Napping? && s.clock < s.manager.phase.wake)
    ensures s.manager.phase.Napping? ==> s.manager.phase.wake < s.manager.phase.start + 30050
    ensures s.manager.phase.Comparing? && s.clock >= s.manager.phase.start + 30000 ==>
      Next(s, Manage).value.manager.phase == Drained(true)
  {
    ReachableInv(loaded, now, past, s);
  }

  // ---------- the drain does not end early ----------

  /** How long the operation that began at `began` has waited: its deadline is 30 seconds after a reading of
      the clock that is no earlier, and a forced end comes after that. */
  predicate WaitedSince(s: Slot, began: nat) {
    match s.manager
    case Free(_) => true
    case Busy(_, _, phase) =>
      match phase
      case Marked => began <= s.clock
      case Polling(start, _) => began <= start <= s.clock
      case Comparing(start, _) => began <= start <= s.clock
      case Napping(start, _, _) => began <= start <= s.clock
      case Drained(forced) => forced ==> s.clock >= began + 30000
      case Swapped(forced) => forced ==> s.clock >= began + 30000
      case Retired(forced) => forced ==> s.clock >= began + 30000
  }

  lemma NextKeepsWaiting(s: Slot, step: Step, began: nat)
    requires WaitedSince(s, began) && !step.Begin? && Next(s, step).Some?
    ensures WaitedSince(Next(s, step).value, began)
  {
  }

  lemma {:induction false} RunKeepsWaiting(s: Slot, steps: seq<Step>, began: nat)
    requires WaitedSince(s, began) && NoBegin(steps) && Execute(s, steps).Some?
    ensures WaitedSince(Execute(s, steps).value, began)
    decreases |steps|
  {
    hide WaitedSince, Next;
    if steps != [] {
      NextKeepsWaiting(s, steps[0], began);
      RunKeepsWaiting(Next(s, steps[0]).value, steps[1..], began);
    }
  }

  /** A reload or unload that gives up waiting for the callers has waited for 30 seconds since it began;
      one that is past its wait otherwise has nobody holding a guard. */
  lemma ForcedAfterThirtySeconds(loaded: LoadedPlugin, now: nat, past: seq<Step>, s: Slot,
                                 op: Operation, steps: seq<Step>, t: Slot)
    requires Reaches(loaded, now, past, s) && NoBegin(steps) && Execute(s, [Begin(op)] + steps) == Some(t)
    requires t.manager.Busy? && (t.manager.phase.Drained? || t.manager.phase.Swapped? || t.manager.phase.Retired?)
    ensures if t.manager.phase.forced then t.clock >= s.clock + 30000 else NoGuard(t)
  {
    ReachableInv(loaded, now, past, s);
    assert ([Begin(op)] + steps)[1..] == steps;
    var begun := Next(s, Begin(op)).value;
    NextKeepsInv(s, Begin(op));
    RunKeepsInv(begun, steps);
    RunKeepsWaiting(begun, steps, s.clock);
  }

  // ---------- after an unload ----------

  /** From the state s to the state t no guard was handed out. */
  predicate GrantsNothing(s: Slot, t: Slot) {
    && |s.callers| <= |t.callers|
    && forall c :: 0 <= c < |t.callers| && t.callers[c].Guarded? ==> c < |s.callers| && s.callers[c].Guarded?
  }

  lemma {:induction false} RemovedGrantsNothing(s: Slot, steps: seq<Step>)
    requires Inv(s) && !s.registered && Execute(s, steps).Some?
    ensures !Execute(s, steps).value.registered && Execute(s, steps).value.state == Unloaded
    ensures GrantsNothing(s, Execute(s, steps).value)
    decreases |steps|
  {
    if steps != [] {
      var t := Next(s, steps[0]).value;
      NextKeepsInv(s, steps[0]);
      assert GrantsNothing(s, t);
      RemovedGrantsNothing(t, steps[1..]);
    }
  }

  /** Once an unload has completed, no caller that kept the slot alive is ever given a guard. */
  lemma UnloadIsFinal(loaded: LoadedPlugin, now: nat, past: seq<Step>, s: Slot, steps: seq<Step>, t: Slot)
    requires Reaches(loaded, now, past, s) && s.manager == Free(Removed)
    requires Execute(s, steps) == Some(t)
    ensures t.state == Unloaded && GrantsNothing(s, t)
  {
    ReachableInv(loaded, now, past, s);
    RemovedGrantsNothing(s, steps);
  }

  lemma {:induction false} AbandonedGrantsNothing(s: Slot, steps: seq<Step>)
    requires Inv(s) && s.manager.Free? && s.state != Active
    requires NoBegin(steps) && Execute(s, steps).Some?
    ensures Execute(s, steps).value.state == s.state && GrantsNothing(s, Execute(s, steps).value)
    decreases |steps|
  {
    if steps != [] {
      var t := Next(s, steps[0]).value;
      NextKeepsInv(s, steps[0]);
      assert GrantsNothing(s, t);
      AbandonedGrantsNothing(t, steps[1..]);
    }
  }

  /** `unload` has no scope guard.  A slot whose unload future was dropped stays registered and refuses
      every call until the next management operation; a reload then brings it back. */
  lemma AbandonedUnloadRefusesUntilReloaded(loaded: LoadedPlugin, now: nat, past: seq<Step>, s: Slot,
                                            steps: seq<Step>, t: Slot)
    requires Reaches(loaded, now, past, s) && s.manager == Free(UnloadAbandoned)
    requires NoBegin(steps) && Execute(s, steps) == Some(t)
    ensures t.state == s.state != Active && t.registered && GrantsNothing(s, t)
  {
    ReachableInv(loaded, now, past, s);
    AbandonedGrantsNothing(s, steps);
    RegistrationKept(s, steps);
  }

  lemma {:induction false} RegistrationKept(s: Slot, steps: seq<Step>)
    requires s.manager.Free? && NoBegin(steps) && Execute(s, steps).Some?
    ensures Execute(s, steps).value.manager == s.manager && Execute(s, steps).value.registered == s.registered
    decreases |steps|
  {
    if steps != [] { RegistrationKept(Next(s, steps[0]).value, steps[1..]); }
  }
}
