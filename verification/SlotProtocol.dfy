/**
The drain protocol of a plugin slot, as a transition system with one step per atomic access.

Any number of callers run `try_acquire`, read the module and drop their guards; one management
operation (reload or unload) at a time runs beside them.  Each load, store, fetch_add, fetch_sub and
compare_exchange is one sequentially consistent step, and a management future can be dropped at each
of its `.await` points.
*/
module SlotProtocol {
  import opened Plugins
  import opened Wrappers

  /** STATE_ACTIVE, STATE_DRAINING and STATE_UNLOADED. */
  datatype SlotState = Active | Draining | Unloaded

  /** DRAIN_TIMEOUT and the length of one sleep of the drain loop, in milliseconds. */
  const DRAIN_TIMEOUT: nat := 30000
  const NAP: nat := 50

  /** Where a caller stands.  `Counted` has incremented and not yet looked again; `Guarded` holds a
      CallGuard and may have cloned the module it runs. */
  datatype Caller = Idle | Checked | Counted | BackingOut | Guarded(loaded: Option<Module>)
  {
    /** Between its fetch_add and its fetch_sub. */
    predicate Occupies() { Counted? || BackingOut? || Guarded? }
  }

  datatype Operation = Reload(incoming: LoadedPlugin) | Unload

  datatype Outcome = NotYet | Reloaded | ReloadCancelled | Removed | UnloadAbandoned

  /** Progress of the operation in flight.  `start` is the clock reading the deadline was computed
      from, `naps` the number of sleeps begun, and `forced` says that the deadline ended the wait. */
  datatype Phase =
    | Marked
    | Polling(start: nat, naps: nat)
    | Comparing(start: nat, naps: nat)
    | Napping(start: nat, naps: nat, wake: nat)
    | Drained(forced: bool)
    | Swapped(forced: bool)
    | Retired(forced: bool)

  datatype Manager = Free(last: Outcome) | Busy(op: Operation, before: Module, phase: Phase)

  datatype Slot = Slot(
    state: SlotState,
    activeCalls: int,
    module_: Module,
    manifest: PluginManifest,
    limits: Limits,
    callers: seq<Caller>,
    manager: Manager,
    clock: nat,
    registered: bool,
    forcedSwaps: nat)

  datatype Step =
    | Spawn
    | CheckState(c: nat)
    | FetchAdd(c: nat)
    | Recheck(c: nat)
    | BackOut(c: nat)
    | ReadModule(c: nat)
    | DropGuard(c: nat)
    | Tick(elapsed: nat)
    | Begin(op: Operation)
    | Manage
    | Cancel
  {
    predicate OfCaller() { !Tick? && !Begin? && !Manage? && !Cancel? && !Spawn? }
  }

  /** The slot as PluginSlot::new leaves it, with no caller yet. */
  function Fresh(loaded: LoadedPlugin, now: nat): Slot {
    Slot(Active, 0, loaded.module_, loaded.manifest, loaded.limits, [], Free(NotYet), now, true, 0)
  }

  // ---------- one step ----------

  function Next(s: Slot, step: Step): Option<Slot> {
    if step.OfCaller() then CallerNext(s, step)
    else match step
      case Spawn => Some(s.(callers := s.callers + [Idle]))
      case Tick(d) => Some(s.(clock := s.clock + d))
      case Begin(op) =>
        if s.manager.Free? && s.registered
        then Some(s.(state := Draining, manager := Busy(op, s.module_, Marked))) else None
      case Manage => if s.manager.Busy? then ManagerNext(s) else None
      case Cancel => if s.manager.Busy? then CancelNext(s) else None
  }

  function CallerNext(s: Slot, step: Step): Option<Slot>
    requires step.OfCaller()
  {
    if step.c >= |s.callers| then None else
    var at := s.callers[step.c];
    match step
    case CheckState(c) =>
      if !at.Idle? then None
      else Some(if s.state == Active then s.(callers := s.callers[c := Checked]) else s)
    case FetchAdd(c) =>
      if !at.Checked? then None
      else Some(s.(activeCalls := s.activeCalls + 1, callers := s.callers[c := Counted]))
    case Recheck(c) =>
      if !at.Counted? then None
      else Some(s.(callers := s.callers[c := if s.state == Active then Guarded(None) else BackingOut]))
    case BackOut(c) =>
      if !at.BackingOut? then None
      else Some(s.(activeCalls := s.activeCalls - 1, callers := s.callers[c := Idle]))
    case ReadModule(c) =>
      if !at.Guarded? || at.loaded.Some? then None
      else Some(s.(callers := s.callers[c := Guarded(Some(s.module_))]))
    case DropGuard(c) =>
      if !at.Guarded? then None
      else Some(s.(activeCalls := s.activeCalls - 1, callers := s.callers[c := Idle]))
  }

  /** The next access of drain_and_reload, of unload, or of the registry's removal after it. */
  function ManagerNext(s: Slot): Option<Slot>
    requires s.manager.Busy?
  {
    var m := s.manager;
    match m.phase
    case Marked => Some(s.(manager := m.(phase := Polling(s.clock, 0))))
    case Polling(start, naps) =>
      Some(s.(manager := m.(phase := if s.activeCalls == 0 then Drained(false) else Comparing(start, naps))))
    case Comparing(start, naps) =>
      Some(s.(manager := m.(phase :=
        if s.clock >= start + DRAIN_TIMEOUT then Drained(true)
        else Napping(start, naps + 1, s.clock + NAP))))
    case Napping(start, naps, wake) =>
      if s.clock < wake then None else Some(s.(manager := m.(phase := Polling(start, naps))))
    case Drained(forced) =>
      if m.op.Reload? then
        Some(s.(module_ := m.op.incoming.module_, manager := m.(phase := Swapped(forced)),
                forcedSwaps := s.forcedSwaps + if forced then 1 else 0))
      else Some(s.(state := Unloaded, manager := m.(phase := Retired(forced))))
    case Swapped(_) => Some(s.(state := Active, manager := Free(Reloaded)))
    case Retired(_) => Some(s.(registered := false, manager := Free(Removed)))
  }

  /** Dropping the operation's future.  Its await points are the sleep, the module's write lock
      (reload) and the registry's write lock (unload).  Only a reload has a scope guard, which stores
      ACTIVE if it still finds DRAINING. */
  function CancelNext(s: Slot): Option<Slot>
    requires s.manager.Busy?
  {
    var m := s.manager;
    if m.op.Reload? && (m.phase.Napping? || m.phase.Drained?) then
      Some(s.(state := if s.state == Draining then Active else s.state, manager := Free(ReloadCancelled)))
    else if m.op.Unload? && (m.phase.Napping? || m.phase.Retired?) then
      Some(s.(manager := Free(UnloadAbandoned)))
    else None
  }

  lemma IdentityStep(s: Slot, step: Step)
    requires Next(s, step).Some?
    ensures Next(s, step).value.manifest == s.manifest && Next(s, step).value.limits == s.limits
  {
  }

  /** The state after a whole interleaving, if every step of it was enabled. */
  function Execute(s: Slot, steps: seq<Step>): Option<Slot>
    decreases |steps|
  {
    if steps == [] then Some(s)
    else match Next(s, steps[0])
      case None => None
      case Some(t) => Execute(t, steps[1..])
  }

  lemma {:induction false} ExecuteConcat(s: Slot, first: seq<Step>, second: seq<Step>)
    requires Execute(s, first).Some?
    ensures Execute(s, first + second) == Execute(Execute(s, first).value, second)
    decreases |first|
  {
    if first == [] {
      assert first + second == second;
    } else {
      assert (first + second)[0] == first[0] && (first + second)[1..] == first[1..] + second;
      ExecuteConcat(Next(s, first[0]).value, first[1..], second);
    }
  }

  // ---------- the invariant ----------

  /** Number of callers between their increment and their decrement. */
  function Occupants(callers: seq<Caller>): nat {
    if callers == [] then 0
    else (if callers[|callers| - 1].Occupies() then 1 else 0) + Occupants(callers[..|callers| - 1])
  }

  lemma {:induction false} OccupantsUpdate(callers: seq<Caller>, c: nat, to: Caller)
    requires c < |callers|
    ensures Occupants(callers[c := to])
         == Occupants(callers) - (if callers[c].Occupies() then 1 else 0) + (if to.Occupies() then 1 else 0)
  {
    var last := |callers| - 1;
    if c == last {
      assert callers[c := to][..last] == callers[..last];
    } else {
      assert callers[c := to][..last] == callers[..last][c := to];
      OccupantsUpdate(callers[..last], c, to);
    }
  }

  lemma {:induction false} NoOccupants(callers: seq<Caller>)
    ensures Occupants(callers) == 0 <==> forall c :: 0 <= c < |callers| ==> !callers[c].Occupies()
  {
    if callers != [] {
      var last := |callers| - 1;
      NoOccupants(callers[..last]);
      assert forall c :: 0 <= c < last ==> callers[..last][c] == callers[c];
    }
  }

  predicate NoGuard(s: Slot) {
    forall c :: 0 <= c < |s.callers| ==> !s.callers[c].Guarded?
  }

  /** active_calls is exactly the number of callers inside, so no fetch_sub can underflow. */
  predicate CounterExact(s: Slot) { s.activeCalls == Occupants(s.callers) }

  /** What the state byte and the module are while each operation is in flight and after it. */
  predicate ManagerConsistent(s: Slot) {
    match s.manager
    case Free(last) =>
      && (last in {NotYet, Reloaded, ReloadCancelled} ==> s.state == Active && s.registered)
      && (last == Removed ==> s.state == Unloaded && !s.registered)
      && (last == UnloadAbandoned ==> s.state != Active && s.registered)
    case Busy(op, before, phase) =>
      && s.registered
      && s.state == (if phase.Retired? then Unloaded else Draining)
      && (phase.Swapped? ==> op.Reload?)
      && (phase.Retired? ==> op.Unload?)
      && s.module_ == (if phase.Swapped? then op.incoming.module_ else before)
  }

  /** A drain that ended by reading zero lets no guard exist until the operation is over. */
  predicate QuietSwap(s: Slot) {
    s.manager.Busy? && s.manager.phase in {Drained(false), Swapped(false), Retired(false)} ==> NoGuard(s)
  }

  /** Unless some swap was forced, every running call runs the module the slot holds now. */
  predicate NoStaleCall(s: Slot) {
    s.forcedSwaps == 0 ==>
      forall c :: 0 <= c < |s.callers| && s.callers[c].Guarded? && s.callers[c].loaded.Some?
        ==> s.callers[c].loaded.value == s.module_
  }

  /** The clock has advanced by every sleep taken, and no sleep begins after the deadline. */
  predicate WaitTimed(s: Slot) {
    s.manager.Busy? ==>
      match s.manager.phase
      case Polling(start, naps) => start + NAP * naps <= s.clock && NAP * naps <= DRAIN_TIMEOUT
      case Comparing(start, naps) => start + NAP * naps <= s.clock && NAP * naps <= DRAIN_TIMEOUT
      case Napping(start, naps, wake) =>
        && start + NAP * naps <= wake < start + DRAIN_TIMEOUT + NAP
        && 1 <= naps && NAP * naps <= DRAIN_TIMEOUT
      case _ => true
  }

  predicate Inv(s: Slot) {
    CounterExact(s) && ManagerConsistent(s) && QuietSwap(s) && NoStaleCall(s) && WaitTimed(s)
  }

  lemma CallerKeepsCounter(s: Slot, step: Step)
    requires CounterExact(s) && step.OfCaller() && CallerNext(s, step).Some?
    ensures CounterExact(CallerNext(s, step).value)
  {
    var t := CallerNext(s, step).value;
    OccupantsUpdate(s.callers, step.c, t.callers[step.c]);
    assert t.callers == s.callers[step.c := t.callers[step.c]];
  }

  lemma CallerKeepsQuiet(s: Slot, step: Step)
    requires Inv(s) && step.OfCaller() && CallerNext(s, step).Some?
    ensures QuietSwap(CallerNext(s, step).value)
  {
    var t := CallerNext(s, step).value;
    assert t.callers[step.c].Guarded? ==> s.callers[step.c].Guarded? || s.state == Active;
    assert forall c :: 0 <= c < |s.callers| && c != step.c ==> t.callers[c] == s.callers[c];
  }

  lemma CallerKeepsInv(s: Slot, step: Step)
    requires Inv(s) && step.OfCaller() && CallerNext(s, step).Some?
    ensures Inv(CallerNext(s, step).value)
  {
    CallerKeepsCounter(s, step);
    CallerKeepsQuiet(s, step);
    var t := CallerNext(s, step).value;
    assert forall c :: 0 <= c < |s.callers| && c != step.c ==> t.callers[c] == s.callers[c];
    assert t == s.(activeCalls := t.activeCalls, callers := t.callers);
  }

  lemma ManagerKeepsInv(s: Slot)
    requires Inv(s) && s.manager.Busy? && ManagerNext(s).Some?
    ensures Inv(ManagerNext(s).value)
  {
    NoOccupants(s.callers);
  }

  lemma NextKeepsInv(s: Slot, step: Step)
    requires Inv(s) && Next(s, step).Some?
    ensures Inv(Next(s, step).value)
  {
    if step.OfCaller() {
      CallerKeepsInv(s, step);
    } else if step.Manage? {
      ManagerKeepsInv(s);
    } else if step.Spawn? {
      assert (s.callers + [Idle])[..|s.callers|] == s.callers;
    }
  }

  lemma {:induction false} RunKeepsInv(s: Slot, steps: seq<Step>)
    requires Inv(s) && Execute(s, steps).Some?
    ensures Inv(Execute(s, steps).value)
    decreases |steps|
  {
    if steps != [] {
      NextKeepsInv(s, steps[0]);
      RunKeepsInv(Next(s, steps[0]).value, steps[1..]);
    }
  }
}
