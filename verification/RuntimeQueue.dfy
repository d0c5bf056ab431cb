/**
When the loop can get stuck on its own queue: the bound on a poll batch, derived from the number of
messages and of the event-emitting actions that the plugins answer with.
*/
module RuntimeQueue {
  import opened RuntimeLoop
  import opened StateStores
  import opened Wrappers

  /** Both a message that was sent and an event to emit put something into the queue. */
  predicate Emits(action: Action) {
    action.SendMessage? || action.EmitEvent?
  }

  function Emitting(actions: seq<Action>): nat {
    if actions == [] then 0 else (if Emits(actions[0]) then 1 else 0) + Emitting(actions[1..])
  }

  /** How many events came from outside, and how many actions were executed that emit one. */
  function Injections(log: seq<Entry>): nat {
    if log == [] then 0 else Injections(log[..|log| - 1]) + if log[|log| - 1].Injected? then 1 else 0
  }

  function Emissions(log: seq<Entry>): nat {
    if log == [] then 0
    else Emissions(log[..|log| - 1]) + if log[|log| - 1].Executed? && Emits(log[|log| - 1].action) then 1 else 0
  }

  lemma CountsExtend(log: seq<Entry>, x: Entry)
    ensures Injections(log + [x]) == Injections(log) + if x.Injected? then 1 else 0
    ensures Emissions(log + [x]) == Emissions(log) + if x.Executed? && Emits(x.action) then 1 else 0
  {
    assert (log + [x])[..|log|] == log;
  }

  /** How many events the log accounts for, on top of what was queued at its start. */
  function Load(s: State): nat {
    Injections(s.log) + Emissions(s.log)
  }

  ghost predicate SendsSucceed(env: Environment) {
    forall n :: env.sends(n).Some?
  }

  /** How many events other tasks try to inject at the awaits from the a-th to before the b-th. */
  function Offered(env: Environment, a: nat, b: nat): nat
    decreases if a < b then b - a else 0
  {
    if a >= b then 0 else |env.injects(a)| + Offered(env, a + 1, b)
  }

  lemma {:induction false} OfferedSplits(env: Environment, a: nat, b: nat, c: nat)
    requires a <= b <= c
    ensures Offered(env, a, c) == Offered(env, a, b) + Offered(env, b, c)
    decreases b - a
  {
    if a < b { OfferedSplits(env, a + 1, b, c); }
  }

  /** From the a-th await on other tasks inject no more than `cap` events in all. */
  ghost predicate InjectsAtMost(env: Environment, a: nat, cap: nat) {
    forall b :: a <= b ==> Offered(env, a, b) <= cap
  }

  ghost predicate NobodyInjects(env: Environment) {
    forall n :: env.injects(n) == []
  }

  /** From s to t the queue grew by no more than was injected and emitted; by exactly that much if no send
      failed; and if the loop got stuck, more than the queue can hold was. */
  ghost predicate Accounted(env: Environment, s: State, t: State) {
    && (s.stuck ==> t == s)
    && |t.queue| <= CAPACITY
    && |t.queue| + Load(s) <= |s.queue| + Load(t)
    && (SendsSucceed(env) && !t.stuck ==> |t.queue| + Load(s) == |s.queue| + Load(t))
    && (t.stuck && !s.stuck ==> CAPACITY + Load(s) < |s.queue| + Load(t))
    && (NobodyInjects(env) ==> Injections(t.log) == Injections(s.log))
    && s.time <= t.time && Injections(t.log) <= Injections(s.log) + Offered(env, s.time, t.time)
  }

  lemma AccountedComposes(env: Environment, s: State, t: State, u: State)
    requires Accounted(env, s, t) && Accounted(env, t, u)
    ensures Accounted(env, s, u)
  {
    hide Injections, Emissions, SendsSucceed, NobodyInjects;
    OfferedSplits(env, s.time, t.time, u.time);
  }

  lemma {:induction false} InjectCounts(s: State, events: seq<Event>)
    requires |s.queue| <= CAPACITY
    ensures var t := Inject(s, events);
      && t.stuck == s.stuck && t.time == s.time && |t.queue| <= CAPACITY
      && |t.queue| - |s.queue| == Injections(t.log) - Injections(s.log) <= |events|
      && Injections(s.log) <= Injections(t.log) && Emissions(t.log) == Emissions(s.log)
    decreases |events|
  {
    hide Injections, Emissions;
    if events != [] && |s.queue| < CAPACITY {
      var t := Noted(s.(queue := s.queue + [events[0]]), Injected(events[0]));
      CountsExtend(s.log, Injected(events[0]));
      InjectCounts(t, events[1..]);
    }
  }

  lemma AwaitAccounted(env: Environment, s: State)
    requires |s.queue| <= CAPACITY && !s.stuck
    ensures Accounted(env, s, Await(env, s)) && Emissions(Await(env, s).log) == Emissions(s.log)
    ensures !Await(env, s).stuck && Await(env, s).time == s.time + 1
  {
    hide Injections, Emissions, Inject;
    InjectCounts(s.(time := s.time + 1), env.injects(s.time));
    assert Offered(env, s.time, s.time + 1) == |env.injects(s.time)|;
  }

  /** An action that got as far as emitting its event; `s` is the state before the action was noted. */
  lemma EmitAccounted(env: Environment, s: State, u: State, event: Event)
    requires !s.stuck && !u.stuck && |s.queue| <= CAPACITY && |u.queue| <= CAPACITY
    requires Emissions(u.log) == Emissions(s.log) + 1
    requires |u.queue| + Load(s) + 1 <= |s.queue| + Load(u)
    requires SendsSucceed(env) ==> |u.queue| + Load(s) + 1 == |s.queue| + Load(u)
    requires NobodyInjects(env) ==> Injections(u.log) == Injections(s.log)
    requires s.time <= u.time && Injections(u.log) <= Injections(s.log) + Offered(env, s.time, u.time)
    ensures Accounted(env, s, Emit(env, u, event)) && Emissions(Emit(env, u, event).log) == Emissions(s.log) + 1
  {
    hide Injections, Emissions, Await, SendsSucceed, NobodyInjects;
    AwaitAccounted(env, u);
    CountsExtend(Await(env, u).log, Emitted(event));
    OfferedSplits(env, s.time, u.time, u.time + 1);
    hide Offered;
  }

  lemma RunActionAccounted(env: Environment, s: State, name: string, action: Action)
    requires |s.queue| <= CAPACITY && !s.stuck
    ensures Accounted(env, s, RunAction(env, s, name, action))
    ensures Emissions(RunAction(env, s, name, action).log) == Emissions(s.log) + if Emits(action) then 1 else 0
  {
    hide Injections, Emissions, Await, Emit;
    var u := Noted(s, Executed(name, action));
    CountsExtend(s.log, Executed(name, action));
    match action
    case SendMessage(to, content) =>
      AwaitAccounted(env, u);
      var v := Noted(Await(env, u), Sent(to, content, env.sends(u.time)));
      CountsExtend(Await(env, u).log, Sent(to, content, env.sends(u.time)));
      if env.sends(u.time).Some? {
        EmitAccounted(env, s, v, MessageSent(to, env.sends(u.time).value));
      }
    case EmitEvent(kind, data) => EmitAccounted(env, s, u, Custom(kind, data));
    case _ =>
  }

  lemma {:induction false} RunActionsAccounted(env: Environment, s: State, name: string, actions: seq<Action>)
    requires |s.queue| <= CAPACITY
    ensures var t := RunActions(env, s, name, actions);
      && Accounted(env, s, t)
      && Emissions(t.log) <= Emissions(s.log) + Emitting(actions)
      && (!t.stuck ==> Emissions(t.log) == Emissions(s.log) + Emitting(actions))
    decreases |actions|
  {
    hide Injections, Emissions, RunAction, SendsSucceed, NobodyInjects;
    if !s.stuck && actions != [] {
      var t := RunAction(env, s, name, actions[0]);
      RunActionAccounted(env, s, name, actions[0]);
      RunActionsAccounted(env, t, name, actions[1..]);
      AccountedComposes(env, s, t, RunActions(env, t, name, actions[1..]));
    }
  }

  // ---------- the budget of an event ----------

  /** What is known about the answers of a handler: nothing, a limit on the emitting actions in each, or
      that it always succeeds and each has exactly that many. */
  datatype Knowledge = Nothing | Within | Exactly

  ghost predicate Conforms(plugin: Plugin, limit: nat, known: Knowledge) {
    match known
    case Nothing => true
    case Within => forall event, snapshot, n: nat ::
      plugin.handle(event, snapshot, n).Some? ==> Emitting(plugin.handle(event, snapshot, n).value) <= limit
    case Exactly => forall event, snapshot, n: nat ::
      plugin.handle(event, snapshot, n).Some? && Emitting(plugin.handle(event, snapshot, n).value) == limit
  }

  ghost predicate AllConform(plugins: seq<Plugin>, limits: seq<nat>, known: Knowledge) {
    |limits| == |plugins| && forall i :: 0 <= i < |plugins| ==> Conforms(plugins[i], limits[i], known)
  }

  /** The most that the subscribers from the i-th on emit for one event. */
  function Budget(plugins: seq<Plugin>, limits: seq<nat>, event: Event, i: nat): nat
    requires |limits| == |plugins|
    decreases if i < |plugins| then |plugins| - i else 0
  {
    if i >= |plugins| then 0
    else (if Subscribed(plugins[i], event) then limits[i] else 0) + Budget(plugins, limits, event, i + 1)
  }

  lemma {:induction false} BudgetByKind(plugins: seq<Plugin>, limits: seq<nat>, event: Event, other: Event, i: nat)
    requires |limits| == |plugins| && KindOf(event) == KindOf(other)
    ensures Budget(plugins, limits, event, i) == Budget(plugins, limits, other, i)
    decreases if i < |plugins| then |plugins| - i else 0
  {
    if i < |plugins| {
      BudgetByKind(plugins, limits, event, other, i + 1);
    }
  }

  /** The accounts of a stretch that may emit at most `budget` events, or that emits all of them. */
  ghost predicate Spends(env: Environment, s: State, t: State, budget: nat, known: Knowledge) {
    && Accounted(env, s, t)
    && (!known.Nothing? ==> Emissions(t.log) <= Emissions(s.log) + budget)
    && (known.Exactly? && !t.stuck ==> Emissions(t.log) == Emissions(s.log) + budget)
  }

  lemma SpendsComposes(env: Environment, s: State, t: State, u: State, b: nat, c: nat, known: Knowledge)
    requires Spends(env, s, t, b, known) && Spends(env, t, u, c, known)
    requires t.stuck ==> u == t
    ensures Spends(env, s, u, b + c, known)
  {
    AccountedComposes(env, s, t, u);
    hide Injections, Emissions, Accounted;
  }

  lemma DeliverSpends(env: Environment, s: State, event: Event, i: nat, limit: nat, known: Knowledge)
    requires |s.queue| <= CAPACITY && !s.stuck && i < |s.plugins|
    requires Conforms(s.plugins[i], limit, known)
    ensures Spends(env, s, Deliver(env, s, event, i), limit, known)
  {
    hide Injections, Emissions, Await, RunActions, SendsSucceed, NobodyInjects, SnapshotOf;
    var p := s.plugins[i];
    var snapshot := SnapshotOf(s.store, p.name);
    var answer := p.handle(event, snapshot, s.time);
    var x := Delivered(i, p.name, event, snapshot, answer);
    CountsExtend(s.log, x);
    AwaitAccounted(env, Noted(s, x));
    if answer.Some? {
      var u := Await(env, Noted(s, x));
      RunActionsAccounted(env, u, p.name, answer.value);
      AccountedComposes(env, s, u, RunActions(env, u, p.name, answer.value));
    }
  }

  lemma {:induction false} DispatchFromSpends(env: Environment, s: State, event: Event, i: nat, limits: seq<nat>,
                                              known: Knowledge)
    requires |s.queue| <= CAPACITY
    requires AllConform(s.plugins, limits, known)
    ensures Spends(env, s, DispatchFrom(env, s, event, i), Budget(s.plugins, limits, event, i), known)
    decreases if i < |s.plugins| then |s.plugins| - i else 0
  {
    hide Injections, Emissions, Deliver, SendsSucceed, NobodyInjects, Conforms;
    if !s.stuck && i < |s.plugins| {
      if Subscribed(s.plugins[i], event) {
        DeliverSpends(env, s, event, i, limits[i], known);
        var t := Deliver(env, s, event, i);
        DispatchFromSpends(env, t, event, i + 1, limits, known);
        SpendsComposes(env, s, t, DispatchFrom(env, t, event, i + 1), limits[i],
                       Budget(s.plugins, limits, event, i + 1), known);
      } else {
        DispatchFromSpends(env, s, event, i + 1, limits, known);
      }
    }
  }

  lemma DispatchSpends(env: Environment, s: State, event: Event, limits: seq<nat>, known: Knowledge)
    requires |s.queue| <= CAPACITY
    requires AllConform(s.plugins, limits, known)
    ensures Spends(env, s, Dispatch(env, s, event), Budget(s.plugins, limits, event, 0), known)
  {
    hide Injections, Emissions, DispatchFrom, SendsSucceed, NobodyInjects, AllConform;
    if !s.stuck {
      CountsExtend(s.log, Dispatched(event));
      DispatchFromSpends(env, Noted(s, Dispatched(event)), event, 0, limits, known);
    }
  }

  /** The most that one received message makes the plugins emit. */
  function MessageBudget(plugins: seq<Plugin>, limits: seq<nat>): nat
    requires |limits| == |plugins|
  {
    Budget(plugins, limits, MessageReceived(""), 0)
  }

  lemma {:induction false} MessagesSpend(env: Environment, s: State, messages: seq<string>, limits: seq<nat>,
                                         known: Knowledge)
    requires |s.queue| <= CAPACITY
    requires AllConform(s.plugins, limits, known)
    ensures Spends(env, s, DispatchMessages(env, s, messages), |messages| * MessageBudget(s.plugins, limits), known)
    decreases |messages|
  {
    hide Injections, Emissions, Dispatch, SendsSucceed, NobodyInjects, Conforms, Budget;
    if messages != [] {
      var event, b := MessageReceived(messages[0]), MessageBudget(s.plugins, limits);
      BudgetByKind(s.plugins, limits, event, MessageReceived(""), 0);
      DispatchSpends(env, s, event, limits, known);
      var t := Dispatch(env, s, event);
      MessagesSpend(env, t, messages[1..], limits, known);
      assert |messages| * b == b + |messages[1..]| * b;
      SpendsComposes(env, s, t, DispatchMessages(env, t, messages[1..]), b, |messages[1..]| * b, known);
    }
  }

  lemma PollSpends(env: Environment, s: State, messages: seq<string>, limits: seq<nat>, known: Knowledge)
    requires |s.queue| <= CAPACITY && !s.stuck
    requires AllConform(s.plugins, limits, known)
    ensures Spends(env, s, Poll(env, s, Some(messages)), |messages| * MessageBudget(s.plugins, limits), known)
  {
    hide Injections, Emissions, Await, SendsSucceed, NobodyInjects, AllConform, Budget, DispatchMessages;
    AwaitAccounted(env, s);
    var u := Await(env, s);
    var v := u.(log := u.log + Receipts(messages));
    ReceiptsCountNothing(u.log, messages);
    MessagesSpend(env, v, messages, limits, known);
    AccountedComposes(env, s, v, DispatchMessages(env, v, messages));
  }

  lemma {:induction false} ReceiptsCountNothing(log: seq<Entry>, messages: seq<string>)
    ensures Injections(log + Receipts(messages)) == Injections(log)
    ensures Emissions(log + Receipts(messages)) == Emissions(log)
    decreases |messages|
  {
    hide Injections, Emissions;
    if messages == [] {
      assert log + Receipts(messages) == log;
    } else {
      var x := Received(messages[0]);
      CountsExtend(log, x);
      ReceiptsCountNothing(log + [x], messages[1..]);
      assert log + Receipts(messages) == log + [x] + Receipts(messages[1..]);
    }
  }

  // ---------- the bound ----------

  /** A batch gets the loop stuck only if what was queued before it, what was injected meanwhile and what
      its own actions emitted come to more than the queue can hold. */
  lemma OnlyAnOverfullQueueBlocks(env: Environment, s: State, messages: seq<string>)
    requires |s.queue| <= CAPACITY && !s.stuck
    ensures var t := Poll(env, s, Some(messages));
      t.stuck ==> |s.queue| + (Injections(t.log) - Injections(s.log)) + (Emissions(t.log) - Emissions(s.log)) > 256
  {
    hide Injections, Emissions, Poll, SendsSucceed, NobodyInjects, Budget;
    PollSpends(env, s, messages, seq(|s.plugins|, i => 0), Nothing);
  }

  /** The bound from the messages and the plugins: if other tasks inject at most `cap` events, the messages
      times the emitting answers to each must fit beside them and what is queued. */
  lemma BatchFitsInQueue(env: Environment, s: State, messages: seq<string>, limits: seq<nat>, cap: nat)
    requires |s.queue| <= CAPACITY && !s.stuck && AllConform(s.plugins, limits, Within)
    requires InjectsAtMost(env, s.time, cap)
    ensures |s.queue| + cap + |messages| * MessageBudget(s.plugins, limits) <= 256
        ==> !Poll(env, s, Some(messages)).stuck
  {
    hide Injections, Emissions, Poll, SendsSucceed, NobodyInjects, AllConform, Budget;
    PollSpends(env, s, messages, limits, Within);
    assert Offered(env, s.time, Poll(env, s, Some(messages)).time) <= cap;
  }

  /** The bound cannot be improved: with nothing injected, no send failing and plugins that always emit
      their limit, a batch beyond it always gets the loop stuck. */
  lemma BatchBoundIsTight(env: Environment, s: State, messages: seq<string>, limits: seq<nat>)
    requires |s.queue| <= CAPACITY && !s.stuck && AllConform(s.plugins, limits, Exactly) && SendsSucceed(env)
    requires NobodyInjects(env)
    ensures Poll(env, s, Some(messages)).stuck <==> |s.queue| + |messages| * MessageBudget(s.plugins, limits) > 256
  {
    hide Injections, Emissions, Poll, Budget;
    PollSpends(env, s, messages, limits, Exactly);
  }

  /** A plugin that answers every message with one event, and surroundings that do not interfere. */
  const ECHO: Plugin :=
    Plugin("echo", [MessageReceivedKind], (event, snapshot, time) => Some([EmitEvent("echo", Json(""))]))

  const SILENCE: Environment := Environment(n => Some(""), n => [])

  /** One such plugin is enough: its runtime gets stuck on a first poll of more than 256 messages. */
  lemma LargeBatchGetsStuck(messages: seq<string>)
    ensures Execute(SILENCE, INIT, [AddPlugin(ECHO, true), Queued, Tick(Some(messages))]).stuck
       <==> |messages| > 256
  {
    var s := EchoReady();
    ExecuteThree(SILENCE, INIT, AddPlugin(ECHO, true), Queued, Tick(Some(messages)));
    EchoBudget();
    assert |messages| * 1 == |messages|;
    hide Poll, AllConform, Budget, Execute;
    BatchBoundIsTight(SILENCE, s, messages, [1]);
  }

  lemma ExecuteThree(env: Environment, s: State, a: Input, b: Input, c: Input)
    ensures Execute(env, s, [a, b, c]) == Step(env, Step(env, Step(env, s, a), b), c)
  {
    hide Step;
    assert [a, b, c][..2] == [a, b] && [a, b][..1] == [a] && [a][..0] == [];
    assert Execute(env, s, [a]) == Step(env, s, a);
    assert Execute(env, s, [a, b]) == Step(env, Step(env, s, a), b);
  }

  lemma EchoBudget()
    ensures AllConform([ECHO], [1], Exactly) && MessageBudget([ECHO], [1]) == 1
  {
    assert Budget([ECHO], [1], MessageReceived(""), 1) == 0;
  }

  lemma EchoReady() returns (s: State)
    ensures s == Step(SILENCE, Step(SILENCE, INIT, AddPlugin(ECHO, true)), Queued)
    ensures s.plugins == [ECHO] && s.queue == [] && !s.stuck
  {
    var loaded := PluginLoaded("echo");
    var t := Step(SILENCE, INIT, AddPlugin(ECHO, true));
    assert t.queue == [loaded] && t.plugins == [ECHO] && !t.stuck;
    var u := Noted(Noted(t.(queue := t.queue[1..]), Taken(loaded)), Dispatched(loaded));
    assert DispatchFrom(SILENCE, u, loaded, 1) == u;
    assert !Subscribed(ECHO, loaded);
    assert DispatchFrom(SILENCE, u, loaded, 0) == u;
    s := Step(SILENCE, t, Queued);
  }

  /** Draining never blocks when no dispatched event makes the plugins emit more than one. */
  lemma DrainingNeedsNoRoom(env: Environment, s: State, limits: seq<nat>)
    requires |s.queue| <= CAPACITY && !s.stuck && AllConform(s.plugins, limits, Within)
    requires NobodyInjects(env)
    requires s.queue != [] && Budget(s.plugins, limits, s.queue[0], 0) <= 1
    ensures !TakeEvent(env, s).stuck
  {
    hide Injections, Emissions, Dispatch, SendsSucceed, NobodyInjects, AllConform, Budget;
    var u := Noted(s.(queue := s.queue[1..]), Taken(s.queue[0]));
    CountsExtend(s.log, Taken(s.queue[0]));
    DispatchSpends(env, u, s.queue[0], limits, Within);
  }
}
