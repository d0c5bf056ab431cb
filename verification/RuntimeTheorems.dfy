/** What holds of the nano runtime after every run, told from its inputs and its log. */
module RuntimeTheorems {
  import opened RuntimeLoop
  import opened Sequences
  import opened StateStores
  import opened Wrappers

  // ---------- readings of the log ----------

  /** The namespace of a name, replayed from the StoreState actions executed under that name. */
  function Replay(log: seq<Entry>, name: string): Namespace {
    if log == [] then map[] else
    var before := Replay(log[..|log| - 1], name);
    match log[|log| - 1]
    case Executed(n, StoreState(key, value)) => if n == name then before[key := value] else before
    case _ => before
  }

  /** Everything that was put into the queue, and everything that was taken out. */
  function Entered(log: seq<Entry>): seq<Event> {
    if log == [] then [] else
    var before := Entered(log[..|log| - 1]);
    match log[|log| - 1]
    case Injected(event) => before + [event]
    case Emitted(event) => before + [event]
    case _ => before
  }

  function Left(log: seq<Entry>): seq<Event> {
    if log == [] then [] else
    var before := Left(log[..|log| - 1]);
    match log[|log| - 1]
    case Taken(event) => before + [event]
    case _ => before
  }

  function LoadedPlugins(log: seq<Entry>): seq<Plugin> {
    if log == [] then [] else
    var before := LoadedPlugins(log[..|log| - 1]);
    match log[|log| - 1]
    case Loaded(plugin) => before + [plugin]
    case _ => before
  }

  /** The plugins from the i-th on that subscribe to the event, in registration order. */
  function Subscribers(plugins: seq<Plugin>, event: Event, i: nat): seq<(nat, Event)>
    decreases if i < |plugins| then |plugins| - i else 0
  {
    if i >= |plugins| then []
    else (if Subscribed(plugins[i], event) then [(i, event)] else []) + Subscribers(plugins, event, i + 1)
  }

  function Under(name: string, actions: seq<Action>): seq<(string, Action)> {
    if actions == [] then [] else [(name, actions[0])] + Under(name, actions[1..])
  }

  /** What was asked of the loop, each next to what the loop did about it. */
  datatype Books = Books(
    // Loads, receptions, events taken from the queue and signals, as they came; the events of those that
    // are to be dispatched, and the events that were.
    origins: seq<Entry>,
    arrived: seq<Event>,
    begun: seq<Event>,
    // The deliveries those events call for with the plugins loaded at the time, and those made.
    due: seq<(nat, Event)>,
    made: seq<(nat, Event)>,
    // The actions the handlers answered with, and those executed.
    asked: seq<(string, Action)>,
    done: seq<(string, Action)>,
    // The messages to send, and those given to the transport.
    outgoing: seq<(string, string)>,
    posted: seq<(string, string)>,
    // The events that actions, sends and loads call for, and those emitted.
    caused: seq<Event>,
    emitted: seq<Event>)

  const BLANK: Books := Books([], [], [], [], [], [], [], [], [], [], [])

  function Arrive(b: Books, plugins: seq<Plugin>, x: Entry, event: Event): Books {
    b.(origins := b.origins + [x], arrived := b.arrived + [event], due := b.due + Subscribers(plugins, event, 0))
  }

  function Booked(b: Books, plugins: seq<Plugin>, x: Entry): Books {
    match x
    case Received(text) => Arrive(b, plugins, x, MessageReceived(text))
    case Taken(event) => Arrive(b, plugins, x, event)
    case Signalled => Arrive(b, plugins, x, Shutdown)
    case Loaded(plugin) => b.(origins := b.origins + [x], caused := b.caused + [PluginLoaded(plugin.name)])
    case Dispatched(event) => b.(begun := b.begun + [event])
    case Delivered(i, name, event, _, answer) =>
      b.(made := b.made + [(i, event)], asked := b.asked + if answer.Some? then Under(name, answer.value) else [])
    case Executed(name, action) =>
      var c := b.(done := b.done + [(name, action)]);
      (match action
       case SendMessage(to, content) => c.(outgoing := c.outgoing + [(to, content)])
       case EmitEvent(kind, data) => c.(caused := c.caused + [Custom(kind, data)])
       case _ => c)
    case Sent(to, content, result) =>
      b.(posted := b.posted + [(to, content)],
         caused := b.caused + if result.Some? then [MessageSent(to, result.value)] else [])
    case Emitted(event) => b.(emitted := b.emitted + [event])
    case Injected(_) => b
  }

  function BooksOf(log: seq<Entry>): Books {
    if log == [] then BLANK
    else Booked(BooksOf(log[..|log| - 1]), LoadedPlugins(log[..|log| - 1]), log[|log| - 1])
  }

  // ---------- the invariant ----------

  /** The delivery went to the plugin registered at its index, showed it the replayed namespace of its own
      name, and recorded that plugin's answer. */
  ghost predicate DeliveryExact(before: seq<Entry>, x: Entry)
    requires x.Delivered?
  {
    && x.index < |LoadedPlugins(before)|
    && x.name == LoadedPlugins(before)[x.index].name
    && x.snapshot == Replay(before, x.name)
    && exists time: nat :: x.answer == LoadedPlugins(before)[x.index].handle(x.event, x.snapshot, time)
  }

  /** Deliveries are exact, and the result of a send is one that the transport gave. */
  ghost predicate EntryExact(env: Environment, before: seq<Entry>, x: Entry) {
    && (x.Delivered? ==> DeliveryExact(before, x))
    && (x.Sent? ==> exists time: nat :: x.result == env.sends(time))
  }

  ghost predicate EntriesExact(env: Environment, log: seq<Entry>) {
    forall k :: 0 <= k < |log| ==> EntryExact(env, log[..k], log[k])
  }

  ghost predicate StoreReplays(s: State) {
    forall name :: SnapshotOf(s.store, name) == Replay(s.log, name)
  }

  /** First in, first out, nothing lost and nothing made up. */
  ghost predicate QueueIsFifo(s: State) {
    |s.queue| <= CAPACITY && Entered(s.log) == Left(s.log) + s.queue
  }

  /** What holds even in the middle of a dispatch. */
  ghost predicate Steady(env: Environment, s: State) {
    && StoreReplays(s)
    && EntriesExact(env, s.log)
    && QueueIsFifo(s)
    && s.plugins == LoadedPlugins(s.log)
  }

  /** Actions and sends have had their effect: every message to send was given to the transport, and every
      event called for was emitted, but for the one that a stuck loop is still trying to emit. */
  ghost predicate Balanced(b: Books, stuck: bool) {
    && b.posted == b.outgoing
    && (if stuck then b.emitted < b.caused && |b.caused| == |b.emitted| + 1 else b.emitted == b.caused)
  }

  /** Every event that arrived was dispatched, every delivery due was made, and every action asked for was
      executed, each once and in order; a stuck loop has done the first of them. */
  ghost predicate Settled(s: State) {
    var b := BooksOf(s.log);
    && Balanced(b, s.stuck)
    && (if s.stuck then b.begun <= b.arrived && b.made <= b.due && b.done <= b.asked
        else b.begun == b.arrived && b.made == b.due && b.done == b.asked)
  }

  ghost predicate Inv(env: Environment, s: State) {
    Steady(env, s) && Settled(s)
  }

  // ---------- one more entry ----------

  lemma {:induction false} ReplayExtends(log: seq<Entry>, x: Entry, name: string)
    ensures Replay(log + [x], name)
         == if x.Executed? && x.action.StoreState? && x.name == name
            then Replay(log, name)[x.action.key := x.action.value] else Replay(log, name)
  {
    assert (log + [x])[..|log|] == log;
  }

  lemma {:induction false} QueueReadingsExtend(log: seq<Entry>, x: Entry)
    ensures Entered(log + [x]) == if x.Injected? || x.Emitted? then Entered(log) + [x.event] else Entered(log)
    ensures Left(log + [x]) == if x.Taken? then Left(log) + [x.event] else Left(log)
    ensures LoadedPlugins(log + [x]) == if x.Loaded? then LoadedPlugins(log) + [x.plugin] else LoadedPlugins(log)
  {
    assert (log + [x])[..|log|] == log;
  }

  lemma {:induction false} BooksExtend(log: seq<Entry>, x: Entry)
    ensures BooksOf(log + [x]) == Booked(BooksOf(log), LoadedPlugins(log), x)
  {
    hide Booked;
    assert (log + [x])[..|log|] == log;
  }

  lemma {:induction false} EntriesExtend(env: Environment, log: seq<Entry>, x: Entry)
    requires EntriesExact(env, log) && EntryExact(env, log, x)
    ensures EntriesExact(env, log + [x])
  {
    hide EntryExact;
    forall k | 0 <= k < |log + [x]| ensures EntryExact(env, (log + [x])[..k], (log + [x])[k]) {
      if k < |log| {
        assert (log + [x])[..k] == log[..k];
      } else {
        assert (log + [x])[..k] == log;
      }
    }
  }

  /** Noting an entry and making the change it reports keeps the steady part of the invariant. */
  lemma {:induction false} NotingKeepsSteady(env: Environment, s: State, t: State, x: Entry)
    requires Steady(env, s) && t.log == s.log + [x] && |t.queue| <= CAPACITY
    requires t.plugins == if x.Loaded? then s.plugins + [x.plugin] else s.plugins
    requires t.store == if x.Executed? && x.action.StoreState?
                        then Stored(s.store, x.name, x.action.key, x.action.value) else s.store
    requires if x.Taken? then s.queue == [x.event] + t.queue
             else t.queue == s.queue + if x.Injected? || x.Emitted? then [x.event] else []
    requires EntryExact(env, s.log, x)
    ensures Steady(env, t)
  {
    hide Replay, Entered, Left, LoadedPlugins, EntriesExact, EntryExact, Stored, SnapshotOf;
    QueueReadingsExtend(s.log, x);
    EntriesExtend(env, s.log, x);
    forall name ensures SnapshotOf(t.store, name) == Replay(t.log, name) {
      ReplayExtends(s.log, x, name);
      if x.Executed? && x.action.StoreState? {
        NamespacesAreSeparate(s.store, x.name, x.action.key, x.action.value, name);
      }
    }
  }

  /** An entry that changes neither queue, plugins nor store. */
  lemma {:induction false} RemarkKeepsSteady(env: Environment, s: State, x: Entry)
    requires Steady(env, s) && (x.Received? || x.Signalled? || x.Dispatched? || x.Sent? || x.Delivered?)
    requires EntryExact(env, s.log, x)
    ensures Steady(env, Noted(s, x)) && BooksOf(Noted(s, x).log) == Booked(BooksOf(s.log), s.plugins, x)
  {
    hide EntryExact, BooksOf, Booked;
    SteadyFits(env, s);
    NotingKeepsSteady(env, s, Noted(s, x), x);
    BooksExtend(s.log, x);
  }

  lemma {:induction false} SteadyFits(env: Environment, s: State)
    requires Steady(env, s)
    ensures |s.queue| <= CAPACITY && s.plugins == LoadedPlugins(s.log)
    ensures forall name :: SnapshotOf(s.store, name) == Replay(s.log, name)
  {
  }

  // ---------- the queue ----------

  lemma {:induction false} InjectKeeps(env: Environment, s: State, events: seq<Event>)
    requires Steady(env, s)
    ensures var t := Inject(s, events); Steady(env, t) && BooksOf(t.log) == BooksOf(s.log) && t.stuck == s.stuck
    decreases |events|
  {
    hide Steady, BooksOf;
    if events != [] && |s.queue| < CAPACITY {
      var t := Noted(s.(queue := s.queue + [events[0]]), Injected(events[0]));
      NotingKeepsSteady(env, s, t, Injected(events[0]));
      BooksExtend(s.log, Injected(events[0]));
      InjectKeeps(env, t, events[1..]);
    }
  }

  lemma {:induction false} AwaitKeeps(env: Environment, s: State)
    requires Steady(env, s)
    ensures var t := Await(env, s); Steady(env, t) && BooksOf(t.log) == BooksOf(s.log) && t.stuck == s.stuck
  {
    hide BooksOf, EntriesExact, Replay, Entered, Left, LoadedPlugins, Inject;
    InjectKeeps(env, s.(time := s.time + 1), env.injects(s.time));
  }

  lemma {:induction false} EmitKeeps(env: Environment, s: State, event: Event)
    requires Steady(env, s) && !s.stuck
    ensures var t, b := Emit(env, s, event), BooksOf(s.log);
      Steady(env, t) && BooksOf(t.log) == if t.stuck then b else b.(emitted := b.emitted + [event])
  {
    hide BooksOf, EntriesExact, Replay, Entered, Left, LoadedPlugins, Await;
    AwaitKeeps(env, s);
    var t := Await(env, s);
    if |t.queue| < CAPACITY {
      NotingKeepsSteady(env, t, Emit(env, s, event), Emitted(event));
      BooksExtend(t.log, Emitted(event));
    }
  }

  /** The books agree on what came from outside, what it calls for, and what was delivered. */
  ghost predicate SameDeliveries(b: Books, c: Books) {
    && c.origins == b.origins && c.arrived == b.arrived && c.begun == b.begun
    && c.due == b.due && c.made == b.made && c.asked == b.asked
  }

  // ---------- actions and deliveries ----------

  lemma {:induction false} RunActionKeeps(env: Environment, s: State, name: string, action: Action)
    requires Steady(env, s) && !s.stuck && Balanced(BooksOf(s.log), false)
    ensures var t := RunAction(env, s, name, action);
      && Steady(env, t) && Balanced(BooksOf(t.log), t.stuck) && SameDeliveries(BooksOf(s.log), BooksOf(t.log))
      && BooksOf(t.log).done == BooksOf(s.log).done + [(name, action)]
  {
    hide BooksOf, Steady, Await, Emit, Stored;
    var x := Executed(name, action);
    var u := Noted(s, x);
    BooksExtend(s.log, x);
    SteadyFits(env, s);
    if action.StoreState? {
      NotingKeepsSteady(env, s, u.(store := Stored(s.store, name, action.key, action.value)), x);
    } else {
      NotingKeepsSteady(env, s, u, x);
      match action
      case SendMessage(to, content) => SendKeeps(env, s, u, name, to, content);
      case EmitEvent(kind, data) => EmitKeeps(env, u, Custom(kind, data));
      case _ =>
    }
  }

  lemma {:induction false} SendKeeps(env: Environment, s: State, u: State, name: string, to: string, content: string)
    requires Steady(env, u) && !u.stuck && u == Noted(s, Executed(name, SendMessage(to, content)))
    requires Balanced(BooksOf(s.log), false)
    requires var b := BooksOf(s.log);
      BooksOf(u.log) == b.(done := b.done + [(name, SendMessage(to, content))],
                           outgoing := b.outgoing + [(to, content)])
    ensures var t := RunAction(env, s, name, SendMessage(to, content));
      && Steady(env, t) && Balanced(BooksOf(t.log), t.stuck) && SameDeliveries(BooksOf(s.log), BooksOf(t.log))
      && BooksOf(t.log).done == BooksOf(s.log).done + [(name, SendMessage(to, content))]
  {
    hide BooksOf, Steady, Await, Emit;
    var result := env.sends(u.time);
    var v := Noted(Await(env, u), Sent(to, content, result));
    AwaitKeeps(env, u);
    RemarkKeepsSteady(env, Await(env, u), Sent(to, content, result));
    if result.Some? { EmitKeeps(env, v, MessageSent(to, result.value)); }
  }

  /** With these actions still to do, the delivery ends with all of them done, or stuck on the way. */
  lemma {:induction false} RunActionsKeeps(env: Environment, s: State, name: string, actions: seq<Action>)
    requires Steady(env, s) && Balanced(BooksOf(s.log), s.stuck)
    requires var b := BooksOf(s.log);
      if s.stuck then b.done <= b.asked else b.done + Under(name, actions) == b.asked
    ensures var t, b, c := RunActions(env, s, name, actions), BooksOf(s.log),
                           BooksOf(RunActions(env, s, name, actions).log);
      && Steady(env, t) && Balanced(c, t.stuck) && SameDeliveries(b, c)
      && (if t.stuck then c.done <= c.asked else c.done == c.asked)
    decreases |actions|
  {
    hide BooksOf, Steady, RunAction, Balanced;
    if !s.stuck && actions != [] {
      RunActionKeeps(env, s, name, actions[0]);
      var b := BooksOf(s.log);
      assert b.done + Under(name, actions) == b.done + [(name, actions[0])] + Under(name, actions[1..]);
      RunActionsKeeps(env, RunAction(env, s, name, actions[0]), name, actions[1..]);
    }
  }

  lemma {:induction false} DeliverKeeps(env: Environment, s: State, event: Event, i: nat)
    requires Steady(env, s) && !s.stuck && i < |s.plugins| && Balanced(BooksOf(s.log), false)
    requires BooksOf(s.log).done == BooksOf(s.log).asked
    ensures var t, b, c := Deliver(env, s, event, i), BooksOf(s.log), BooksOf(Deliver(env, s, event, i).log);
      && Steady(env, t) && Balanced(c, t.stuck)
      && c.origins == b.origins && c.arrived == b.arrived && c.begun == b.begun && c.due == b.due
      && c.made == b.made + [(i, event)]
      && (if t.stuck then c.done <= c.asked else c.done == c.asked)
  {
    hide BooksOf, Steady, Await, RunActions, SnapshotOf, Replay;
    var p := s.plugins[i];
    var snapshot := SnapshotOf(s.store, p.name);
    var answer := p.handle(event, snapshot, s.time);
    var x := Delivered(i, p.name, event, snapshot, answer);
    SteadyFits(env, s);
    assert DeliveryExact(s.log, x);
    RemarkKeepsSteady(env, s, x);
    AwaitKeeps(env, Noted(s, x));
    if answer.Some? {
      RunActionsKeeps(env, Await(env, Noted(s, x)), p.name, answer.value);
    }
  }

  // ---------- dispatch ----------

  /** From s to t the loop dispatched the events, owing the deliveries `due` for them, and is through with
      them unless it got stuck. */
  ghost predicate Served(env: Environment, s: State, t: State, events: seq<Event>, due: seq<(nat, Event)>) {
    var b, c := BooksOf(s.log), BooksOf(t.log);
    && Steady(env, t) && t.plugins == s.plugins && Balanced(c, t.stuck)
    && c.origins == b.origins && c.arrived == b.arrived && c.due == b.due
    && (if t.stuck then c.begun <= b.begun + events && c.made <= b.made + due && c.done <= c.asked
        else c.begun == b.begun + events && c.made == b.made + due && c.done == c.asked)
  }

  /** The loop is between two deliveries. */
  ghost predicate AtRest(env: Environment, s: State) {
    Steady(env, s) && !s.stuck && Balanced(BooksOf(s.log), false) && BooksOf(s.log).done == BooksOf(s.log).asked
  }

  lemma {:induction false} DispatchFromServes(env: Environment, s: State, event: Event, i: nat)
    requires AtRest(env, s)
    ensures Served(env, s, DispatchFrom(env, s, event, i), [], Subscribers(s.plugins, event, i))
    decreases if i < |s.plugins| then |s.plugins| - i else 0
  {
    hide BooksOf, Steady, Deliver, Balanced, Subscribed;
    if i < |s.plugins| {
      if Subscribed(s.plugins[i], event) {
        var t := Deliver(env, s, event, i);
        DeliverKeeps(env, s, event, i);
        var rest := Subscribers(s.plugins, event, i + 1);
        Associate(BooksOf(s.log).made, [(i, event)], rest);
        if !t.stuck { DispatchFromServes(env, t, event, i + 1); }
      } else {
        DispatchFromServes(env, s, event, i + 1);
      }
    }
  }

  lemma {:induction false} DispatchServes(env: Environment, s: State, event: Event)
    requires AtRest(env, s)
    ensures Served(env, s, Dispatch(env, s, event), [event], Subscribers(s.plugins, event, 0))
  {
    hide BooksOf, Steady, DispatchFrom, Subscribers, Balanced;
    RemarkKeepsSteady(env, s, Dispatched(event));
    var u := Noted(s, Dispatched(event));
    assert AtRest(env, u) by { BooksStayBalanced(BooksOf(s.log), event); }
    DispatchFromServes(env, u, event, 0);
  }

  lemma {:induction false} BooksStayBalanced(b: Books, event: Event)
    ensures Balanced(b.(begun := b.begun + [event]), false) == Balanced(b, false)
  {
  }

  function MessageEvents(messages: seq<string>): seq<Event> {
    if messages == [] then [] else [MessageReceived(messages[0])] + MessageEvents(messages[1..])
  }

  function MessagesDue(plugins: seq<Plugin>, messages: seq<string>): seq<(nat, Event)> {
    if messages == [] then []
    else Subscribers(plugins, MessageReceived(messages[0]), 0) + MessagesDue(plugins, messages[1..])
  }

  lemma {:induction false} MessagesServe(env: Environment, s: State, messages: seq<string>)
    requires AtRest(env, s)
    ensures Served(env, s, DispatchMessages(env, s, messages),
                   MessageEvents(messages), MessagesDue(s.plugins, messages))
    decreases |messages|
  {
    hide BooksOf, Steady, Dispatch, Subscribers, Balanced;
    if messages != [] {
      var event := MessageReceived(messages[0]);
      var t := Dispatch(env, s, event);
      DispatchServes(env, s, event);
      if t.stuck {
        StuckDispatchesNothing(env, t, messages[1..]);
      } else {
        MessagesServe(env, t, messages[1..]);
      }
      var b := BooksOf(s.log);
      var due := Subscribers(s.plugins, event, 0);
      assert b.begun + MessageEvents(messages) == b.begun + [event] + MessageEvents(messages[1..]);
      assert b.made + MessagesDue(s.plugins, messages) == b.made + due + MessagesDue(s.plugins, messages[1..]);
    }
  }

  lemma {:induction false} StuckDispatchesNothing(env: Environment, s: State, messages: seq<string>)
    requires s.stuck
    ensures DispatchMessages(env, s, messages) == s
    decreases |messages|
  {
    if messages != [] { StuckDispatchesNothing(env, s, messages[1..]); }
  }

  // ---------- one step ----------

  /** What an input brings to the loop, read off the input and the queue alone. */
  function Brings(s: State, input: Input): seq<Entry> {
    if s.stuck then [] else
    match input
    case AddPlugin(plugin, initialised) => if initialised then [Loaded(plugin)] else []
    case Tick(received) => if received.Some? then Receipts(received.value) else []
    case Idle => []
    case Queued => if s.queue == [] then [] else [Taken(s.queue[0])]
    case ShutdownSignal => [Signalled]
  }

  ghost predicate StepExact(env: Environment, s: State, input: Input, t: State) {
    Inv(env, t) && BooksOf(t.log).origins == BooksOf(s.log).origins + Brings(s, input)
  }

  lemma {:induction false} ServedSettles(env: Environment, s: State, t: State, events: seq<Event>,
                                         due: seq<(nat, Event)>)
    requires Served(env, s, t, events, due)
    requires BooksOf(s.log).arrived == BooksOf(s.log).begun + events && BooksOf(s.log).due == BooksOf(s.log).made + due
    ensures Inv(env, t) && BooksOf(t.log).origins == BooksOf(s.log).origins
  {
    hide BooksOf, Steady, Balanced;
  }

  lemma {:induction false} SettledRests(env: Environment, s: State)
    requires Inv(env, s) && !s.stuck
    ensures AtRest(env, s)
    ensures BooksOf(s.log).begun == BooksOf(s.log).arrived && BooksOf(s.log).made == BooksOf(s.log).due
  {
    hide BooksOf, Steady, Balanced;
  }

  lemma {:induction false} AddStep(env: Environment, s: State, plugin: Plugin, initialised: bool)
    requires Inv(env, s)
    ensures StepExact(env, s, AddPlugin(plugin, initialised), Add(env, s, plugin, initialised))
  {
    hide BooksOf, Steady, Await, Emit;
    if !s.stuck {
      AwaitKeeps(env, s);
      var u := Await(env, s);
      if initialised {
        var v := Noted(u.(plugins := u.plugins + [plugin]), Loaded(plugin));
        SteadyFits(env, u);
        NotingKeepsSteady(env, u, v, Loaded(plugin));
        BooksExtend(u.log, Loaded(plugin));
        EmitKeeps(env, v, PluginLoaded(plugin.name));
      }
    }
  }

  lemma {:induction false} ReceiptsKeep(env: Environment, s: State, messages: seq<string>)
    requires AtRest(env, s)
    ensures var t, b, c := s.(log := s.log + Receipts(messages)), BooksOf(s.log), BooksOf(s.log + Receipts(messages));
      && AtRest(env, t) && c.begun == b.begun && c.made == b.made && c.origins == b.origins + Receipts(messages)
      && c.arrived == b.arrived + MessageEvents(messages) && c.due == b.due + MessagesDue(s.plugins, messages)
    decreases |messages|
  {
    if messages == [] {
      NothingReceived(env, s);
    } else {
      var x := Received(messages[0]);
      AppendedReceipts(BooksOf(s.log), s.log, s.plugins, messages);
      hide BooksOf, Steady, Subscribers, Receipts, MessageEvents, MessagesDue;
      RemarkKeepsSteady(env, s, x);
      ReceiptsKeep(env, Noted(s, x), messages[1..]);
    }
  }

  lemma {:induction false} NothingReceived(env: Environment, s: State)
    requires AtRest(env, s)
    ensures s.(log := s.log + Receipts([])) == s && MessageEvents([]) == [] && MessagesDue(s.plugins, []) == []
  {
    assert s.log + [] == s.log;
  }

  lemma {:induction false} AppendedReceipts(b: Books, log: seq<Entry>, plugins: seq<Plugin>, messages: seq<string>)
    requires messages != []
    ensures var x, event, rest := Received(messages[0]), MessageReceived(messages[0]), messages[1..];
      && log + Receipts(messages) == log + [x] + Receipts(rest)
      && b.origins + Receipts(messages) == b.origins + [x] + Receipts(rest)
      && b.arrived + MessageEvents(messages) == b.arrived + [event] + MessageEvents(rest)
      && b.due + MessagesDue(plugins, messages) == b.due + Subscribers(plugins, event, 0) + MessagesDue(plugins, rest)
  {
    hide Subscribers;
    var x, event, rest := Received(messages[0]), MessageReceived(messages[0]), messages[1..];
    Associate(log, [x], Receipts(rest));
    Associate(b.origins, [x], Receipts(rest));
    Associate(b.arrived, [event], MessageEvents(rest));
    Associate(b.due, Subscribers(plugins, event, 0), MessagesDue(plugins, rest));
    hide MessageEvents, MessagesDue, Receipts;
  }

  lemma {:induction false} PollStep(env: Environment, s: State, messages: seq<string>)
    requires Inv(env, s) && !s.stuck
    ensures var t := Poll(env, s, Some(messages));
      Inv(env, t) && BooksOf(t.log).origins == BooksOf(s.log).origins + Receipts(messages)
  {
    hide BooksOf, Steady, Balanced, Await, DispatchMessages, Subscribers;
    SettledRests(env, s);
    AwaitKeeps(env, s);
    var u := Await(env, s);
    ReceiptsKeep(env, u, messages);
    var v := u.(log := u.log + Receipts(messages));
    MessagesServe(env, v, messages);
    ServedSettles(env, v, DispatchMessages(env, v, messages),
                  MessageEvents(messages), MessagesDue(v.plugins, messages));
  }

  /** An arrival of one event that is then dispatched. */
  lemma {:induction false} ArrivalStep(env: Environment, s: State, u: State, x: Entry, event: Event)
    requires Inv(env, s) && !s.stuck && Steady(env, u) && !u.stuck && u.plugins == s.plugins
    requires BooksOf(u.log) == Arrive(BooksOf(s.log), s.plugins, x, event)
    ensures Inv(env, Dispatch(env, u, event))
    ensures BooksOf(Dispatch(env, u, event).log).origins == BooksOf(s.log).origins + [x]
  {
    hide BooksOf, Steady, Dispatch, Subscribers;
    SettledRests(env, s);
    assert AtRest(env, u);
    DispatchServes(env, u, event);
    ServedSettles(env, u, Dispatch(env, u, event), [event], Subscribers(u.plugins, event, 0));
  }

  lemma {:induction false} TakeStep(env: Environment, s: State)
    requires Inv(env, s)
    ensures StepExact(env, s, Queued, TakeEvent(env, s))
  {
    hide BooksOf, Steady, Settled, Dispatch;
    if !s.stuck && s.queue != [] {
      var x := Taken(s.queue[0]);
      var u := Noted(s.(queue := s.queue[1..]), x);
      SteadyFits(env, s);
      NotingKeepsSteady(env, s, u, x);
      BooksExtend(s.log, x);
      ArrivalStep(env, s, u, x, s.queue[0]);
    }
  }

  lemma {:induction false} SignalStep(env: Environment, s: State)
    requires Inv(env, s)
    ensures StepExact(env, s, ShutdownSignal, Step(env, s, ShutdownSignal))
  {
    hide BooksOf, Steady, Settled, Dispatch;
    if !s.stuck {
      RemarkKeepsSteady(env, s, Signalled);
      ArrivalStep(env, s, Noted(s, Signalled), Signalled, Shutdown);
    }
  }

  lemma {:induction false} AwaitSettled(env: Environment, s: State)
    requires Inv(env, s)
    ensures Inv(env, Await(env, s)) && BooksOf(Await(env, s).log).origins == BooksOf(s.log).origins
  {
    hide BooksOf, Steady, Await;
    AwaitKeeps(env, s);
  }

  /** Every step keeps the invariant, and brings the loop exactly what its input says. */
  lemma {:induction false} StepIsExact(env: Environment, s: State, input: Input)
    requires Inv(env, s)
    ensures StepExact(env, s, input, Step(env, s, input))
  {
    hide BooksOf, Inv, Dispatch, Add, TakeEvent, Await, DispatchMessages;
    match input
    case AddPlugin(plugin, initialised) => AddStep(env, s, plugin, initialised);
    case Tick(received) =>
      if !s.stuck {
        if received.Some? { PollStep(env, s, received.value); } else { AwaitSettled(env, s); }
      }
    case Idle => AwaitSettled(env, s);
    case Queued => TakeStep(env, s);
    case ShutdownSignal => SignalStep(env, s);
  }

  // ---------- whole runs ----------

  lemma {:induction false} InitHolds(env: Environment)
    ensures Inv(env, INIT)
  {
  }

  /** What the inputs of a run bring, step after step. */
  function AllBrought(env: Environment, inputs: seq<Input>): seq<Entry> {
    if inputs == [] then [] else
    var before := inputs[..|inputs| - 1];
    AllBrought(env, before) + Brings(Execute(env, INIT, before), inputs[|inputs| - 1])
  }

  lemma {:induction false} RunKeepsInv(env: Environment, inputs: seq<Input>)
    ensures Inv(env, Execute(env, INIT, inputs))
    ensures BooksOf(Execute(env, INIT, inputs).log).origins == AllBrought(env, inputs)
  {
    if inputs == [] {
      InitHolds(env);
    } else {
      hide Inv, Step, BooksOf, Brings;
      RunKeepsInv(env, inputs[..|inputs| - 1]);
      StepIsExact(env, Execute(env, INIT, inputs[..|inputs| - 1]), inputs[|inputs| - 1]);
    }
  }

  /** A name's namespace is what the StoreState actions executed under that name make of an empty one, and
      every handler was shown exactly that. */
  lemma {:induction false} StateIsIsolated(env: Environment, inputs: seq<Input>, name: string)
    ensures var s := Execute(env, INIT, inputs);
      && SnapshotOf(s.store, name) == Replay(s.log, name)
      && EntriesExact(env, s.log)
  {
    RunKeepsInv(env, inputs);
  }

  /** What came to the loop is what the inputs and the queue brought, and its events were dispatched in
      that order, each once; a stuck loop has dispatched the first of them. */
  lemma {:induction false} ArrivalsAreDispatched(env: Environment, inputs: seq<Input>)
    ensures var s := Execute(env, INIT, inputs);
      var b := BooksOf(s.log);
      b.origins == AllBrought(env, inputs) && (if s.stuck then b.begun <= b.arrived else b.begun == b.arrived)
  {
    hide BooksOf;
    RunKeepsInv(env, inputs);
  }

  /** Each message received, event taken from the queue and shutdown signal reached exactly the plugins
      that were loaded then and subscribe to it, in registration order, and every action they answered with
      was executed once, in order, under their name; a stuck loop has done a prefix of both. */
  lemma {:induction false} EventsReachTheirSubscribers(env: Environment, inputs: seq<Input>)
    ensures var s := Execute(env, INIT, inputs);
      var b := BooksOf(s.log);
      && b.origins == AllBrought(env, inputs) && s.plugins == LoadedPlugins(s.log)
      && (if s.stuck then b.made <= b.due && b.done <= b.asked else b.made == b.due && b.done == b.asked)
  {
    hide BooksOf;
    RunKeepsInv(env, inputs);
  }

  /** The loop gave every message that an action sends to the transport, and emitted exactly the events
      that its actions, the transport's answers and its loads call for, in that order; a stuck loop lacks
      one last event. */
  lemma {:induction false} EventsAreCaused(env: Environment, inputs: seq<Input>)
    ensures var s := Execute(env, INIT, inputs); Balanced(BooksOf(s.log), s.stuck) && EntriesExact(env, s.log)
  {
    hide BooksOf, Balanced;
    RunKeepsInv(env, inputs);
  }

  /** What left the queue is what entered it, in order, but for what is still there. */
  lemma {:induction false} QueueLosesNothing(env: Environment, inputs: seq<Input>)
    ensures var s := Execute(env, INIT, inputs);
      Entered(s.log) == Left(s.log) + s.queue && |s.queue| <= 256
  {
    RunKeepsInv(env, inputs);
  }
}
