/**
The nano runtime's event loop on values: dispatch to the subscribed plugins, execution of what they
return, and the bounded queue the loop feeds and drains itself.  The log is a history variable.
*/
module RuntimeLoop {
  import opened StateStores
  import opened Wrappers

  /** mpsc::channel(256). */
  const CAPACITY: nat := 256

  datatype Event =
    | MessageReceived(text: string)
    | MessageSent(to: string, txId: string)
    | ContactAdded(address: string, name: string)
    | ContactRemoved(address: string)
    | PluginLoaded(name: string)
    | PluginUnloaded(name: string)
    | Timer(timestamp: int)
    | Shutdown
    | Custom(kind: string, data: Value)

  datatype EventKind =
    | MessageReceivedKind
    | MessageSentKind
    | ContactAddedKind
    | ContactRemovedKind
    | PluginLoadedKind
    | PluginUnloadedKind
    | TimerKind
    | ShutdownKind
    | CustomKind(kind: string)
    | All

  function KindOf(event: Event): EventKind {
    match event
    case MessageReceived(_) => MessageReceivedKind
    case MessageSent(_, _) => MessageSentKind
    case ContactAdded(_, _) => ContactAddedKind
    case ContactRemoved(_) => ContactRemovedKind
    case PluginLoaded(_) => PluginLoadedKind
    case PluginUnloaded(_) => PluginUnloadedKind
    case Timer(_) => TimerKind
    case Shutdown => ShutdownKind
    case Custom(kind, _) => CustomKind(kind)
  }

  datatype Action =
    | SendMessage(to: string, content: string)
    | StoreState(key: string, value: Value)
    | EmitEvent(kind: string, data: Value)
    | Log(message: string)

  /** A handler may answer differently each time it is called, so it also gets the time of the call.
      None is a handler that failed. */
  type Handler = (Event, Namespace, nat) -> Option<seq<Action>>

  datatype Plugin = Plugin(name: string, subscriptions: seq<EventKind>, handle: Handler)

  predicate Subscribed(plugin: Plugin, event: Event) {
    All in plugin.subscriptions || KindOf(event) in plugin.subscriptions
  }

  /** What the loop cannot control: the outcome of each send, and the events other tasks try to inject
      at each await. */
  datatype Environment = Environment(sends: nat -> Option<string>, injects: nat -> seq<Event>)

  /** What the log records: what came to the loop from outside, what it put into and took from its queue,
      and what it did. */
  datatype Entry =
    | Loaded(plugin: Plugin)
    | Received(text: string)
    | Signalled
    | Injected(event: Event)
    | Emitted(event: Event)
    | Taken(event: Event)
    | Dispatched(event: Event)
    | Delivered(index: nat, name: string, event: Event, snapshot: Namespace, answer: Option<seq<Action>>)
    | Executed(name: string, action: Action)
    | Sent(to: string, content: string, result: Option<string>)

  /** `stuck` is the loop waiting for room in the queue that only the loop itself could make. */
  datatype State = State(
    plugins: seq<Plugin>,
    store: Namespaces,
    queue: seq<Event>,
    stuck: bool,
    time: nat,
    log: seq<Entry>)

  const INIT: State := State([], map[], [], false, 0, [])

  function Noted(s: State, entry: Entry): State {
    s.(log := s.log + [entry])
  }

  // ---------- the queue ----------

  /** Other tasks inject what there is room for; the rest keeps waiting in them. */
  function Inject(s: State, events: seq<Event>): (t: State)
    ensures t.plugins == s.plugins
    decreases |events|
  {
    if events == [] || |s.queue| >= CAPACITY then s
    else Inject(Noted(s.(queue := s.queue + [events[0]]), Injected(events[0])), events[1..])
  }

  function Await(env: Environment, s: State): (t: State)
    ensures t.plugins == s.plugins
  {
    Inject(s.(time := s.time + 1), env.injects(s.time))
  }

  /** event_tx.send(event).await */
  function Emit(env: Environment, s: State, event: Event): (t: State)
    ensures t.plugins == s.plugins
  {
    var u := Await(env, s);
    if |u.queue| >= CAPACITY then u.(stuck := true)
    else Noted(u.(queue := u.queue + [event]), Emitted(event))
  }

  // ---------- dispatch ----------

  function RunAction(env: Environment, s: State, name: string, action: Action): (t: State)
    ensures t.plugins == s.plugins
  {
    var u := Noted(s, Executed(name, action));
    match action
    case SendMessage(to, content) =>
      var result := env.sends(u.time);
      var v := Noted(Await(env, u), Sent(to, content, result));
      (match result
       case None => v
       case Some(id) => Emit(env, v, MessageSent(to, id)))
    case StoreState(key, value) => u.(store := Stored(u.store, name, key, value))
    case EmitEvent(kind, data) => Emit(env, u, Custom(kind, data))
    case Log(_) => u
  }

  function RunActions(env: Environment, s: State, name: string, actions: seq<Action>): (t: State)
    ensures t.plugins == s.plugins
    decreases |actions|
  {
    if s.stuck || actions == [] then s
    else RunActions(env, RunAction(env, s, name, actions[0]), name, actions[1..])
  }

  /** Plugin i gets the event with a copy of its namespace, and its actions are run. */
  function Deliver(env: Environment, s: State, event: Event, i: nat): (t: State)
    requires i < |s.plugins|
    ensures t.plugins == s.plugins
  {
    var p := s.plugins[i];
    var snapshot := SnapshotOf(s.store, p.name);
    var answer := p.handle(event, snapshot, s.time);
    var u := Await(env, Noted(s, Delivered(i, p.name, event, snapshot, answer)));
    match answer
    case None => u
    case Some(actions) => RunActions(env, u, p.name, actions)
  }

  function DispatchFrom(env: Environment, s: State, event: Event, i: nat): (t: State)
    ensures t.plugins == s.plugins
    decreases if i < |s.plugins| then |s.plugins| - i else 0
  {
    if s.stuck || i >= |s.plugins| then s
    else if !Subscribed(s.plugins[i], event) then DispatchFrom(env, s, event, i + 1)
    else
      DispatchFrom(env, Deliver(env, s, event, i), event, i + 1)
  }

  function Dispatch(env: Environment, s: State, event: Event): (t: State)
    ensures t.plugins == s.plugins
  {
    if s.stuck then s else DispatchFrom(env, Noted(s, Dispatched(event)), event, 0)
  }

  // ---------- what the owner of the loop does ----------

  function DispatchMessages(env: Environment, s: State, messages: seq<string>): (t: State)
    ensures t.plugins == s.plugins
    decreases |messages|
  {
    if messages == [] then s
    else DispatchMessages(env, Dispatch(env, s, MessageReceived(messages[0])), messages[1..])
  }

  function Receipts(messages: seq<string>): seq<Entry> {
    if messages == [] then [] else [Received(messages[0])] + Receipts(messages[1..])
  }

  /** add_plugin: nothing is kept of a plugin whose init fails; otherwise the others are told. */
  function Add(env: Environment, s: State, plugin: Plugin, initialised: bool): State {
    if s.stuck then s else
    var u := Await(env, s);
    if !initialised then u
    else Emit(env, Noted(u.(plugins := u.plugins + [plugin]), Loaded(plugin)), PluginLoaded(plugin.name))
  }

  /** One poll of the transport: None is a failed recv. */
  function Poll(env: Environment, s: State, received: Option<seq<string>>): State {
    if s.stuck then s else
    var u := Await(env, s);
    if received.None? then u
    else DispatchMessages(env, u.(log := u.log + Receipts(received.value)), received.value)
  }

  function TakeEvent(env: Environment, s: State): State {
    if s.stuck || s.queue == [] then s
    else Dispatch(env, Noted(s.(queue := s.queue[1..]), Taken(s.queue[0])), s.queue[0])
  }

  datatype Input =
    | AddPlugin(plugin: Plugin, initialised: bool)
    | Tick(received: Option<seq<string>>)
    | Idle
    | Queued
    | ShutdownSignal

  function Step(env: Environment, s: State, input: Input): State {
    match input
    case AddPlugin(plugin, initialised) => Add(env, s, plugin, initialised)
    case Tick(received) => Poll(env, s, received)
    case Idle => if s.stuck then s else Await(env, s)
    case Queued => TakeEvent(env, s)
    case ShutdownSignal => if s.stuck then s else Dispatch(env, Noted(s, Signalled), Shutdown)
  }

  function Execute(env: Environment, s: State, inputs: seq<Input>): State {
    if inputs == [] then s
    else Step(env, Execute(env, s, inputs[..|inputs| - 1]), inputs[|inputs| - 1])
  }
}
