/**
The nano runtime as the object that changes step by step.  Each method is proved against RuntimeLoop; a
method that waits for room in a full queue never returns in the program, and leaves `stuck` set here.
*/
module Runtimes {
  import opened RuntimeLoop
  import opened StateStores
  import opened Wrappers

  class Runtime {
    const env: Environment
    const state: StateStore
    var plugins: seq<Plugin>
    var queue: seq<Event>
    var stuck: bool
    var time: nat
    ghost var log: seq<Entry>

    ghost function Now(): State
      reads this, state
    {
      State(plugins, state.namespaces, queue, stuck, time, log)
    }

    constructor (env: Environment)
      ensures this.env == env && fresh(state)
      ensures Now() == INIT
    {
      this.env := env;
      state := new StateStore();
      plugins, queue, stuck, time, log := [], [], false, 0, [];
    }

    ghost method Note(entry: Entry)
      modifies this`log
      ensures log == old(log) + [entry]
    {
      log := log + [entry];
    }

    /** An await: time passes and other tasks may get events into the queue. */
    method AwaitOthers()
      modifies this
      ensures Now() == Await(env, old(Now()))
    {
      var events := env.injects(time);
      time := time + 1;
      ghost var start := Now();
      var i := 0;
      while i < |events| && |queue| < CAPACITY
        invariant i <= |events|
        invariant Inject(Now(), events[i..]) == Inject(start, events)
      {
        assert events[i..][0] == events[i] && events[i..][1..] == events[i + 1..];
        queue := queue + [events[i]];
        Note(Injected(events[i]));
        i := i + 1;
      }
    }

    /** event_tx.send(event).await, with the loop itself as the sender. */
    method Send(event: Event)
      modifies this
      ensures Now() == Emit(env, old(Now()), event)
    {
      AwaitOthers();
      if |queue| >= CAPACITY {
        stuck := true;
      } else {
        queue := queue + [event];
        Note(Emitted(event));
      }
    }

    method AddPlugin(plugin: Plugin, initialised: bool)
      modifies this
      ensures Now() == Add(env, old(Now()), plugin, initialised)
    {
      if stuck { return; }
      AwaitOthers();
      if initialised {
        plugins := plugins + [plugin];
        Note(Loaded(plugin));
        Send(PluginLoaded(plugin.name));
      }
    }

    method ExecuteAction(name: string, action: Action)
      modifies this, state
      ensures Now() == RunAction(env, old(Now()), name, action)
    {
      Note(Executed(name, action));
      match action {
        case SendMessage(to, content) =>
          var result := env.sends(time);
          AwaitOthers();
          Note(Sent(to, content, result));
          if result.Some? {
            Send(MessageSent(to, result.value));
          }
        case StoreState(key, value) =>
          state.Set(name, key, value);
        case EmitEvent(kind, data) =>
          Send(Custom(kind, data));
        case Log(_) =>
      }
    }

    method ExecuteActions(name: string, actions: seq<Action>)
      modifies this, state
      ensures Now() == RunActions(env, old(Now()), name, actions)
    {
      hide RunAction;
      var i := 0;
      while i < |actions| && !stuck
        invariant i <= |actions|
        invariant RunActions(env, Now(), name, actions[i..]) == RunActions(env, old(Now()), name, actions)
      {
        assert actions[i..][0] == actions[i] && actions[i..][1..] == actions[i + 1..];
        ExecuteAction(name, actions[i]);
        i := i + 1;
      }
    }

    /** Everybody who subscribes gets the event, in the order of registration. */
    method DispatchEvent(event: Event)
      modifies this, state
      ensures Now() == Dispatch(env, old(Now()), event)
    {
      hide Await, RunActions;
      if stuck { return; }
      Note(Dispatched(event));
      var i := 0;
      ghost var start := Now();
      while i < |plugins| && !stuck
        invariant DispatchFrom(env, Now(), event, i) == DispatchFrom(env, start, event, 0)
        decreases |plugins| - i
      {
        if Subscribed(plugins[i], event) {
          HandleAndExecute(event, i);
        }
        i := i + 1;
      }
    }

    method HandleAndExecute(event: Event, i: nat)
      requires i < |plugins|
      modifies this, state
      ensures Now() == Deliver(env, old(Now()), event, i)
      ensures plugins == old(plugins)
    {
      hide Await, RunActions;
      var name := plugins[i].name;
      var context := state.Snapshot(name);
      var answer := plugins[i].handle(event, context, time);
      Note(Delivered(i, name, event, context, answer));
      AwaitOthers();
      if answer.Some? {
        ExecuteActions(name, answer.value);
      }
    }

    /** A tick of the poll timer. */
    method PollTransport(received: Option<seq<string>>)
      modifies this, state
      ensures Now() == Poll(env, old(Now()), received)
    {
      hide Await, Dispatch;
      if stuck { return; }
      AwaitOthers();
      if received.Some? {
        log := log + Receipts(received.value);
        ghost var start := Now();
        for i := 0 to |received.value|
          invariant DispatchMessages(env, Now(), received.value[i..]) == DispatchMessages(env, start, received.value)
        {
          assert received.value[i..][0] == received.value[i] && received.value[i..][1..] == received.value[i + 1..];
          DispatchEvent(MessageReceived(received.value[i]));
        }
      }
    }

    /** The branch of the loop that receives from its own queue. */
    method ReceiveEvent()
      modifies this, state
      ensures Now() == TakeEvent(env, old(Now()))
    {
      hide Dispatch;
      if stuck || queue == [] { return; }
      var event := queue[0];
      queue := queue[1..];
      Note(Taken(event));
      DispatchEvent(event);
    }

    /** One turn of `run`, whichever branch was chosen. */
    method Turn(input: Input)
      modifies this, state
      ensures Now() == Step(env, old(Now()), input)
    {
      hide Dispatch, Add, TakeEvent, Poll, Await;
      match input {
        case AddPlugin(plugin, initialised) => AddPlugin(plugin, initialised);
        case Tick(received) => PollTransport(received);
        case Idle => if !stuck { AwaitOthers(); }
        case Queued => ReceiveEvent();
        case ShutdownSignal =>
          if !stuck {
            Note(Signalled);
            DispatchEvent(Shutdown);
          }
      }
    }

    /** The loop, for every sequence of choices that `select!` can make. */
    method Run(inputs: seq<Input>)
      modifies this, state
      ensures Now() == Execute(env, old(Now()), inputs)
    {
      hide Step;
      for i := 0 to |inputs|
        invariant Now() == Execute(env, old(Now()), inputs[..i])
      {
        assert inputs[..i + 1][..i] == inputs[..i];
        Turn(inputs[i]);
      }
      assert inputs[..|inputs|] == inputs;
    }
  }
}
