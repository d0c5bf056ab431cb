/** What single actions, subscriptions and loads do, spelled out for the words RuntimeTheorems uses. */
module RuntimeEffects {
  import opened RuntimeLoop
  import opened RuntimeTheorems
  import opened StateStores
  import opened Wrappers

  // ---------- subscriptions ----------

  /** One subscription against one event. */
  predicate Wants(kind: EventKind, event: Event) {
    match kind
    case MessageReceivedKind => event.MessageReceived?
    case MessageSentKind => event.MessageSent?
    case ContactAddedKind => event.ContactAdded?
    case ContactRemovedKind => event.ContactRemoved?
    case PluginLoadedKind => event.PluginLoaded?
    case PluginUnloadedKind => event.PluginUnloaded?
    case TimerKind => event.Timer?
    case ShutdownKind => event.Shutdown?
    case CustomKind(name) => event.Custom? && event.kind == name
    case All => true
  }

  /** A plugin subscribes to an event if one of its subscriptions is for all events, for that sort of event,
      or for custom events of that name. */
  lemma {:induction false} SubscribedMeans(plugin: Plugin, event: Event)
    ensures Subscribed(plugin, event)
      <==> exists i :: 0 <= i < |plugin.subscriptions| && Wants(plugin.subscriptions[i], event)
  {
  }

  /** The deliveries due are those to the subscribers, each once, in the order of registration. */
  lemma {:induction false} SubscribersAre(plugins: seq<Plugin>, event: Event, i: nat)
    ensures var due := Subscribers(plugins, event, i);
      && (forall k: nat, e :: (k, e) in due <==> e == event && i <= k < |plugins| && Subscribed(plugins[k], event))
      && forall a, b :: 0 <= a < b < |due| ==> due[a].0 < due[b].0
    decreases if i < |plugins| then |plugins| - i else 0
  {
    if i < |plugins| {
      var more := Subscribers(plugins, event, i + 1);
      SubscribersAre(plugins, event, i + 1);
      hide Subscribed;
      assert forall a :: 0 <= a < |more| ==> (more[a].0, more[a].1) in more;
      hide Subscribers;
      assert Subscribers(plugins, event, i) == (if Subscribed(plugins[i], event) then [(i, event)] else []) + more;
    }
  }

  // ---------- the books ----------

  lemma {:induction false} ReceiptsAre(messages: seq<string>)
    ensures |Receipts(messages)| == |messages|
    ensures forall i :: 0 <= i < |messages| ==> Receipts(messages)[i] == Received(messages[i])
  {
    if messages != [] { ReceiptsAre(messages[1..]); }
  }

  lemma {:induction false} UnderIs(name: string, actions: seq<Action>)
    ensures |Under(name, actions)| == |actions|
    ensures forall i :: 0 <= i < |actions| ==> Under(name, actions)[i] == (name, actions[i])
  {
    if actions != [] { UnderIs(name, actions[1..]); }
  }

  /** The events that receptions, events taken from the queue and signals stand for, in their order. */
  function EventsOf(origins: seq<Entry>): seq<Event> {
    if origins == [] then [] else
    var before := EventsOf(origins[..|origins| - 1]);
    match origins[|origins| - 1]
    case Received(text) => before + [MessageReceived(text)]
    case Taken(event) => before + [event]
    case Signalled => before + [Shutdown]
    case _ => before
  }

  /** The messages among executed actions, in their order. */
  function MessagesOf(done: seq<(string, Action)>): seq<(string, string)> {
    if done == [] then [] else
    var before, last := MessagesOf(done[..|done| - 1]), done[|done| - 1].1;
    if last.SendMessage? then before + [(last.to, last.content)] else before
  }

  lemma {:induction false} EventsOfSnoc(origins: seq<Entry>, x: Entry)
    ensures EventsOf(origins + [x]) == EventsOf(origins) + EventsOf([x])
  {
    assert (origins + [x])[..|origins|] == origins && [x][..0] == [];
  }

  lemma {:induction false} MessagesOfSnoc(done: seq<(string, Action)>, x: (string, Action))
    ensures MessagesOf(done + [x]) == MessagesOf(done) + if x.1.SendMessage? then [(x.1.to, x.1.content)] else []
  {
    assert (done + [x])[..|done|] == done;
  }

  /** The books read the log as it is meant: what arrived are the events of the origins, and what is to be
      sent are the messages among the executed actions. */
  lemma {:induction false} BooksAreMeant(log: seq<Entry>)
    ensures BooksOf(log).arrived == EventsOf(BooksOf(log).origins)
    ensures BooksOf(log).outgoing == MessagesOf(BooksOf(log).done)
  {
    if log != [] {
      var x := log[|log| - 1];
      var b := BooksOf(log[..|log| - 1]);
      BooksAreMeant(log[..|log| - 1]);
      EventsOfSnoc(b.origins, x);
      assert [x][..0] == [];
      if x.Executed? { MessagesOfSnoc(b.done, (x.name, x.action)); }
      hide MessagesOf;
    }
  }

  // ---------- namespaces ----------

  /** The k-th entry is the last that stores something under this name and key. */
  predicate LastStore(log: seq<Entry>, name: string, key: string, k: int) {
    && 0 <= k < |log| && Stores(log[k], name, key)
    && forall later :: k < later < |log| ==> !Stores(log[later], name, key)
  }

  predicate Stores(x: Entry, name: string, key: string) {
    x.Executed? && x.name == name && x.action.StoreState? && x.action.key == key
  }

  /** One more entry changes the namespace only by storing under this name, and then only at its key. */
  lemma {:induction false} LastEntryReplayed(log: seq<Entry>, name: string, key: string)
    requires log != []
    ensures var before, x := Replay(log[..|log| - 1], name), log[|log| - 1];
      if Stores(x, name, key) then key in Replay(log, name) && Replay(log, name)[key] == x.action.value
      else && (key in Replay(log, name) <==> key in before)
           && (key in before ==> Replay(log, name)[key] == before[key])
  {
  }

  /** The key's value in a name's namespace is the one stored last under that name. */
  lemma {:induction false} ReplayIsLastStored(log: seq<Entry>, name: string, key: string, k: int)
    requires LastStore(log, name, key, k)
    ensures key in Replay(log, name) && Replay(log, name)[key] == log[k].action.value
  {
    var n := |log| - 1;
    LastEntryReplayed(log, name, key);
    if k < n {
      hide Stores, Replay;
      assert log[..n][k] == log[k] && forall later :: k < later < n ==> log[..n][later] == log[later];
      ReplayIsLastStored(log[..n], name, key, k);
    }
  }

  /** A name's namespace has no key that was not stored under that name. */
  lemma {:induction false} NothingElseStored(log: seq<Entry>, name: string, key: string) returns (k: int)
    requires key in Replay(log, name)
    ensures LastStore(log, name, key, k)
  {
    var n := |log| - 1;
    LastEntryReplayed(log, name, key);
    if Stores(log[n], name, key) {
      k := n;
    } else {
      hide Stores, Replay;
      k := NothingElseStored(log[..n], name, key);
      assert log[..n][k] == log[k] && forall later :: k < later < n ==> log[..n][later] == log[later];
    }
  }

  // ---------- actions and loads ----------

  ghost predicate EndsWith<T>(s: seq<T>, last: T) { s != [] && s[|s| - 1] == last }

  /** Injections extend the queue and the log and change nothing else. */
  lemma {:induction false} InjectionsExtend(s: State, events: seq<Event>)
    ensures var t := Inject(s, events);
      t == s.(queue := t.queue, log := t.log) && s.queue <= t.queue && s.log <= t.log
    decreases |events|
  {
    if events != [] && |s.queue| < CAPACITY {
      InjectionsExtend(Noted(s.(queue := s.queue + [events[0]]), Injected(events[0])), events[1..]);
    }
  }

  /** A send that got through queues its event behind everything else; without room the loop is stuck. */
  lemma {:induction false} EmitEffect(env: Environment, s: State, event: Event)
    ensures var t := Emit(env, s, event);
      && t == s.(queue := t.queue, log := t.log, time := s.time + 1, stuck := t.stuck)
      && s.queue <= t.queue && s.log <= t.log
      && (t.stuck && !s.stuck ==> |t.queue| >= 256)
      && (!t.stuck ==> EndsWith(t.queue, event) && EndsWith(t.log, Emitted(event)))
  {
    InjectionsExtend(s.(time := s.time + 1), env.injects(s.time));
  }

  /** A message goes to the transport, and its answer becomes a MessageSent event with the same recipient and
      the id answered; a value is stored under the plugin's name; an event is queued; a log line does nothing. */
  lemma {:induction false} ActionEffect(env: Environment, s: State, name: string, action: Action)
    requires !s.stuck
    ensures var t := RunAction(env, s, name, action);
      && s.log + [Executed(name, action)] <= t.log && s.queue <= t.queue && t.plugins == s.plugins
      && match action
        case SendMessage(to, content) =>
          && t.store == s.store && Sent(to, content, env.sends(s.time)) in t.log
          && (env.sends(s.time).None? ==> !t.stuck && EndsWith(t.log, Sent(to, content, None)))
          && (env.sends(s.time).Some? && !t.stuck ==> EndsWith(t.queue, MessageSent(to, env.sends(s.time).value)))
        case StoreState(key, value) =>
          && t == s.(store := t.store, log := s.log + [Executed(name, action)])
          && name in t.store && t.store[name] == (if name in s.store then s.store[name] else map[])[key := value]
          && t.store - {name} == s.store - {name}
        case EmitEvent(kind, data) =>
          t.store == s.store && (!t.stuck ==> EndsWith(t.queue, Custom(kind, data)))
        case Log(_) => t == s.(log := s.log + [Executed(name, action)])
  {
    var u := Noted(s, Executed(name, action));
    hide Emit, Await;
    match action
    case SendMessage(to, content) => SendEffect(env, u, name, to, content);
    case EmitEvent(kind, data) => EmitEffect(env, u, Custom(kind, data));
    case _ =>
  }

  lemma {:induction false} SendEffect(env: Environment, u: State, name: string, to: string, content: string)
    requires !u.stuck
    ensures var result := env.sends(u.time);
      var v := Noted(Await(env, u), Sent(to, content, result));
      && u.log <= v.log && u.queue <= v.queue && v.store == u.store && v.plugins == u.plugins && !v.stuck
      && EndsWith(v.log, Sent(to, content, result))
      && (result.Some? ==>
            var t := Emit(env, v, MessageSent(to, result.value));
            && v.log <= t.log && v.queue <= t.queue && t.store == v.store && Sent(to, content, result) in t.log
            && (!t.stuck ==> EndsWith(t.queue, MessageSent(to, result.value))))
  {
    hide Emit;
    var result := env.sends(u.time);
    var v := Noted(Await(env, u), Sent(to, content, result));
    InjectionsExtend(u.(time := u.time + 1), env.injects(u.time));
    hide Inject, Await;
    assert v.log[|v.log| - 1] == Sent(to, content, result);
    if result.Some? {
      EmitEffect(env, v, MessageSent(to, result.value));
      assert Emit(env, v, MessageSent(to, result.value)).log[|v.log| - 1] == Sent(to, content, result);
    }
  }

  /** A load appends exactly the plugin and announces its name; a failed init keeps nothing of it. */
  lemma {:induction false} LoadEffect(env: Environment, s: State, plugin: Plugin, initialised: bool)
    requires !s.stuck
    ensures var t := Add(env, s, plugin, initialised);
      && t.store == s.store && s.queue <= t.queue && s.log <= t.log
      && t.plugins == s.plugins + (if initialised then [plugin] else [])
      && (initialised && !t.stuck ==> EndsWith(t.queue, PluginLoaded(plugin.name)) && Loaded(plugin) in t.log)
  {
    hide Emit;
    var u := Await(env, s);
    InjectionsExtend(s.(time := s.time + 1), env.injects(s.time));
    hide Inject, Await;
    if initialised {
      var v := Noted(u.(plugins := u.plugins + [plugin]), Loaded(plugin));
      EmitEffect(env, v, PluginLoaded(plugin.name));
      assert v.log[|u.log|] == Loaded(plugin);
      assert Emit(env, v, PluginLoaded(plugin.name)).log[|u.log|] == Loaded(plugin);
    }
  }
}
