/** The three copies of the tool index: when they agree, and what a refresh changes. */
module ToolIndexTheorems {
  import opened BridgeTheorems
  import opened LineFraming
  import opened PluginBridges
  import opened Text
  import opened Wrappers

  predicate ColonFree(s: string) { ':' !in s }

  /** The union of all per-plugin sets. */
  function Union(byPlugin: map<string, set<string>>): set<string> {
    set p, name | p in byPlugin && name in byPlugin[p] :: name
  }

  /** Names of the other plugins' tools. */
  function UnionOfOthers(b: Bridge, pluginId: string): set<string> { Union(b.byPlugin - {pluginId}) }

  function Names(pluginId: string, tools: seq<string>): set<string> {
    set t | t in tools :: "plugin:" + pluginId + ":" + t
  }

  /** registeredTools, the per-plugin sets and what is live outside (beyond `others`) name the same tools. */
  predicate Agree(b: Bridge, others: set<string>) {
    b.registered == Union(b.byPlugin) && b.external == others + b.registered
  }

  // ---------- what the operations do to the index ----------

  lemma {:induction false} RegisterAllEffect(b: Bridge, pluginId: string, tools: seq<string>)
    ensures var t := RegisterAll(b, pluginId, tools);
      && t.registered == b.registered + Names(pluginId, tools)
      && t.external == b.external + Names(pluginId, tools)
      && ToolsOf(t, pluginId) == ToolsOf(b, pluginId) + Names(pluginId, tools)
      && t.byPlugin - {pluginId} == b.byPlugin - {pluginId}
    decreases |tools|
  {
    if tools == [] {
      assert Names(pluginId, tools) == {};
    } else {
      var next := Register(b, pluginId, tools[0]);
      RegisterAllEffect(next, pluginId, tools[1..]);
      assert Names(pluginId, tools) == {ToolName(pluginId, tools[0])} + Names(pluginId, tools[1..]) by {
        assert forall t :: t in tools <==> t == tools[0] || t in tools[1..];
      }
      assert next.byPlugin - {pluginId} == b.byPlugin - {pluginId};
    }
  }

  lemma UnionSplits(b: Bridge, pluginId: string)
    ensures Union(b.byPlugin) == ToolsOf(b, pluginId) + UnionOfOthers(b, pluginId)
  {
    var rest := b.byPlugin - {pluginId};
    forall name | name in Union(b.byPlugin) ensures name in ToolsOf(b, pluginId) + Union(rest) {
      var p :| p in b.byPlugin && name in b.byPlugin[p];
      assert p != pluginId ==> p in rest && rest[p] == b.byPlugin[p];
    }
    forall name | name in Union(rest) ensures name in Union(b.byPlugin) {
      var p :| p in rest && name in rest[p];
      assert p in b.byPlugin && b.byPlugin[p] == rest[p];
    }
  }

  /** A refresh replaces the named plugin's tools and leaves every other plugin's set alone. */
  lemma RefreshChangesOnlyItsPlugin(b: Bridge, pluginId: string, tools: seq<string>)
    ensures var t := Refresh(b, pluginId, tools);
      && ToolsOf(t, pluginId) == Names(pluginId, tools)
      && (forall q :: q != pluginId ==> ToolsOf(t, q) == ToolsOf(b, q))
      && t.registered == (b.registered - ToolsOf(b, pluginId)) + Names(pluginId, tools)
      && t.external == (b.external - ToolsOf(b, pluginId)) + Names(pluginId, tools)
  {
    var f := Forget(b, pluginId);
    var t := Refresh(b, pluginId, tools);
    RegisterAllEffect(f, pluginId, tools);
    assert f.byPlugin - {pluginId} == b.byPlugin - {pluginId};
    forall q | q != pluginId ensures ToolsOf(t, q) == ToolsOf(b, q) {
      assert q in t.byPlugin <==> q in t.byPlugin - {pluginId};
      assert q in b.byPlugin <==> q in b.byPlugin - {pluginId};
      assert q in t.byPlugin ==> (t.byPlugin - {pluginId})[q] == t.byPlugin[q];
      assert q in b.byPlugin ==> (b.byPlugin - {pluginId})[q] == b.byPlugin[q];
    }
  }

  /** From an agreeing index a refresh leads to an agreeing one exactly when every old tool of the plugin
      that another plugin also claims is registered again. */
  lemma RefreshAgreesExactly(b: Bridge, others: set<string>, pluginId: string, tools: seq<string>)
    requires Agree(b, others) && others !! b.registered
    ensures Agree(Refresh(b, pluginId, tools), others)
       <==> ToolsOf(b, pluginId) * UnionOfOthers(b, pluginId) <= Names(pluginId, tools)
  {
    var t := Refresh(b, pluginId, tools);
    var old_, rest, new_ := ToolsOf(b, pluginId), UnionOfOthers(b, pluginId), Names(pluginId, tools);
    RefreshChangesOnlyItsPlugin(b, pluginId, tools);
    RegisterAllEffect(Forget(b, pluginId), pluginId, tools);
    assert t.byPlugin - {pluginId} == b.byPlugin - {pluginId} by {
      assert Forget(b, pluginId).byPlugin - {pluginId} == b.byPlugin - {pluginId};
    }
    UnionSplits(b, pluginId);
    UnionSplits(t, pluginId);
    hide Union, Refresh, Names, ToolsOf, UnionOfOthers;
    assert t.registered == ((old_ + rest) - old_) + new_;
    assert Union(t.byPlugin) == new_ + rest;
    Rearrange(old_, rest, new_);
    assert t.external == others + t.registered;
  }

  lemma Rearrange(old_: set<string>, rest: set<string>, new_: set<string>)
    ensures ((old_ + rest) - old_) + new_ == new_ + rest <==> old_ * rest <= new_
  {
    var left, right := ((old_ + rest) - old_) + new_, new_ + rest;
    if left == right {
      forall x | x in old_ * rest ensures x in new_ { assert x in right; }
    }
  }

  // ---------- colon-free ids keep the plugins apart ----------

  lemma ToolNamesKeepPluginsApart(p: string, a: string, q: string, c: string)
    requires ColonFree(p) && ColonFree(q) && ToolName(p, a) == ToolName(q, c)
    ensures p == q && a == c
  {
    var s, t := p + ":" + a, q + ":" + c;
    assert ToolName(p, a) == "plugin:" + s && ToolName(q, c) == "plugin:" + t;
    assert ToolName(p, a)[7..] == s && ToolName(q, c)[7..] == t;
    IndexOfFirst(s, ':', |p|);
    IndexOfFirst(t, ':', |q|);
    assert s[..|p|] == p && t[..|q|] == q;
    assert s[|p| + 1..] == a && t[|q| + 1..] == c;
  }

  /** Every per-plugin set holds names of that plugin, whose id is colon-free. */
  ghost predicate Owned(b: Bridge) {
    forall p, name :: p in b.byPlugin && name in b.byPlugin[p] ==> ColonFree(p) && IsToolOf(p, name)
  }

  ghost predicate IsToolOf(p: string, name: string) { exists tool :: name == ToolName(p, tool) }

  /** No tool outside the bridge looks like a plugin tool. */
  ghost predicate Foreign(others: set<string>) {
    forall p, tool :: ToolName(p, tool) !in others
  }

  ghost predicate IndexInv(b: Bridge, others: set<string>) {
    Agree(b, others) && Owned(b) && Foreign(others)
  }

  lemma OwnedDisjoint(b: Bridge, others: set<string>, pluginId: string)
    requires IndexInv(b, others) && ColonFree(pluginId)
    ensures others !! b.registered && ToolsOf(b, pluginId) !! UnionOfOthers(b, pluginId)
  {
    forall name | name in b.registered ensures name !in others {
      var p :| p in b.byPlugin && name in b.byPlugin[p];
      assert IsToolOf(p, name);
    }
    forall name | name in ToolsOf(b, pluginId) && name in UnionOfOthers(b, pluginId) ensures false {
      var rest := b.byPlugin - {pluginId};
      var q :| q in rest && name in rest[q];
      assert q in b.byPlugin && b.byPlugin[q] == rest[q];
      assert IsToolOf(pluginId, name) && IsToolOf(q, name);
      var a :| name == ToolName(pluginId, a);
      var c :| name == ToolName(q, c);
      ToolNamesKeepPluginsApart(pluginId, a, q, c);
    }
  }

  lemma {:induction false} RegisterAllOwned(b: Bridge, pluginId: string, tools: seq<string>)
    requires Owned(b) && ColonFree(pluginId)
    ensures Owned(RegisterAll(b, pluginId, tools))
    decreases |tools|
  {
    if tools != [] {
      var next := Register(b, pluginId, tools[0]);
      assert IsToolOf(pluginId, ToolName(pluginId, tools[0]));
      forall p, name | p in next.byPlugin && name in next.byPlugin[p] ensures ColonFree(p) && IsToolOf(p, name) {
        if p != pluginId || name != ToolName(pluginId, tools[0]) {
          assert p in b.byPlugin && name in b.byPlugin[p];
        }
      }
      RegisterAllOwned(next, pluginId, tools[1..]);
    }
  }

  lemma RefreshKeepsIndex(b: Bridge, others: set<string>, pluginId: string, tools: seq<string>)
    requires IndexInv(b, others) && ColonFree(pluginId)
    ensures IndexInv(Refresh(b, pluginId, tools), others)
  {
    OwnedDisjoint(b, others, pluginId);
    RefreshAgreesExactly(b, others, pluginId, tools);
    var f := Forget(b, pluginId);
    assert Owned(f) by {
      forall p, name | p in f.byPlugin && name in f.byPlugin[p] ensures ColonFree(p) && IsToolOf(p, name) {
        assert p in b.byPlugin && b.byPlugin[p] == f.byPlugin[p];
      }
    }
    RegisterAllOwned(f, pluginId, tools);
  }

  lemma RegisterKeepsIndex(b: Bridge, others: set<string>, pluginId: string, tool: string)
    requires IndexInv(b, others) && ColonFree(pluginId)
    ensures IndexInv(Register(b, pluginId, tool), others)
  {
    var t := RegisterAll(b, pluginId, [tool]);
    assert [tool][0] == tool && [tool][1..] == [];
    assert RegisterAll(Register(b, pluginId, tool), pluginId, []) == Register(b, pluginId, tool);
    RegisterAllOwned(b, pluginId, [tool]);
    RegisterAllEffect(b, pluginId, [tool]);
    UnionSplits(b, pluginId);
    UnionSplits(t, pluginId);
  }

  lemma ClearKeepsIndex(b: Bridge, others: set<string>)
    requires IndexInv(b, others)
    ensures IndexInv(UnregisterAll(b), others) && UnregisterAll(b).external == others
  {
    OwnedDisjoint(b, others, "");
  }

  /** Plugin ids come from the host; its manifests only allow colon-free ones. */
  ghost predicate SendsColonFreeIds(parse: Parser) {
    forall line :: parse(line).Tools? ==> ColonFree(parse(line).pluginId)
  }

  lemma {:induction false} LinesKeepIndex(b: Bridge, others: set<string>, parse: Parser, lines: seq<string>)
    requires IndexInv(b, others) && SendsColonFreeIds(parse)
    ensures IndexInv(HandleLines(b, parse, lines), others)
    decreases |lines|
  {
    if lines != [] {
      match parse(lines[0]) {
        case Tools(pluginId, Some(tools)) => RefreshKeepsIndex(b, others, pluginId, tools);
        case _ =>
      }
      hide IndexInv, Refresh;
      SameIndex(b, HandleLine(b, parse, lines[0]), others);
      LinesKeepIndex(HandleLine(b, parse, lines[0]), others, parse, lines[1..]);
    }
  }

  lemma SameIndex(a: Bridge, b: Bridge, others: set<string>)
    requires IndexInv(a, others)
    ensures a.registered == b.registered && a.byPlugin == b.byPlugin && a.external == b.external ==> IndexInv(b, others)
  {
  }

  lemma EventKeepsIndex(b: Bridge, others: set<string>, parse: Parser, e: Event)
    requires IndexInv(b, others) && SendsColonFreeIds(parse) && Next(b, parse, e).Some?
    requires e.RegisterTool? ==> ColonFree(e.pluginId)
    ensures IndexInv(Next(b, parse, e).value, others)
  {
    hide IndexInv, Agree, Owned, Foreign;
    match e
    case Data(chunk) =>
      LinesKeepIndex(b, others, parse, CompleteLines(b.buffer + chunk));
      SameIndex(b, b.(buffer := b.buffer + chunk, socket := if b.socket == Open then Destroyed else b.socket), others);
      var t := HandleLines(b, parse, CompleteLines(b.buffer + chunk));
      SameIndex(t, t.(buffer := Rest(b.buffer + chunk)), others);
    case RegisterTool(pluginId, tool) => RegisterKeepsIndex(b, others, pluginId, tool);
    case ClearTools => ClearKeepsIndex(b, others);
    case SocketClose =>
      var r := RejectAll(b.(socket := Absent), SocketClosed);
      SameIndex(b, r, others);
      ClearKeepsIndex(r, others);
    case DisconnectCall =>
      ClearKeepsIndex(b, others);
      SameIndex(UnregisterAll(b), Disconnect(b), others);
    case _ => SameIndex(b, Next(b, parse, e).value, others);
  }

  lemma {:induction false} RunKeepsIndex(b: Bridge, others: set<string>, parse: Parser, events: seq<Event>)
    requires IndexInv(b, others) && SendsColonFreeIds(parse) && Execute(b, parse, events).Some?
    requires forall i :: 0 <= i < |events| && events[i].RegisterTool? ==> ColonFree(events[i].pluginId)
    ensures IndexInv(Execute(b, parse, events).value, others)
    decreases |events|
  {
    hide IndexInv, Next;
    if events != [] {
      EventKeepsIndex(b, others, parse, events[0]);
      RunKeepsIndex(Next(b, parse, events[0]).value, others, parse, events[1..]);
    }
  }

  /** After any sequence of events the three copies agree, if plugin ids are colon-free and no tool
      outside looks like a plugin tool. */
  lemma IndexAlwaysAgrees(others: set<string>, parse: Parser, events: seq<Event>, b: Bridge)
    requires Foreign(others) && SendsColonFreeIds(parse)
    requires forall i :: 0 <= i < |events| && events[i].RegisterTool? ==> ColonFree(events[i].pluginId)
    requires Execute(Fresh(others), parse, events) == Some(b)
    ensures b.registered == Union(b.byPlugin) && b.external == others + b.registered && others !! b.registered
  {
    RunKeepsIndex(Fresh(others), others, parse, events);
    OwnedDisjoint(b, others, "");
  }

  /** With a colon in a plugin id two plugins can claim one name, and refreshing the one takes the tool of
      the other out of two of the copies. */
  lemma ColonsBreakTheIndex()
    ensures var b := Register(Register(Fresh({}), "a", "b:c"), "a:b", "c");
      Agree(b, {}) && !Agree(Refresh(b, "a", []), {})
  {
    var name := ToolName("a", "b:c");
    assert name == ToolName("a:b", "c");
    var b := Register(Register(Fresh({}), "a", "b:c"), "a:b", "c");
    assert b.byPlugin["a"] == {name} && b.byPlugin["a:b"] == {name};
    assert b.byPlugin.Keys == {"a", "a:b"};
    assert Union(b.byPlugin) == {name} == b.registered;
    assert name in UnionOfOthers(b, "a") by {
      assert "a:b" in b.byPlugin - {"a"} && name in (b.byPlugin - {"a"})["a:b"];
    }
    RefreshAgreesExactly(b, {}, "a", []);
    assert name in ToolsOf(b, "a") * UnionOfOthers(b, "a");
    assert Names("a", []) == {};
  }
}
