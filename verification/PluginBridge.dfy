/**
The TypeScript client of the plugin host: its table of pending requests with their timers, the receive
buffer, and the tool index it keeps in three places.  Event handlers run to completion one at a time.
*/
module PluginBridges {
  import opened LineFraming
  import opened Text
  import opened Wrappers

  /** MAX_BUFFER_BYTES. */
  const MAX_BUFFER: nat := 1_048_576

  datatype Socket = Absent | Open | Destroyed

  /** How a request's promise ended. */
  datatype Outcome = Resolved(result: string) | Rejected(error: string) | TimedOut | SocketClosed | Disconnected

  /** What JSON.parse makes of a line, as far as the bridge looks at it. */
  datatype Message =
    | Malformed
    | Tools(pluginId: string, tools: Option<seq<string>>)
    | OtherEvent
    | Response(id: Option<nat>, outcome: Outcome)

  type Parser = string -> Message

  /** All fields the event handlers change.  `settled` records every call of a promise's resolve or
      reject, and `external` is the content of the tool registry outside the bridge. */
  datatype Bridge = Bridge(
    socket: Socket,
    nextId: nat,
    pending: seq<nat>,
    timers: set<nat>,
    buffer: string,
    registered: set<string>,
    byPlugin: map<string, set<string>>,
    external: set<string>,
    settled: seq<(nat, Outcome)>)

  function Fresh(external: set<string>): Bridge {
    Bridge(Absent, 1, [], {}, "", {}, map[], external, [])
  }

  // ---------- requests ----------

  /** rpcWithTimeout once the socket is there: a new id, an armed timer, an entry in the table. */
  function Issue(b: Bridge): Bridge {
    if b.socket != Open then b
    else b.(nextId := b.nextId + 1, timers := b.timers + {b.nextId}, pending := b.pending + [b.nextId])
  }

  function Without(ids: seq<nat>, id: nat): (r: seq<nat>)
    ensures forall x :: x in r <==> x in ids && x != id
  {
    if ids == [] then [] else (if ids[0] == id then [] else [ids[0]]) + Without(ids[1..], id)
  }

  /** The timer of a request fires: the entry goes and the promise is rejected. */
  function Expire(b: Bridge, id: nat): Bridge
    requires id in b.timers
  {
    b.(timers := b.timers - {id}, pending := Without(b.pending, id), settled := b.settled + [(id, TimedOut)])
  }

  /** A response line: only an id in the table has any effect. */
  function Respond(b: Bridge, id: nat, outcome: Outcome): Bridge {
    if id !in b.pending then b
    else b.(timers := b.timers - {id}, pending := Without(b.pending, id), settled := b.settled + [(id, outcome)])
  }

  function AllWith(ids: seq<nat>, outcome: Outcome): seq<(nat, Outcome)> {
    if ids == [] then [] else [(ids[0], outcome)] + AllWith(ids[1..], outcome)
  }

  function Ids(ids: seq<nat>): set<nat> { set x | x in ids }

  /** Every pending request is rejected, in the order of the table, and the table is cleared. */
  function RejectAll(b: Bridge, outcome: Outcome): Bridge {
    b.(timers := b.timers - Ids(b.pending), settled := b.settled + AllWith(b.pending, outcome), pending := [])
  }

  // ---------- tools ----------

  function ToolName(pluginId: string, tool: string): string { "plugin:" + pluginId + ":" + tool }

  function ToolsOf(b: Bridge, pluginId: string): set<string> {
    if pluginId in b.byPlugin then b.byPlugin[pluginId] else {}
  }

  function Register(b: Bridge, pluginId: string, tool: string): Bridge {
    var name := ToolName(pluginId, tool);
    b.(external := b.external + {name}, registered := b.registered + {name},
       byPlugin := b.byPlugin[pluginId := ToolsOf(b, pluginId) + {name}])
  }

  function RegisterAll(b: Bridge, pluginId: string, tools: seq<string>): Bridge
    decreases |tools|
  {
    if tools == [] then b else RegisterAll(Register(b, pluginId, tools[0]), pluginId, tools[1..])
  }

  function Forget(b: Bridge, pluginId: string): Bridge {
    b.(external := b.external - ToolsOf(b, pluginId), registered := b.registered - ToolsOf(b, pluginId),
       byPlugin := b.byPlugin - {pluginId})
  }

  /** refreshPluginTools. */
  function Refresh(b: Bridge, pluginId: string, tools: seq<string>): Bridge {
    RegisterAll(Forget(b, pluginId), pluginId, tools)
  }

  function UnregisterAll(b: Bridge): Bridge {
    b.(external := b.external - b.registered, registered := {}, byPlugin := map[])
  }

  // ---------- data, close, disconnect, connect ----------

  function HandleMessage(b: Bridge, m: Message): Bridge {
    match m
    case Tools(pluginId, Some(tools)) => if pluginId == "" then b else Refresh(b, pluginId, tools)
    case Response(Some(id), outcome) => Respond(b, id, outcome)
    case _ => b
  }

  function HandleLine(b: Bridge, parse: Parser, line: string): Bridge {
    if Trim(line) == "" then b else HandleMessage(b, parse(line))
  }

  function HandleLines(b: Bridge, parse: Parser, lines: seq<string>): Bridge
    decreases |lines|
  {
    if lines == [] then b else HandleLines(HandleLine(b, parse, lines[0]), parse, lines[1..])
  }

  /** handleData: the limit is checked before any line is taken out of the buffer. */
  function Receive(b: Bridge, parse: Parser, chunk: string): Bridge {
    var all := b.buffer + chunk;
    if |all| > MAX_BUFFER then b.(buffer := all, socket := if b.socket == Open then Destroyed else b.socket)
    else HandleLines(b, parse, CompleteLines(all)).(buffer := Rest(all))
  }

  function Close(b: Bridge): Bridge {
    UnregisterAll(RejectAll(b.(socket := Absent), SocketClosed))
  }

  function Disconnect(b: Bridge): Bridge {
    RejectAll(UnregisterAll(b).(socket := Absent), Disconnected)
  }

  function Connected(b: Bridge): Bridge { b.(socket := Open, buffer := "") }

  // ---------- handling a line does not look at the buffer ----------

  lemma {:induction false} RegisterAllIgnoresBuffer(b: Bridge, pluginId: string, tools: seq<string>, buffer: string)
    ensures RegisterAll(b.(buffer := buffer), pluginId, tools) == RegisterAll(b, pluginId, tools).(buffer := buffer)
    decreases |tools|
  {
    if tools != [] { RegisterAllIgnoresBuffer(Register(b, pluginId, tools[0]), pluginId, tools[1..], buffer); }
  }

  lemma LineIgnoresBuffer(b: Bridge, parse: Parser, line: string, buffer: string)
    ensures HandleLine(b.(buffer := buffer), parse, line) == HandleLine(b, parse, line).(buffer := buffer)
  {
    match parse(line)
    case Tools(pluginId, Some(tools)) => RegisterAllIgnoresBuffer(Forget(b, pluginId), pluginId, tools, buffer);
    case _ =>
  }

  lemma {:induction false} LinesIgnoreBuffer(b: Bridge, parse: Parser, lines: seq<string>, buffer: string)
    ensures HandleLines(b.(buffer := buffer), parse, lines) == HandleLines(b, parse, lines).(buffer := buffer)
    decreases |lines|
  {
    if lines != [] {
      LineIgnoresBuffer(b, parse, lines[0], buffer);
      LinesIgnoreBuffer(HandleLine(b, parse, lines[0]), parse, lines[1..], buffer);
    }
  }

  class PluginBridge {
    var socket: Socket
    var nextId: nat
    var pending: seq<nat>
    var timers: set<nat>
    var buffer: string
    var registeredTools: set<string>
    var pluginToolsByPlugin: map<string, set<string>>
    // The tool registry outside, and every settlement so far.
    var external: set<string>
    var settled: seq<(nat, Outcome)>

    function View(): Bridge
      reads this
    {
      Bridge(socket, nextId, pending, timers, buffer, registeredTools, pluginToolsByPlugin, external, settled)
    }

    constructor (external: set<string>)
      ensures View() == Fresh(external)
    {
      socket, nextId, pending, timers, buffer := Absent, 1, [], {}, "";
      registeredTools, pluginToolsByPlugin, this.external, settled := {}, map[], external, [];
    }

    method RpcWithTimeout() returns (issued: Option<nat>)
      modifies this
      ensures View() == Issue(old(View()))
      ensures issued == if old(socket) == Open then Some(old(nextId)) else None
    {
      if socket != Open { return None; }
      var id := nextId;
      nextId := nextId + 1;
      timers := timers + {id};
      pending := pending + [id];
      issued := Some(id);
    }

    method TimerFires(id: nat)
      requires id in timers
      modifies this
      ensures View() == Expire(old(View()), id)
    {
      timers := timers - {id};
      pending := Without(pending, id);
      settled := settled + [(id, TimedOut)];
    }

    method HandleResponse(id: nat, outcome: Outcome)
      modifies this
      ensures View() == Respond(old(View()), id, outcome)
    {
      if id in pending {
        pending := Without(pending, id);
        timers := timers - {id};
        settled := settled + [(id, outcome)];
      }
    }

    method RegisterPluginTool(pluginId: string, tool: string)
      modifies this
      ensures View() == Register(old(View()), pluginId, tool)
    {
      var toolName := ToolName(pluginId, tool);
      external := external + {toolName};
      registeredTools := registeredTools + {toolName};
      var pluginTools := if pluginId in pluginToolsByPlugin then pluginToolsByPlugin[pluginId] else {};
      pluginTools := pluginTools + {toolName};
      pluginToolsByPlugin := pluginToolsByPlugin[pluginId := pluginTools];
    }

    method RefreshPluginTools(pluginId: string, rawTools: seq<string>)
      modifies this
      ensures View() == Refresh(old(View()), pluginId, rawTools)
    {
      ghost var start := View();
      var oldTools := if pluginId in pluginToolsByPlugin then pluginToolsByPlugin[pluginId] else {};
      var todo := oldTools;
      while todo != {}
        invariant todo <= oldTools
        invariant View() == start.(external := start.external - (oldTools - todo),
                                   registered := start.registered - (oldTools - todo))
      {
        var toolName :| toolName in todo;
        external := external - {toolName};
        registeredTools := registeredTools - {toolName};
        todo := todo - {toolName};
      }
      assert oldTools - {} == oldTools;
      pluginToolsByPlugin := pluginToolsByPlugin - {pluginId};
      assert View() == Forget(start, pluginId);
      for i := 0 to |rawTools|
        invariant RegisterAll(View(), pluginId, rawTools[i..]) == Refresh(start, pluginId, rawTools)
      {
        assert rawTools[i..][1..] == rawTools[i + 1..];
        RegisterPluginTool(pluginId, rawTools[i]);
      }
    }

    method UnregisterAllTools()
      modifies this
      ensures View() == UnregisterAll(old(View()))
    {
      ghost var before := external;
      var todo := registeredTools;
      while todo != {}
        invariant todo <= registeredTools
        invariant View() == old(View()).(external := before - (registeredTools - todo))
      {
        var name :| name in todo;
        external := external - {name};
        todo := todo - {name};
      }
      assert registeredTools - {} == registeredTools;
      registeredTools := {};
      pluginToolsByPlugin := map[];
    }

    method HandleData(parse: Parser, chunk: string)
      modifies this
      ensures View() == Receive(old(View()), parse, chunk)
    {
      buffer := buffer + chunk;
      if |buffer| > MAX_BUFFER {
        if socket == Open { socket := Destroyed; }
        return;
      }
      ghost var all := buffer;
      ghost var start := old(View());
      LinesIgnoreBuffer(start, parse, CompleteLines(all), Rest(all));
      ghost var goal := HandleLines(start.(buffer := Rest(all)), parse, CompleteLines(all));
      while '\n' in buffer
        invariant Rest(buffer) == Rest(all)
        invariant HandleLines(View().(buffer := Rest(all)), parse, CompleteLines(buffer)) == goal
        decreases |buffer|
      {
        var newlineIdx := IndexOf(buffer, '\n');
        var line := buffer[..newlineIdx];
        ghost var before := View();
        buffer := buffer[newlineIdx + 1..];
        LineIgnoresBuffer(before, parse, line, buffer);
        LineIgnoresBuffer(before, parse, line, Rest(all));
        HandleOneLine(parse, line);
      }
      assert IndexOf(buffer, '\n') == |buffer|;
    }

    method HandleOneLine(parse: Parser, line: string)
      modifies this
      ensures View() == HandleLine(old(View()), parse, line)
    {
      if Trim(line) != "" {
        match parse(line) {
          case Tools(pluginId, Some(tools)) =>
            if pluginId != "" { RefreshPluginTools(pluginId, tools); }
          case Response(Some(id), outcome) => HandleResponse(id, outcome);
          case _ =>
        }
      }
    }

    method RejectPending(outcome: Outcome)
      modifies this
      ensures View() == RejectAll(old(View()), outcome)
    {
      ghost var start := View();
      for i := 0 to |pending|
        invariant View() == start.(timers := start.timers - Ids(start.pending[..i]), settled := settled)
        invariant settled + AllWith(start.pending[i..], outcome) == start.settled + AllWith(start.pending, outcome)
      {
        assert start.pending[..i + 1] == start.pending[..i] + [pending[i]];
        assert start.pending[i..][1..] == start.pending[i + 1..];
        timers := timers - {pending[i]};
        settled := settled + [(pending[i], outcome)];
      }
      assert start.pending[..|pending|] == start.pending;
      assert settled + [] == settled;
      pending := [];
    }

    method OnClose()
      modifies this
      ensures View() == Close(old(View()))
    {
      socket := Absent;
      RejectPending(SocketClosed);
      UnregisterAllTools();
    }

    method DisconnectBridge()
      modifies this
      ensures View() == Disconnect(old(View()))
    {
      UnregisterAllTools();
      socket := Absent;
      RejectPending(Disconnected);
    }

    method OnConnect()
      modifies this
      ensures View() == Connected(old(View()))
    {
      socket := Open;
      buffer := "";
    }
  }
}
