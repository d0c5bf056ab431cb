/** What holds of the bridge over every order of requests, responses, timeouts, closes and refreshes. */
module BridgeTheorems {
  import opened LineFraming
  import opened PluginBridges
  import opened Sequences
  import opened Text
  import opened Wrappers

  datatype Event =
    | Request
    | Timer(id: nat)
    | Data(chunk: string)
    | SocketClose
    | DisconnectCall
    | SocketConnect
    | RegisterTool(pluginId: string, tool: string)
    | ClearTools

  /** The handler of one event; a timer fires only while it is armed. */
  function Next(b: Bridge, parse: Parser, e: Event): Option<Bridge> {
    match e
    case Request => Some(Issue(b))
    case Timer(id) => if id in b.timers then Some(Expire(b, id)) else None
    case Data(chunk) => Some(Receive(b, parse, chunk))
    case SocketClose => Some(Close(b))
    case DisconnectCall => Some(Disconnect(b))
    case SocketConnect => Some(Connected(b))
    case RegisterTool(pluginId, tool) => Some(Register(b, pluginId, tool))
    case ClearTools => Some(UnregisterAll(b))
  }

  function Execute(b: Bridge, parse: Parser, events: seq<Event>): Option<Bridge>
    decreases |events|
  {
    if events == [] then Some(b)
    else match Next(b, parse, events[0])
      case None => None
      case Some(next) => Execute(next, parse, events[1..])
  }

  // ---------- every request settles at most once ----------

  /** How often the promise of `id` was resolved or rejected. */
  function Times(settled: seq<(nat, Outcome)>, id: nat): nat {
    if settled == [] then 0
    else Times(settled[..|settled| - 1], id) + if settled[|settled| - 1].0 == id then 1 else 0
  }

  predicate Issued(b: Bridge, id: nat) { 1 <= id < b.nextId }

  /** The table, the timers and the settlements agree: an issued request is in the table, with its timer
      armed, until it settles, and it settles once. */
  ghost predicate Accounted(b: Bridge) {
    && Distinct(b.pending) && Ids(b.pending) == b.timers
    && (forall id :: id in b.timers ==> Issued(b, id))
    && (forall id: nat :: Times(b.settled, id) == if Issued(b, id) && id !in b.timers then 1 else 0)
  }

  lemma TimesSnoc(settled: seq<(nat, Outcome)>, last: (nat, Outcome), id: nat)
    ensures Times(settled + [last], id) == Times(settled, id) + if last.0 == id then 1 else 0
  {
    assert (settled + [last])[..|settled|] == settled;
  }

  lemma {:induction false} TimesOfAll(settled: seq<(nat, Outcome)>, ids: seq<nat>, outcome: Outcome, id: nat)
    requires Distinct(ids)
    ensures Times(settled + AllWith(ids, outcome), id) == Times(settled, id) + if id in ids then 1 else 0
    decreases |ids|
  {
    if ids == [] {
      assert settled + [] == settled;
    } else {
      var first := (ids[0], outcome);
      assert settled + AllWith(ids, outcome) == settled + [first] + AllWith(ids[1..], outcome);
      TimesOfAll(settled + [first], ids[1..], outcome, id);
      TimesSnoc(settled, first, id);
      assert id in ids <==> id == ids[0] || id in ids[1..];
      assert ids[0] !in ids[1..];
    }
  }

  lemma {:induction false} WithoutIsDistinct(ids: seq<nat>, id: nat)
    requires Distinct(ids)
    ensures Distinct(Without(ids, id))
  {
    if ids != [] {
      WithoutIsDistinct(ids[1..], id);
      assert forall i :: 0 <= i < |Without(ids[1..], id)| ==> Without(ids[1..], id)[i] in ids[1..];
      assert ids[0] !in ids[1..];
    }
  }

  lemma SettleOne(b: Bridge, id: nat, outcome: Outcome)
    requires Accounted(b) && id in b.timers
    ensures Accounted(b.(timers := b.timers - {id}, pending := Without(b.pending, id),
                         settled := b.settled + [(id, outcome)]))
  {
    WithoutIsDistinct(b.pending, id);
    forall x: nat { TimesSnoc(b.settled, (id, outcome), x); }
  }

  lemma RejectAllAccounts(b: Bridge, outcome: Outcome)
    requires Accounted(b)
    ensures Accounted(RejectAll(b, outcome)) && RejectAll(b, outcome).pending == []
    ensures RejectAll(b, outcome).nextId == b.nextId
  {
    forall x: nat { TimesOfAll(b.settled, b.pending, outcome, x); }
  }

  lemma IssueAccounts(b: Bridge)
    requires Accounted(b) && b.nextId >= 1
    ensures Accounted(Issue(b))
  {
    if b.socket == Open {
      var t := Issue(b);
      assert b.nextId !in b.timers;
      forall x ensures x in t.pending <==> x in b.pending || x == b.nextId {}
      forall i | 0 <= i < |b.pending| ensures b.pending[i] != b.nextId { assert b.pending[i] in Ids(b.pending); }
    }
  }

  /** Only requests, timers, responses and closes touch these fields. */
  predicate SameCalls(a: Bridge, b: Bridge) {
    a.pending == b.pending && a.timers == b.timers && a.settled == b.settled && a.nextId == b.nextId
    && a.socket == b.socket
  }

  lemma {:induction false} RegisterAllSameCalls(b: Bridge, pluginId: string, tools: seq<string>)
    ensures SameCalls(RegisterAll(b, pluginId, tools), b)
    decreases |tools|
  {
    if tools != [] { RegisterAllSameCalls(Register(b, pluginId, tools[0]), pluginId, tools[1..]); }
  }

  lemma MessageAccounts(b: Bridge, m: Message)
    requires Accounted(b) && b.nextId >= 1
    ensures Accounted(HandleMessage(b, m))
    ensures HandleMessage(b, m).nextId == b.nextId && HandleMessage(b, m).socket == b.socket
  {
    match m
    case Tools(pluginId, Some(tools)) => RegisterAllSameCalls(Forget(b, pluginId), pluginId, tools);
    case Response(Some(id), outcome) =>
      if id in b.pending {
        assert id in Ids(b.pending);
        SettleOne(b, id, outcome);
      }
    case _ =>
  }

  lemma {:induction false} LinesAccount(b: Bridge, parse: Parser, lines: seq<string>)
    requires Accounted(b) && b.nextId >= 1
    ensures Accounted(HandleLines(b, parse, lines)) && HandleLines(b, parse, lines).nextId == b.nextId
    decreases |lines|
  {
    hide Accounted, HandleMessage;
    if lines != [] {
      MessageAccounts(b, parse(lines[0]));
      LinesAccount(HandleLine(b, parse, lines[0]), parse, lines[1..]);
    }
  }

  lemma AccountedIgnores(a: Bridge, b: Bridge)
    requires Accounted(a) && a.pending == b.pending && a.timers == b.timers
    requires a.settled == b.settled && a.nextId == b.nextId
    ensures Accounted(b)
  {
  }

  lemma NextAccounts(b: Bridge, parse: Parser, e: Event)
    requires Accounted(b) && b.nextId >= 1 && Next(b, parse, e).Some?
    ensures Accounted(Next(b, parse, e).value) && Next(b, parse, e).value.nextId >= b.nextId
  {
    hide Accounted, Times, HandleLines;
    match e
    case Request => IssueAccounts(b);
    case Timer(id) => SettleOne(b, id, TimedOut);
    case Data(chunk) =>
      LinesAccount(b, parse, CompleteLines(b.buffer + chunk));
      AccountedIgnores(b, b.(buffer := b.buffer + chunk, socket := if b.socket == Open then Destroyed else b.socket));
      var t := HandleLines(b, parse, CompleteLines(b.buffer + chunk));
      AccountedIgnores(t, t.(buffer := Rest(b.buffer + chunk)));
    case SocketClose =>
      AccountedIgnores(b, b.(socket := Absent));
      RejectAllAccounts(b.(socket := Absent), SocketClosed);
      AccountedIgnores(RejectAll(b.(socket := Absent), SocketClosed), Close(b));
    case DisconnectCall =>
      AccountedIgnores(b, UnregisterAll(b).(socket := Absent));
      RejectAllAccounts(UnregisterAll(b).(socket := Absent), Disconnected);
    case SocketConnect => AccountedIgnores(b, Connected(b));
    case RegisterTool(pluginId, tool) => AccountedIgnores(b, Register(b, pluginId, tool));
    case ClearTools => AccountedIgnores(b, UnregisterAll(b));
  }

  lemma {:induction false} RunAccounts(b: Bridge, parse: Parser, events: seq<Event>)
    requires Accounted(b) && b.nextId >= 1 && Execute(b, parse, events).Some?
    ensures Accounted(Execute(b, parse, events).value)
    decreases |events|
  {
    hide Accounted;
    if events != [] {
      NextAccounts(b, parse, events[0]);
      RunAccounts(Next(b, parse, events[0]).value, parse, events[1..]);
    }
  }

  /** Over every order of events: a request settles at most once; it is in the table exactly while it is
      issued and unsettled, which is exactly while its timer is armed. */
  lemma EveryRequestSettlesOnce(external: set<string>, parse: Parser, events: seq<Event>, b: Bridge, id: nat)
    requires Execute(Fresh(external), parse, events) == Some(b)
    ensures Times(b.settled, id) <= 1
    ensures id in b.pending <==> Issued(b, id) && Times(b.settled, id) == 0
    ensures id in b.pending <==> id in b.timers
  {
    assert Accounted(Fresh(external));
    RunAccounts(Fresh(external), parse, events);
    assert id in b.pending <==> id in Ids(b.pending);
  }

  /** After a close or a disconnect nothing is left waiting: every request ever issued has settled. */
  lemma CloseSettlesEverything(external: set<string>, parse: Parser, events: seq<Event>, last: Event, b: Bridge,
                               id: nat)
    requires last in {SocketClose, DisconnectCall}
    requires Execute(Fresh(external), parse, events + [last]) == Some(b)
    ensures b.pending == [] && (Issued(b, id) ==> Times(b.settled, id) == 1)
  {
    ExecuteSnoc(Fresh(external), parse, events, last);
    EveryRequestSettlesOnce(external, parse, events + [last], b, id);
  }

  lemma {:induction false} ExecuteSnoc(b: Bridge, parse: Parser, events: seq<Event>, last: Event)
    requires Execute(b, parse, events + [last]).Some?
    ensures Execute(b, parse, events).Some?
    ensures Next(Execute(b, parse, events).value, parse, last) == Execute(b, parse, events + [last])
    decreases |events|
  {
    var all := events + [last];
    if events == [] {
      assert all[1..] == [];
    } else {
      assert all[1..] == events[1..] + [last];
      ExecuteSnoc(Next(b, parse, events[0]).value, parse, events[1..], last);
    }
  }

  // ---------- what settles a request, and with what ----------

  /** Exactly the i-th entry of the table is settled with this outcome; the others keep their order. */
  predicate SettlesAt(b: Bridge, t: Bridge, i: nat, outcome: Outcome) {
    && i < |b.pending|
    && t == b.(pending := b.pending[..i] + b.pending[i + 1..], timers := b.timers - {b.pending[i]},
               settled := b.settled + [(b.pending[i], outcome)])
  }

  /** Exactly the request with this id is settled. */
  ghost predicate Settles(b: Bridge, t: Bridge, id: nat, outcome: Outcome) {
    exists i: nat :: SettlesAt(b, t, i, outcome) && b.pending[i] == id
  }

  lemma {:induction false} WithoutIsRemoval(ids: seq<nat>, i: nat)
    requires Distinct(ids) && i < |ids|
    ensures Without(ids, ids[i]) == ids[..i] + ids[i + 1..]
  {
    if i == 0 {
      WithoutAbsent(ids[1..], ids[0]);
      assert ids[..0] + ids[1..] == ids[1..];
    } else {
      WithoutIsRemoval(ids[1..], i - 1);
      assert ids[..i] + ids[i + 1..] == [ids[0]] + (ids[1..][..i - 1] + ids[1..][i..]);
    }
  }

  lemma {:induction false} WithoutAbsent(ids: seq<nat>, id: nat)
    requires id !in ids
    ensures Without(ids, id) == ids
  {
    if ids != [] {
      WithoutAbsent(ids[1..], id);
      assert ids == [ids[0]] + ids[1..];
    }
  }

  lemma RemovalSettles(b: Bridge, id: nat, outcome: Outcome)
    requires Accounted(b) && id in b.pending
    ensures Settles(b, b.(pending := Without(b.pending, id), timers := b.timers - {id},
                          settled := b.settled + [(id, outcome)]), id, outcome)
  {
    var i :| 0 <= i < |b.pending| && b.pending[i] == id;
    WithoutIsRemoval(b.pending, i);
    assert SettlesAt(b, b.(pending := Without(b.pending, id), timers := b.timers - {id},
                           settled := b.settled + [(id, outcome)]), i, outcome);
  }

  lemma ReachableAccounts(external: set<string>, parse: Parser, events: seq<Event>, b: Bridge)
    requires Execute(Fresh(external), parse, events) == Some(b)
    ensures Accounted(b)
  {
    assert Accounted(Fresh(external));
    RunAccounts(Fresh(external), parse, events);
  }

  /** The line that completes with this chunk answers request `id`: exactly that request is settled, with
      exactly that outcome, if it is still waiting, and otherwise nothing happens. */
  lemma ResponseSettlesItsRequest(external: set<string>, parse: Parser, events: seq<Event>, b: Bridge,
                                  chunk: string, line: string, id: nat, outcome: Outcome)
    requires Execute(Fresh(external), parse, events) == Some(b)
    requires b.buffer + chunk == line + "\n" && '\n' !in line && |line| < 1_048_576
    requires Trim(line) != "" && parse(line) == Response(Some(id), outcome)
    ensures Next(b, parse, Data(chunk)).Some?
    ensures var emptied, t := b.(buffer := ""), Next(b, parse, Data(chunk)).value;
      if id in b.pending then Settles(emptied, t, id, outcome) else t == emptied
  {
    ReachableAccounts(external, parse, events, b);
    hide Execute, Accounted, Settles, Trim;
    OneLine(line);
    assert HandleLines(b, parse, [line]) == HandleLine(b, parse, line) == Respond(b, id, outcome);
    AccountedIgnores(b, b.(buffer := ""));
    if id in b.pending { RemovalSettles(b.(buffer := ""), id, outcome); }
  }

  /** A line that is no response refreshes the plugin it names, if it lists tools, and does nothing else;
      an empty name, a missing list, another event and an unreadable line are ignored. */
  lemma OtherLinesOnlyRefresh(b: Bridge, parse: Parser, chunk: string, line: string)
    requires b.buffer + chunk == line + "\n" && '\n' !in line && |line| < 1_048_576
    requires Trim(line) == "" || !parse(line).Response? || parse(line).id.None?
    ensures var emptied := b.(buffer := "");
      Next(b, parse, Data(chunk)) == Some(match parse(line)
        case Tools(pluginId, Some(tools)) =>
          if pluginId == "" || Trim(line) == "" then emptied else Refresh(emptied, pluginId, tools)
        case _ => emptied)
  {
    hide Trim;
    OneLine(line);
    assert HandleLines(b, parse, [line]) == HandleLine(b, parse, line);
    LineIgnoresBuffer(b, parse, line, "");
  }

  lemma OneLine(line: string)
    requires '\n' !in line
    ensures CompleteLines(line + "\n") == [line] && Rest(line + "\n") == ""
  {
    assert Written([line]) + "" == line + "\n";
    WrittenLinesComeBack([line], "");
  }

  /** A timer settles the request it was armed for and no other, as timed out. */
  lemma TimerSettlesItsRequest(external: set<string>, parse: Parser, events: seq<Event>, b: Bridge, id: nat)
    requires Execute(Fresh(external), parse, events) == Some(b)
    ensures Next(b, parse, Timer(id)).Some? <==> id in b.pending
    ensures id in b.pending ==> Settles(b, Next(b, parse, Timer(id)).value, id, TimedOut)
  {
    ReachableAccounts(external, parse, events, b);
    hide Execute, Settles;
    assert id in b.pending <==> id in Ids(b.pending);
    if id in b.pending { RemovalSettles(b, id, TimedOut); }
  }

  /** A request joins the end of the table under a number never used before, with its timer armed; without
      a socket nothing happens. */
  lemma RequestJoinsTheTable(external: set<string>, parse: Parser, events: seq<Event>, b: Bridge)
    requires Execute(Fresh(external), parse, events) == Some(b)
    ensures Next(b, parse, Request).Some?
    ensures var t := Next(b, parse, Request).value;
      if b.socket == Open then
        t == b.(nextId := b.nextId + 1, pending := b.pending + [b.nextId], timers := b.timers + {b.nextId})
      else t == b
    ensures b.nextId !in b.pending && Times(b.settled, b.nextId) == 0
  {
    ReachableAccounts(external, parse, events, b);
    hide Execute;
    assert b.nextId in b.pending <==> b.nextId in Ids(b.pending);
  }

  lemma {:induction false} AllWithEach(ids: seq<nat>, outcome: Outcome)
    ensures AllWith(ids, outcome) == seq(|ids|, i requires 0 <= i < |ids| => (ids[i], outcome))
  {
    if ids != [] { AllWithEach(ids[1..], outcome); }
  }

  /** A close and a disconnect reject every waiting request once, in the order of the table, empty the
      table and take every tool out of the registry. */
  lemma ClosingIsExact(external: set<string>, parse: Parser, events: seq<Event>, b: Bridge, last: Event)
    requires Execute(Fresh(external), parse, events) == Some(b) && last in {SocketClose, DisconnectCall}
    ensures Next(b, parse, last).Some?
    ensures var outcome := if last == SocketClose then SocketClosed else Disconnected;
      Next(b, parse, last).value == b.(
        socket := Absent, pending := [], timers := {},
        settled := b.settled + seq(|b.pending|, i requires 0 <= i < |b.pending| => (b.pending[i], outcome)),
        external := b.external - b.registered, registered := {}, byPlugin := map[])
  {
    ReachableAccounts(external, parse, events, b);
    hide Execute;
    var outcome := if last == SocketClose then SocketClosed else Disconnected;
    AllWithEach(b.pending, outcome);
    assert b.timers - Ids(b.pending) == {};
  }

  /** A new connection starts at a line boundary, whatever the old one left in the buffer, and keeps the
      table: its first chunk is framed by itself. */
  lemma ConnectionStartsAfresh(b: Bridge, parse: Parser, leftover: string, chunk: string)
    requires |chunk| <= 1_048_576
    ensures var connected := b.(socket := Open, buffer := "");
      && Next(b.(buffer := leftover), parse, SocketConnect) == Some(connected)
      && Next(connected, parse, Data(chunk))
         == Some(HandleLines(connected, parse, CompleteLines(chunk)).(buffer := Rest(chunk)))
  {
    hide HandleLines, CompleteLines, Rest;
    assert "" + chunk == chunk;
  }

  /** A chunk over the limit drops an open connection, hands over no line and touches nothing else. */
  lemma OverflowIsExact(b: Bridge, parse: Parser, chunk: string)
    requires |b.buffer + chunk| > 1_048_576
    ensures Next(b, parse, Data(chunk)).Some?
    ensures var t := Next(b, parse, Data(chunk)).value;
      && t == b.(buffer := b.buffer + chunk, socket := t.socket)
      && t.socket == if b.socket == Open then Destroyed else b.socket
  {
  }

  // ---------- every settlement has its cause ----------

  /** The lines an event hands over. */
  function LinesIn(b: Bridge, e: Event): seq<string> {
    if e.Data? && |b.buffer + e.chunk| <= 1_048_576 then CompleteLines(b.buffer + e.chunk) else []
  }

  /** All the lines handed over in a run. */
  function Received(b: Bridge, parse: Parser, events: seq<Event>): seq<string>
    decreases |events|
  {
    if events == [] || Next(b, parse, events[0]).None? then []
    else LinesIn(b, events[0]) + Received(Next(b, parse, events[0]).value, parse, events[1..])
  }

  /** One of the lines is a response to this request with this outcome. */
  predicate Answered(parse: Parser, lines: seq<string>, id: nat, outcome: Outcome) {
    exists i :: 0 <= i < |lines| && parse(lines[i]) == Response(Some(id), outcome)
  }

  predicate Ended(events: seq<Event>, id: nat, outcome: Outcome) {
    || (outcome == TimedOut && Timer(id) in events)
    || (outcome == SocketClosed && SocketClose in events)
    || (outcome == Disconnected && DisconnectCall in events)
  }

  lemma {:induction false} LinesSettle(b: Bridge, parse: Parser, lines: seq<string>, id: nat, outcome: Outcome)
    requires (id, outcome) in HandleLines(b, parse, lines).settled
    ensures (id, outcome) in b.settled || Answered(parse, lines, id, outcome)
    decreases |lines|
  {
    if lines != [] {
      var next := HandleLine(b, parse, lines[0]);
      LinesSettle(next, parse, lines[1..], id, outcome);
      if (id, outcome) !in next.settled {
        var i :| 0 <= i < |lines[1..]| && parse(lines[1..][i]) == Response(Some(id), outcome);
        assert parse(lines[i + 1]) == Response(Some(id), outcome);
      } else if (id, outcome) !in b.settled {
        MessageSettles(b, parse(lines[0]), id, outcome);
      }
    }
  }

  lemma MessageSettles(b: Bridge, m: Message, id: nat, outcome: Outcome)
    requires (id, outcome) in HandleMessage(b, m).settled && (id, outcome) !in b.settled
    ensures m == Response(Some(id), outcome)
  {
    match m
    case Tools(pluginId, Some(tools)) => RegisterAllSameCalls(Forget(b, pluginId), pluginId, tools);
    case _ =>
  }

  lemma OnlyThisOutcome(ids: seq<nat>, all: Outcome, id: nat, outcome: Outcome)
    ensures (id, outcome) in AllWith(ids, all) ==> outcome == all
  {
    AllWithEach(ids, all);
  }

  lemma EventSettles(b: Bridge, parse: Parser, e: Event, id: nat, outcome: Outcome)
    requires Next(b, parse, e).Some? && (id, outcome) in Next(b, parse, e).value.settled
    ensures (id, outcome) in b.settled || Answered(parse, LinesIn(b, e), id, outcome) || Ended([e], id, outcome)
  {
    hide HandleLines, Answered;
    assert [e][0] == e;
    OnlyThisOutcome(b.pending, SocketClosed, id, outcome);
    OnlyThisOutcome(b.pending, Disconnected, id, outcome);
    if e.Data? && |b.buffer + e.chunk| <= MAX_BUFFER {
      LinesSettle(b, parse, CompleteLines(b.buffer + e.chunk), id, outcome);
    }
  }

  lemma {:induction false} RunSettles(b: Bridge, parse: Parser, events: seq<Event>, id: nat, outcome: Outcome)
    requires Execute(b, parse, events).Some? && (id, outcome) in Execute(b, parse, events).value.settled
    ensures || (id, outcome) in b.settled || Answered(parse, Received(b, parse, events), id, outcome)
            || Ended(events, id, outcome)
    decreases |events|
  {
    if events != [] {
      var next := Next(b, parse, events[0]).value;
      RunSettles(next, parse, events[1..], id, outcome);
      hide Next;
      AnsweredInPart(parse, LinesIn(b, events[0]), Received(next, parse, events[1..]), id, outcome);
      if (id, outcome) in next.settled { EventSettles(b, parse, events[0], id, outcome); }
    }
  }

  lemma AnsweredInPart(parse: Parser, first: seq<string>, more: seq<string>, id: nat, outcome: Outcome)
    ensures Answered(parse, first, id, outcome) || Answered(parse, more, id, outcome)
      ==> Answered(parse, first + more, id, outcome)
  {
    if Answered(parse, first, id, outcome) {
      var i :| 0 <= i < |first| && parse(first[i]) == Response(Some(id), outcome);
      assert (first + more)[i] == first[i];
    } else if Answered(parse, more, id, outcome) {
      var i :| 0 <= i < |more| && parse(more[i]) == Response(Some(id), outcome);
      assert (first + more)[|first| + i] == more[i];
    }
  }

  /** Over every run a request ends with an outcome that a received response line naming it carried, or its
      own timer fired, or the socket closed, or the bridge was disconnected, and the outcome says which. */
  lemma SettlementsHaveCauses(external: set<string>, parse: Parser, events: seq<Event>, b: Bridge, id: nat,
                              outcome: Outcome)
    requires Execute(Fresh(external), parse, events) == Some(b) && (id, outcome) in b.settled
    ensures || Answered(parse, Received(Fresh(external), parse, events), id, outcome)
            || (outcome == TimedOut && Timer(id) in events)
            || (outcome == SocketClosed && SocketClose in events)
            || (outcome == Disconnected && DisconnectCall in events)
  {
    RunSettles(Fresh(external), parse, events, id, outcome);
  }

  // ---------- framing does not depend on chunking ----------

  function Concat(chunks: seq<string>): string {
    if chunks == [] then "" else chunks[0] + Concat(chunks[1..])
  }

  function ReceiveAll(b: Bridge, parse: Parser, chunks: seq<string>): Bridge
    decreases |chunks|
  {
    if chunks == [] then b else ReceiveAll(Receive(b, parse, chunks[0]), parse, chunks[1..])
  }

  /** No chunk finds the kept rest and itself longer than the limit. */
  predicate Fits(buffer: string, chunks: seq<string>)
    decreases |chunks|
  {
    chunks == [] || (|buffer + chunks[0]| <= 1_048_576 && Fits(Rest(buffer + chunks[0]), chunks[1..]))
  }

  lemma {:induction false} LinesCompose(b: Bridge, parse: Parser, first: seq<string>, second: seq<string>)
    ensures HandleLines(b, parse, first + second) == HandleLines(HandleLines(b, parse, first), parse, second)
    decreases |first|
  {
    if first == [] {
      assert [] + second == second;
    } else {
      assert (first + second)[1..] == first[1..] + second;
      LinesCompose(HandleLine(b, parse, first[0]), parse, first[1..], second);
    }
  }

  lemma {:induction false} RestOfRest(s: string)
    requires '\n' !in s
    ensures Rest(s) == s && CompleteLines(s) == []
  {
  }

  /** While the buffer stays within its limit the whole state, lines handed over and buffer kept included,
      is a function of the concatenated input: the chunks are handled as if they had come as one. */
  lemma {:induction false} ChunkingIsIrrelevant(b: Bridge, parse: Parser, chunks: seq<string>)
    requires '\n' !in b.buffer && Fits(b.buffer, chunks)
    ensures ReceiveAll(b, parse, chunks)
      == HandleLines(b, parse, CompleteLines(b.buffer + Concat(chunks))).(buffer := Rest(b.buffer + Concat(chunks)))
    decreases |chunks|
  {
    if chunks == [] {
      assert b.buffer + "" == b.buffer;
      RestOfRest(b.buffer);
    } else {
      var first, more := b.buffer + chunks[0], Concat(chunks[1..]);
      var next := Receive(b, parse, chunks[0]);
      hide HandleLines, CompleteLines, Rest, Receive;
      ReceiveFits(b, parse, chunks[0]);
      ChunkingIsIrrelevant(next, parse, chunks[1..]);
      assert b.buffer + Concat(chunks) == first + more;
      FramingComposes(first, more);
      LinesCompose(b, parse, CompleteLines(first), CompleteLines(Rest(first) + more));
      LinesIgnoreBuffer(HandleLines(b, parse, CompleteLines(first)), parse,
                        CompleteLines(Rest(first) + more), Rest(first));
    }
  }

  lemma ReceiveFits(b: Bridge, parse: Parser, chunk: string)
    requires |b.buffer + chunk| <= MAX_BUFFER
    ensures Receive(b, parse, chunk)
      == HandleLines(b, parse, CompleteLines(b.buffer + chunk)).(buffer := Rest(b.buffer + chunk))
  {
  }

  lemma {:induction false} LinesKeepSocket(b: Bridge, parse: Parser, lines: seq<string>)
    ensures HandleLines(b, parse, lines).socket == b.socket
    decreases |lines|
  {
    if lines != [] {
      match parse(lines[0]) {
        case Tools(pluginId, Some(tools)) => RegisterAllSameCalls(Forget(b, pluginId), pluginId, tools);
        case _ =>
      }
      LinesKeepSocket(HandleLine(b, parse, lines[0]), parse, lines[1..]);
    }
  }

  /** The connection survives the data exactly when no chunk overflowed. */
  lemma {:induction false} OverflowDropsConnection(b: Bridge, parse: Parser, chunks: seq<string>)
    ensures ReceiveAll(b, parse, chunks).socket == Open ==> b.socket == Open
    ensures b.socket == Open ==> (ReceiveAll(b, parse, chunks).socket == Open <==> Fits(b.buffer, chunks))
    decreases |chunks|
  {
    if chunks != [] {
      LinesKeepSocket(b, parse, CompleteLines(b.buffer + chunks[0]));
      OverflowDropsConnection(Receive(b, parse, chunks[0]), parse, chunks[1..]);
    }
  }
}
