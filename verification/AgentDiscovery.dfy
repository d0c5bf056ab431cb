/**
discover_agents: one pass over the chain's messages builds a summary per address, then the summaries are
sorted by the last round they were seen in.
*/
module AgentDiscovery {

  datatype ChainMessage = ChainMessage(sender: string, receiver: string, confirmedRound: nat, roundTime: nat)

  datatype DiscoveredAgent = DiscoveredAgent(
    address: string,
    sent: nat,
    received: nat,
    firstSeenRound: nat,
    lastSeenRound: nat,
    lastSeenTime: nat)

  datatype Role = Sender | Receiver

  // ---------- what a summary should say ----------

  /** Does the address play this role in the message?  An empty receiver is no receiver. */
  predicate Plays(m: ChainMessage, role: Role, address: string) {
    match role
    case Sender => m.sender == address
    case Receiver => m.receiver == address && m.receiver != ""
  }

  predicate Involves(m: ChainMessage, address: string) {
    Plays(m, Sender, address) || Plays(m, Receiver, address)
  }

  ghost predicate Participates(messages: seq<ChainMessage>, address: string) {
    exists m :: m in messages && Involves(m, address)
  }

  function Count(messages: seq<ChainMessage>, role: Role, address: string): nat {
    if messages == [] then 0
    else
      var rest, last := messages[..|messages| - 1], messages[|messages| - 1];
      Count(rest, role, address) + if Plays(last, role, address) then 1 else 0
  }

  /** Message k is the first of those involving the address that reaches the round. */
  predicate FirstToReach(messages: seq<ChainMessage>, address: string, round: nat, k: int) {
    && 0 <= k < |messages|
    && Involves(messages[k], address) && messages[k].confirmedRound == round
    && forall j :: 0 <= j < k && Involves(messages[j], address) ==> messages[j].confirmedRound < round
  }

  /** The agent's rounds are the least and the greatest of the messages involving it, and its time is
      that of the first message to reach the greatest. */
  ghost predicate Bounds(agent: DiscoveredAgent, messages: seq<ChainMessage>) {
    && (forall m :: m in messages && Involves(m, agent.address) ==>
          agent.firstSeenRound <= m.confirmedRound <= agent.lastSeenRound)
    && (exists m :: m in messages && Involves(m, agent.address) && m.confirmedRound == agent.firstSeenRound)
    && (exists k ::
          FirstToReach(messages, agent.address, agent.lastSeenRound, k) && messages[k].roundTime == agent.lastSeenTime)
  }

  ghost predicate Summarises(agent: DiscoveredAgent, messages: seq<ChainMessage>) {
    && agent.sent == Count(messages, Sender, agent.address)
    && agent.received == Count(messages, Receiver, agent.address)
    && Bounds(agent, messages)
  }

  // ---------- the pass over the messages ----------

  type Agents = map<string, DiscoveredAgent>

  function Meet(agent: DiscoveredAgent, m: ChainMessage): DiscoveredAgent {
    var a := if m.confirmedRound < agent.firstSeenRound then agent.(firstSeenRound := m.confirmedRound) else agent;
    if m.confirmedRound > a.lastSeenRound then a.(lastSeenRound := m.confirmedRound, lastSeenTime := m.roundTime) else a
  }

  function EntryFor(agents: Agents, address: string, m: ChainMessage): DiscoveredAgent {
    if address in agents then agents[address]
    else DiscoveredAgent(address, 0, 0, m.confirmedRound, m.confirmedRound, m.roundTime)
  }

  function Tracked(agents: Agents, role: Role, m: ChainMessage): Agents {
    var address := if role.Sender? then m.sender else m.receiver;
    var entry := EntryFor(agents, address, m);
    var counted := if role.Sender? then entry.(sent := entry.sent + 1) else entry.(received := entry.received + 1);
    agents[address := Meet(counted, m)]
  }

  function After(agents: Agents, m: ChainMessage): Agents {
    var t := Tracked(agents, Sender, m);
    if m.receiver == "" then t else Tracked(t, Receiver, m)
  }

  function Seen(messages: seq<ChainMessage>): Agents {
    if messages == [] then map[] else After(Seen(messages[..|messages| - 1]), messages[|messages| - 1])
  }

  ghost predicate Faithful(agents: Agents, messages: seq<ChainMessage>) {
    && (forall a :: a in agents <==> Participates(messages, a))
    && (forall a :: a in agents ==> agents[a].address == a && Summarises(agents[a], messages))
  }

  /** What one message does to the entry of one address: both touches of a message to oneself count, and
      the second leaves the rounds alone. */
  lemma AfterAt(agents: Agents, m: ChainMessage, a: string)
    ensures a in After(agents, m) <==> a in agents || Involves(m, a)
    ensures !Involves(m, a) && a in agents ==> After(agents, m)[a] == agents[a]
    ensures Involves(m, a) ==>
      var e := EntryFor(agents, a, m);
      After(agents, m)[a] == Meet(e, m).(
        sent := e.sent + (if Plays(m, Sender, a) then 1 else 0),
        received := e.received + (if Plays(m, Receiver, a) then 1 else 0))
  {
  }

  lemma CountExtends(messages: seq<ChainMessage>, m: ChainMessage, role: Role, a: string)
    ensures Count(messages + [m], role, a) == Count(messages, role, a) + if Plays(m, role, a) then 1 else 0
  {
    assert (messages + [m])[..|messages|] == messages;
  }

  lemma NobodyCounts(messages: seq<ChainMessage>, role: Role, a: string)
    requires !Participates(messages, a)
    ensures Count(messages, role, a) == 0
  {
    if messages != [] {
      var rest, m := messages[..|messages| - 1], messages[|messages| - 1];
      assert m in messages;
      assert forall x :: x in rest ==> x in messages;
      NobodyCounts(rest, role, a);
    }
  }

  lemma BystanderKeepsBounds(agent: DiscoveredAgent, messages: seq<ChainMessage>, m: ChainMessage)
    requires Bounds(agent, messages) && !Involves(m, agent.address)
    ensures Bounds(agent, messages + [m])
  {
    var all := messages + [m];
    var first :| first in messages && Involves(first, agent.address) && first.confirmedRound == agent.firstSeenRound;
    assert first in all;
    var k :| FirstToReach(messages, agent.address, agent.lastSeenRound, k)
        && messages[k].roundTime == agent.lastSeenTime;
    assert FirstToReach(all, agent.address, agent.lastSeenRound, k);
  }

  lemma MeetKeepsBounds(agent: DiscoveredAgent, messages: seq<ChainMessage>, m: ChainMessage)
    requires Bounds(agent, messages) && Involves(m, agent.address)
    ensures Bounds(Meet(agent, m), messages + [m])
  {
    var all, a, r := messages + [m], agent.address, Meet(agent, m);
    var first :| first in messages && Involves(first, a) && first.confirmedRound == agent.firstSeenRound;
    assert first in all && m in all;
    var k :| FirstToReach(messages, a, agent.lastSeenRound, k) && messages[k].roundTime == agent.lastSeenTime;
    if m.confirmedRound > agent.lastSeenRound {
      forall j | 0 <= j < |messages| && Involves(all[j], a) ensures all[j].confirmedRound < m.confirmedRound {
        assert messages[j] in messages;
      }
      assert FirstToReach(all, a, r.lastSeenRound, |messages|);
    } else {
      assert FirstToReach(all, a, r.lastSeenRound, k);
    }
  }

  lemma NewcomerBounds(agent: DiscoveredAgent, messages: seq<ChainMessage>, m: ChainMessage)
    requires !Participates(messages, agent.address) && Involves(m, agent.address)
    requires agent.firstSeenRound == agent.lastSeenRound == m.confirmedRound && agent.lastSeenTime == m.roundTime
    ensures Bounds(agent, messages + [m])
  {
    var all := messages + [m];
    assert all[|messages|] == m;
    forall j | 0 <= j < |messages| ensures !Involves(all[j], agent.address) {
      assert messages[j] in messages;
    }
    assert FirstToReach(all, agent.address, agent.lastSeenRound, |messages|);
  }

  lemma ParticipatesExtends(messages: seq<ChainMessage>, m: ChainMessage, a: string)
    ensures Participates(messages + [m], a) <==> Participates(messages, a) || Involves(m, a)
  {
    var all := messages + [m];
    assert all[|messages|] == m;
    if Participates(messages, a) {
      var x :| x in messages && Involves(x, a);
      assert x in all;
    }
  }

  lemma BoundsIgnoreCounts(x: DiscoveredAgent, y: DiscoveredAgent, messages: seq<ChainMessage>)
    requires Bounds(x, messages) && y == x.(sent := y.sent, received := y.received)
    ensures Bounds(y, messages)
  {
  }

  lemma OneMessage(agents: Agents, messages: seq<ChainMessage>, m: ChainMessage, a: string)
    requires Faithful(agents, messages)
    ensures a in After(agents, m) <==> Participates(messages + [m], a)
    ensures a in After(agents, m) ==>
      After(agents, m)[a].address == a && Summarises(After(agents, m)[a], messages + [m])
  {
    hide After, Count, Bounds, Participates;
    AfterAt(agents, m, a);
    ParticipatesExtends(messages, m, a);
    CountExtends(messages, m, Sender, a);
    CountExtends(messages, m, Receiver, a);
    if Involves(m, a) {
      var e := EntryFor(agents, a, m);
      if a in agents {
        MeetKeepsBounds(e, messages, m);
      } else {
        NobodyCounts(messages, Sender, a);
        NobodyCounts(messages, Receiver, a);
        NewcomerBounds(Meet(e, m), messages, m);
      }
      BoundsIgnoreCounts(Meet(e, m), After(agents, m)[a], messages + [m]);
    } else if a in agents {
      BystanderKeepsBounds(agents[a], messages, m);
    }
  }

  lemma NobodyInNoMessages(a: string)
    ensures !Participates([], a)
  {
  }

  lemma {:induction false} SeenIsFaithful(messages: seq<ChainMessage>)
    ensures Faithful(Seen(messages), messages)
  {
    hide Summarises, Participates, After;
    if messages == [] {
      forall a ensures !Participates(messages, a) {
        NobodyInNoMessages(a);
      }
    } else {
      var rest, m := messages[..|messages| - 1], messages[|messages| - 1];
      SeenIsFaithful(rest);
      assert rest + [m] == messages;
      forall a {
        OneMessage(Seen(rest), rest, m, a);
      }
    }
  }

  // ---------- the report ----------

  predicate Descending(report: seq<DiscoveredAgent>) {
    forall i, j :: 0 <= i < j < |report| ==> report[i].lastSeenRound >= report[j].lastSeenRound
  }

  predicate DistinctAddresses(report: seq<DiscoveredAgent>) {
    forall i, j :: 0 <= i < j < |report| ==> report[i].address != report[j].address
  }

  ghost predicate Listed(report: seq<DiscoveredAgent>, address: string) {
    exists r :: r in report && r.address == address
  }

  ghost predicate IsReport(report: seq<DiscoveredAgent>, messages: seq<ChainMessage>) {
    && DistinctAddresses(report)
    && (forall a :: Listed(report, a) <==> Participates(messages, a))
    && (forall r :: r in report ==> Summarises(r, messages))
    && Descending(report)
  }

  lemma LatestExists(agents: Agents) returns (latest: string)
    requires |agents| > 0
    ensures latest in agents && forall b :: b in agents ==> agents[b].lastSeenRound <= agents[latest].lastSeenRound
    decreases |agents|
  {
    assert agents.Keys != {};
    latest :| latest in agents;
    var rest := agents - {latest};
    assert rest.Keys == agents.Keys - {latest};
    if |rest| > 0 {
      var other := LatestExists(rest);
      assert forall b :: b in agents ==> b == latest || b in rest;
      if agents[latest].lastSeenRound < agents[other].lastSeenRound {
        latest := other;
      }
    }
  }

  /** The report holds the entries no longer in `rest`, and none of them was seen before one of those. */
  ghost predicate Extracted(agents: Agents, rest: Agents, report: seq<DiscoveredAgent>) {
    && rest.Keys <= agents.Keys
    && (forall a :: a in rest ==> rest[a] == agents[a])
    && (forall r :: r in report ==> r.address in agents && r.address !in rest && agents[r.address] == r)
    && (forall a :: a in agents && a !in rest ==> agents[a] in report)
    && (forall r, a :: r in report && a in rest ==> rest[a].lastSeenRound <= r.lastSeenRound)
  }

  lemma ExtractNext(agents: Agents, rest: Agents, report: seq<DiscoveredAgent>, next: string)
    requires forall a :: a in agents ==> agents[a].address == a
    requires Extracted(agents, rest, report) && DistinctAddresses(report) && Descending(report)
    requires next in rest && forall b :: b in rest ==> rest[b].lastSeenRound <= rest[next].lastSeenRound
    ensures Extracted(agents, rest - {next}, report + [rest[next]])
    ensures DistinctAddresses(report + [rest[next]]) && Descending(report + [rest[next]])
  {
    assert rest[next].address == next;
    forall i | 0 <= i < |report|
      ensures report[i].address != next && report[i].lastSeenRound >= rest[next].lastSeenRound
    {
      assert report[i] in report;
    }
  }

  /** into_values and the sort: the values in any order, brought into descending order of last round. */
  method SortedByLastSeen(agents: Agents) returns (report: seq<DiscoveredAgent>)
    requires forall a :: a in agents ==> agents[a].address == a
    ensures DistinctAddresses(report) && Descending(report)
    ensures forall a :: a in agents ==> agents[a] in report
    ensures forall r :: r in report ==> r.address in agents && agents[r.address] == r
  {
    report := [];
    var rest := agents;
    while |rest| > 0
      invariant Extracted(agents, rest, report) && DistinctAddresses(report) && Descending(report)
      decreases |rest|
    {
      ghost var latest := LatestExists(rest);
      var next :| next in rest && forall b :: b in rest ==> rest[b].lastSeenRound <= rest[next].lastSeenRound;
      ExtractNext(agents, rest, report, next);
      report := report + [rest[next]];
      assert (rest - {next}).Keys == rest.Keys - {next};
      rest := rest - {next};
    }
  }

  method DiscoverAgents(messages: seq<ChainMessage>) returns (report: seq<DiscoveredAgent>)
    ensures IsReport(report, messages)
  {
    hide Participates, Summarises;
    var agents: Agents := map[];
    for i := 0 to |messages|
      invariant agents == Seen(messages[..i])
    {
      var m := messages[i];
      agents := Track(agents, Sender, m);
      if m.receiver != "" {
        agents := Track(agents, Receiver, m);
      }
      assert messages[..i + 1][..i] == messages[..i];
    }
    assert messages[..|messages|] == messages;
    SeenIsFaithful(messages);
    report := SortedByLastSeen(agents);
    forall a | a in agents ensures Listed(report, a) {
      assert agents[a] in report;
    }
  }

  method Track(agents: Agents, role: Role, m: ChainMessage) returns (updated: Agents)
    ensures updated == Tracked(agents, role, m)
  {
    var address := if role.Sender? then m.sender else m.receiver;
    var entry := if address in agents then agents[address]
        else DiscoveredAgent(address, 0, 0, m.confirmedRound, m.confirmedRound, m.roundTime);
    if role.Sender? {
      entry := entry.(sent := entry.sent + 1);
    } else {
      entry := entry.(received := entry.received + 1);
    }
    if m.confirmedRound < entry.firstSeenRound {
      entry := entry.(firstSeenRound := m.confirmedRound);
    }
    if m.confirmedRound > entry.lastSeenRound {
      entry := entry.(lastSeenRound := m.confirmedRound, lastSeenTime := m.roundTime);
    }
    updated := agents[address := entry];
  }

  // ---------- what a report adds up to ----------

  lemma SummaryIsUnique(x: DiscoveredAgent, y: DiscoveredAgent, messages: seq<ChainMessage>)
    requires Summarises(x, messages) && Summarises(y, messages) && x.address == y.address
    ensures x == y
  {
    var a := x.address;
    BoundsAgree(x, y, messages, messages);
    var j :| FirstToReach(messages, a, x.lastSeenRound, j) && messages[j].roundTime == x.lastSeenTime;
    var k :| FirstToReach(messages, a, y.lastSeenRound, k) && messages[k].roundTime == y.lastSeenTime;
  }

  /** The rounds only depend on which messages there are. */
  lemma BoundsAgree(x: DiscoveredAgent, y: DiscoveredAgent, messages: seq<ChainMessage>, others: seq<ChainMessage>)
    requires Bounds(x, messages) && Bounds(y, others) && x.address == y.address
    requires forall m :: m in messages <==> m in others
    ensures x.firstSeenRound == y.firstSeenRound && x.lastSeenRound == y.lastSeenRound
  {
    var a := x.address;
    var j :| FirstToReach(messages, a, x.lastSeenRound, j);
    var k :| FirstToReach(others, a, y.lastSeenRound, k);
    assert messages[j] in messages && others[k] in others;
  }

  function Total(report: seq<DiscoveredAgent>, role: Role): nat {
    if report == [] then 0
    else (if role.Sender? then report[0].sent else report[0].received) + Total(report[1..], role)
  }

  function TotalCounts(report: seq<DiscoveredAgent>, role: Role, messages: seq<ChainMessage>): nat {
    if report == [] then 0 else Count(messages, role, report[0].address) + TotalCounts(report[1..], role, messages)
  }

  function WithRole(messages: seq<ChainMessage>, role: Role): nat {
    if messages == [] then 0
    else WithRole(messages[..|messages| - 1], role) +
         if role.Sender? || messages[|messages| - 1].receiver != "" then 1 else 0
  }

  lemma {:induction false} TotalsCountMessages(report: seq<DiscoveredAgent>, role: Role, messages: seq<ChainMessage>)
    requires forall r :: r in report ==> Summarises(r, messages)
    ensures Total(report, role) == TotalCounts(report, role, messages)
  {
    hide Bounds;
    if report != [] {
      assert report[0] in report;
      TotalsCountMessages(report[1..], role, messages);
    }
  }

  /** One more message adds one to the total if its player is listed. */
  lemma {:induction false} OneMoreMessage(report: seq<DiscoveredAgent>, role: Role, messages: seq<ChainMessage>,
                                          m: ChainMessage)
    requires DistinctAddresses(report)
    ensures TotalCounts(report, role, messages + [m])
         == TotalCounts(report, role, messages) + if exists r :: r in report && Plays(m, role, r.address) then 1 else 0
  {
    if report != [] {
      CountExtends(messages, m, role, report[0].address);
      OneMoreMessage(report[1..], role, messages, m);
      assert forall r :: r in report <==> r == report[0] || r in report[1..];
      if Plays(m, role, report[0].address) {
        assert forall r :: r in report[1..] ==> r.address != report[0].address;
      }
    }
  }

  lemma {:induction false} ListedTotals(report: seq<DiscoveredAgent>, role: Role, messages: seq<ChainMessage>)
    requires DistinctAddresses(report)
    requires forall m, a :: m in messages && Plays(m, role, a) ==> Listed(report, a)
    ensures TotalCounts(report, role, messages) == WithRole(messages, role)
  {
    if messages == [] {
      NothingToCount(report, role);
    } else {
      var rest, m := messages[..|messages| - 1], messages[|messages| - 1];
      assert rest + [m] == messages;
      ListedTotals(report, role, rest);
      OneMoreMessage(report, role, rest, m);
      var player := if role.Sender? then m.sender else m.receiver;
      if Plays(m, role, player) {
        assert Listed(report, player);
      }
    }
  }

  lemma NothingToCount(report: seq<DiscoveredAgent>, role: Role)
    ensures TotalCounts(report, role, []) == 0
  {
  }

  lemma {:induction false} EveryMessageHasASender(messages: seq<ChainMessage>)
    ensures WithRole(messages, Sender) == |messages|
  {
    if messages != [] {
      EveryMessageHasASender(messages[..|messages| - 1]);
    }
  }

  /** Nothing is lost and nothing is counted twice. */
  lemma ReportAddsUp(report: seq<DiscoveredAgent>, messages: seq<ChainMessage>)
    requires IsReport(report, messages)
    ensures Total(report, Sender) == |messages|
    ensures Total(report, Receiver) == WithRole(messages, Receiver)
  {
    hide Summarises, Total, TotalCounts, WithRole, Listed, DistinctAddresses, Descending;
    EveryMessageHasASender(messages);
    forall m, role, a | m in messages && Plays(m, role, a) ensures Listed(report, a) {
      assert Involves(m, a);
    }
    TotalsCountMessages(report, Sender, messages);
    TotalsCountMessages(report, Receiver, messages);
    ListedTotals(report, Sender, messages);
    ListedTotals(report, Receiver, messages);
  }

  // ---------- does the order of the messages matter ----------

  ghost predicate SameMessages(messages: seq<ChainMessage>, others: seq<ChainMessage>) {
    multiset(messages) == multiset(others)
  }

  lemma {:induction false} CountConcat(s: seq<ChainMessage>, t: seq<ChainMessage>, role: Role, a: string)
    ensures Count(s + t, role, a) == Count(s, role, a) + Count(t, role, a)
  {
    if t == [] {
      assert s + t == s;
    } else {
      assert (s + t)[..|s + t| - 1] == s + t[..|t| - 1];
      CountConcat(s, t[..|t| - 1], role, a);
    }
  }

  function Without(messages: seq<ChainMessage>, k: nat): seq<ChainMessage>
    requires k < |messages|
  {
    messages[..k] + messages[k + 1..]
  }

  lemma TakingOneOut(messages: seq<ChainMessage>, k: nat)
    requires k < |messages|
    ensures |Without(messages, k)| == |messages| - 1
    ensures multiset(messages) == multiset{messages[k]} + multiset(Without(messages, k))
  {
    assert messages == messages[..k] + [messages[k]] + messages[k + 1..];
  }

  lemma CountWithoutOne(messages: seq<ChainMessage>, k: nat, role: Role, a: string)
    requires k < |messages|
    ensures Count(messages, role, a)
         == Count(Without(messages, k), role, a) + if Plays(messages[k], role, a) then 1 else 0
  {
    var left, right := messages[..k], messages[k + 1..];
    assert left + [messages[k]] + right == messages;
    CountConcat(left, right, role, a);
    CountConcat(left + [messages[k]], right, role, a);
    CountExtends(left, messages[k], role, a);
  }

  lemma {:induction false} CountIgnoresOrder(messages: seq<ChainMessage>, others: seq<ChainMessage>, role: Role,
                                             a: string)
    requires SameMessages(messages, others)
    ensures Count(messages, role, a) == Count(others, role, a)
    decreases |messages|
  {
    SameLength(messages, others);
    if messages != [] {
      hide Count, Without;
      assert messages[0] in others;
      var k :| 0 <= k < |others| && others[k] == messages[0];
      TakingOneOut(messages, 0);
      TakingOneOut(others, k);
      var m := multiset{messages[0]};
      assert multiset(Without(messages, 0)) == multiset(messages) - m;
      assert multiset(Without(others, k)) == multiset(others) - m;
      CountIgnoresOrder(Without(messages, 0), Without(others, k), role, a);
      CountWithoutOne(messages, 0, role, a);
      CountWithoutOne(others, k, role, a);
    }
  }

  lemma SameLength(messages: seq<ChainMessage>, others: seq<ChainMessage>)
    requires SameMessages(messages, others)
    ensures |messages| == |others|
    ensures forall m :: m in messages <==> m in others
  {
    assert |multiset(messages)| == |messages| && |multiset(others)| == |others|;
    forall m ensures m in messages <==> m in others {
      assert m in messages <==> m in multiset(messages);
      assert m in others <==> m in multiset(others);
    }
  }

  /** All messages that reach the address's last round carry the time its summary has. */
  predicate LastTimesAgree(agent: DiscoveredAgent, messages: seq<ChainMessage>) {
    forall m :: m in messages && Involves(m, agent.address) && m.confirmedRound == agent.lastSeenRound ==>
      m.roundTime == agent.lastSeenTime
  }

  /** Whatever the order of the messages, the summary of the address is this one. */
  ghost predicate OrderIrrelevant(agent: DiscoveredAgent, messages: seq<ChainMessage>) {
    forall others: seq<ChainMessage>, other: DiscoveredAgent ::
      SameMessages(messages, others) && other.address == agent.address && Summarises(other, others) ==> other == agent
  }

  lemma AgreeingTimesSuffice(x: DiscoveredAgent, messages: seq<ChainMessage>, y: DiscoveredAgent,
                             others: seq<ChainMessage>)
    requires Summarises(x, messages) && LastTimesAgree(x, messages)
    requires SameMessages(messages, others) && y.address == x.address && Summarises(y, others)
    ensures y == x
  {
    SameLength(messages, others);
    CountIgnoresOrder(messages, others, Sender, x.address);
    CountIgnoresOrder(messages, others, Receiver, x.address);
    BoundsAgree(x, y, messages, others);
    var k :| FirstToReach(others, y.address, y.lastSeenRound, k) && others[k].roundTime == y.lastSeenTime;
    assert others[k] in others;
  }

  lemma ToFront(messages: seq<ChainMessage>, k: nat)
    requires k < |messages|
    ensures SameMessages(messages, [messages[k]] + Without(messages, k))
  {
    TakingOneOut(messages, k);
  }

  lemma FrontMessageGivesTheTime(x: DiscoveredAgent, messages: seq<ChainMessage>, k: nat)
    requires Summarises(x, messages)
    requires k < |messages| && Involves(messages[k], x.address) && messages[k].confirmedRound == x.lastSeenRound
    ensures SameMessages(messages, [messages[k]] + Without(messages, k))
    ensures Summarises(x.(lastSeenTime := messages[k].roundTime), [messages[k]] + Without(messages, k))
  {
    hide Count, Without, SameMessages;
    var front, y := [messages[k]] + Without(messages, k), x.(lastSeenTime := messages[k].roundTime);
    ToFront(messages, k);
    SameLength(messages, front);
    CountIgnoresOrder(messages, front, Sender, x.address);
    CountIgnoresOrder(messages, front, Receiver, x.address);
    assert front[0] == messages[k];
    assert FirstToReach(front, y.address, y.lastSeenRound, 0);
  }

  /** The order of the messages does not matter for an address exactly when the messages at its last
      round agree on the time. */
  lemma OrderMattersOnlyForTies(agent: DiscoveredAgent, messages: seq<ChainMessage>)
    requires Summarises(agent, messages)
    ensures OrderIrrelevant(agent, messages) <==> LastTimesAgree(agent, messages)
  {
    hide Summarises, SameMessages;
    if LastTimesAgree(agent, messages) {
      forall others: seq<ChainMessage>, other: DiscoveredAgent
        | SameMessages(messages, others) && other.address == agent.address && Summarises(other, others)
        ensures other == agent
      {
        AgreeingTimesSuffice(agent, messages, other, others);
      }
    }
    if OrderIrrelevant(agent, messages) {
      forall m | m in messages && Involves(m, agent.address) && m.confirmedRound == agent.lastSeenRound
        ensures m.roundTime == agent.lastSeenTime
      {
        var k :| 0 <= k < |messages| && messages[k] == m;
        FrontMessageGivesTheTime(agent, messages, k);
      }
    }
  }

  /** On a chain a round has one time. */
  ghost predicate RoundDeterminesTime(messages: seq<ChainMessage>) {
    forall m, n :: m in messages && n in messages && m.confirmedRound == n.confirmedRound ==> m.roundTime == n.roundTime
  }

  lemma ReportCovers(report: seq<DiscoveredAgent>, messages: seq<ChainMessage>, report': seq<DiscoveredAgent>,
                     others: seq<ChainMessage>)
    requires IsReport(report, messages) && IsReport(report', others)
    requires SameMessages(messages, others) && RoundDeterminesTime(messages)
    ensures forall r :: r in report ==> r in report'
  {
    forall r | r in report ensures r in report' {
      SummaryCarriesOver(r, report, messages, report', others);
    }
  }

  lemma SummaryCarriesOver(r: DiscoveredAgent, report: seq<DiscoveredAgent>, messages: seq<ChainMessage>,
                           report': seq<DiscoveredAgent>, others: seq<ChainMessage>)
    requires IsReport(report, messages) && IsReport(report', others) && r in report
    requires SameMessages(messages, others) && RoundDeterminesTime(messages)
    ensures r in report'
  {
    hide Summarises, SameMessages;
    assert Listed(report, r.address);
    SameParticipants(messages, others, r.address);
    var r' :| r' in report' && r'.address == r.address;
    TimesAgree(r, messages);
    AgreeingTimesSuffice(r, messages, r', others);
  }

  lemma SameParticipants(messages: seq<ChainMessage>, others: seq<ChainMessage>, address: string)
    requires SameMessages(messages, others)
    ensures Participates(messages, address) == Participates(others, address)
  {
    SameLength(messages, others);
  }

  lemma TimesAgree(agent: DiscoveredAgent, messages: seq<ChainMessage>)
    requires Summarises(agent, messages) && RoundDeterminesTime(messages)
    ensures LastTimesAgree(agent, messages)
  {
    var k :| FirstToReach(messages, agent.address, agent.lastSeenRound, k)
        && messages[k].roundTime == agent.lastSeenTime;
    assert messages[k] in messages;
  }

  /** Then two reports over the same messages list the same summaries. */
  lemma ReportsAgree(report: seq<DiscoveredAgent>, messages: seq<ChainMessage>, report': seq<DiscoveredAgent>,
                     others: seq<ChainMessage>)
    requires IsReport(report, messages) && IsReport(report', others)
    requires SameMessages(messages, others) && RoundDeterminesTime(messages)
    ensures forall r :: r in report <==> r in report'
  {
    hide IsReport;
    SameLength(messages, others);
    ReportCovers(report, messages, report', others);
    ReportCovers(report', others, report, messages);
  }
}
