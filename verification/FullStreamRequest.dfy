// Full-stream requests: the receiver's once-a-second decision, and the sender's list of requesting peers.
module FullStreamRequest {
  import opened Bytes

  const ONE_SECOND: nat := 1000 * RIST_CLOCK
  const MAX_U64: U64 := 0xFFFF_FFFF_FFFF_FFFF

  datatype Peer = Peer(id: nat, isRtcp: bool, isData: bool, flow: Option<U32>, weight: nat, lastRtt: U64, dead: bool,
                       lastPacket: U64)

  // A request as sent: to which recovery agent, and what it asks for.
  datatype Message = Message(agent: nat, enable: bool, flow: U32)

  // What the receiver remembers, the requests it has sent, and how many of them came before the last change
  // of mind.
  datatype Monitor = Monitor(active: bool, nextCheck: U64, lastEnable: U64, lastDisable: U64, sent: seq<Message>,
                             toggle: nat)

  // ---- choosing peers ----

  predicate CarriesFlow(p: Peer) { p.isData && p.flow.Some? }

  // The last data peer whose weight is not 1000.
  function Satellite(peers: seq<Peer>): (p: Option<Peer>)
    ensures p.Some? ==> p.value in peers && CarriesFlow(p.value) && p.value.weight != 1000
  {
    if peers == [] then None
    else
      var last := peers[|peers| - 1];
      if CarriesFlow(last) && last.weight != 1000 then Some(last) else Satellite(peers[..|peers| - 1])
  }

  // There is one whenever a data peer that carries a flow has another weight, and no such peer comes after it.
  lemma {:induction false} SatelliteIsLast(peers: seq<Peer>, k: nat)
    requires k < |peers| && CarriesFlow(peers[k]) && peers[k].weight != 1000
    ensures Satellite(peers).Some? && exists j :: k <= j < |peers| && peers[j] == Satellite(peers).value
  {
    var n := |peers| - 1;
    if CarriesFlow(peers[n]) && peers[n].weight != 1000 {
      assert peers[n] == Satellite(peers).value;
    } else {
      SatelliteIsLast(peers[..n], k);
      var j :| k <= j < n && peers[..n][j] == Satellite(peers[..n]).value;
      assert peers[j] == Satellite(peers).value;
    }
  }

  predicate HasRecovery(peers: seq<Peer>) { exists p :: p in peers && CarriesFlow(p) && p.weight == 1000 }

  predicate Eligible(p: Peer, live: bool) { p.isRtcp && p.weight == 1000 && (live ==> !p.dead) }

  // The first eligible peer of the lowest round-trip time.
  function Best(peers: seq<Peer>, live: bool): (p: Option<Peer>)
    ensures p.Some? ==> p.value in peers && Eligible(p.value, live)
  {
    if peers == [] then None
    else
      var b, last := Best(peers[..|peers| - 1], live), peers[|peers| - 1];
      if Eligible(last, live) && last.lastRtt < (if b.Some? then b.value.lastRtt else MAX_U64) then Some(last) else b
  }

  // A live recovery agent, or a dead one rather than none.
  function Agent(peers: seq<Peer>): Option<Peer> {
    if Best(peers, true).Some? then Best(peers, true) else Best(peers, false)
  }

  lemma {:induction false} BestIsLowest(peers: seq<Peer>, live: bool, p: Peer)
    requires p in peers && Eligible(p, live) && p.lastRtt < MAX_U64
    ensures Best(peers, live).Some? && Best(peers, live).value.lastRtt <= p.lastRtt
  {
    var n := |peers| - 1;
    assert peers == peers[..n] + [peers[n]];
    if p in peers[..n] { BestIsLowest(peers[..n], live, p); }
  }

  // ---- the decision ----

  function SinceMs(p: Peer, now: U64): nat { Wrap64(now - p.lastPacket) / RIST_CLOCK }

  function RttMs(p: Peer): U32 { Wrap32(p.lastRtt / RIST_CLOCK) }

  predicate Failing(sat: Peer, now: U64) { sat.dead || SinceMs(sat, now) > 2000 || RttMs(sat) > 500 }

  predicate Healthy(sat: Peer, now: U64) { !sat.dead && SinceMs(sat, now) < 1000 && RttMs(sat) < 200 }

  // Whether each of the two sends of a cycle would succeed.
  datatype Sends = Sends(enableOk: bool, disableOk: bool)

  function Send(m: Monitor, msg: Message): Monitor { m.(sent := m.sent + [msg]) }

  function ShouldEnable(m: Monitor, peers: seq<Peer>, now: U64): bool {
    var sat := Satellite(peers);
    if sat.Some? then Failing(sat.value, now) else HasRecovery(peers) && !m.active
  }

  // The flow named in the request: the satellite's, or the agent's own when there is no satellite.
  function RequestFlow(sat: Option<Peer>, agent: Peer): U32 {
    if sat.Some? && sat.value.flow.Some? then sat.value.flow.value
    else if agent.flow.Some? then agent.flow.value else 0
  }

  // Enabling, or keeping alive what is enabled every thirty seconds.
  function EnablePhase(m: Monitor, peers: seq<Peer>, now: U64, sends: Sends): Monitor {
    var sat, agent := Satellite(peers), Agent(peers);
    if !ShouldEnable(m, peers, now) || agent.None? || !sends.enableOk then m
    else
      var flow := RequestFlow(sat, agent.value);
      if !m.active then
        if flow == 0 then m
        else Send(m, Message(agent.value.id, true, flow)).(active := true, lastEnable := now, toggle := |m.sent|)
      else if sat.Some? && Wrap64(now - m.lastEnable) >= 30 * ONE_SECOND then
        Send(m, Message(agent.value.id, true, flow)).(lastEnable := now)
      else m
  }

  // Disabling when the satellite is well again, or repeating the disable every five seconds. disable: the
  // wish as it stood before the enabling phase.
  function DisablePhase(m: Monitor, disable: bool, peers: seq<Peer>, now: U64, sends: Sends): Monitor {
    var sat, agent := Satellite(peers), Agent(peers);
    if sat.None? then m
    else
      var msg := if agent.Some? then Message(agent.value.id, false, sat.value.flow.value) else Message(0, false, 0);
      var since := Wrap64(now - m.lastDisable);
      if disable && m.active then
        if agent.Some? && sends.disableOk then
          Send(m, msg).(active := false, lastDisable := now, toggle := |m.sent|)
        else m
      else if !m.active && m.lastDisable > 0 then
        if 5 * ONE_SECOND <= since < 30 * ONE_SECOND then
          if agent.Some? && sends.disableOk then Send(m, msg).(lastDisable := now) else m
        else if since >= 30 * ONE_SECOND then m.(lastDisable := 0)
        else m
      else m
  }

  predicate ShouldDisable(m: Monitor, peers: seq<Peer>, now: U64) {
    var sat := Satellite(peers);
    sat.Some? && m.active && !ShouldEnable(m, peers, now) && Healthy(sat.value, now)
  }

  // One turn of the protocol loop; the check runs once a second.
  function Cycle(m: Monitor, peers: seq<Peer>, now: U64, sends: Sends): Monitor {
    if peers == [] || now < m.nextCheck then m
    else
      var disable := ShouldDisable(m, peers, now);
      var m' := EnablePhase(m.(nextCheck := Wrap64(now + ONE_SECOND)), peers, now, sends);
      DisablePhase(m', disable, peers, now, sends)
  }

  // ---- what every run keeps ----

  // The state is what the last request asked for, and so is every request since the last change.
  ghost predicate Consistent(m: Monitor) {
    && (m.active <==> m.sent != [] && m.sent[|m.sent| - 1].enable)
    && m.toggle <= |m.sent| && (m.sent != [] ==> m.toggle < |m.sent|)
    && (forall i :: m.toggle <= i < |m.sent| ==> m.sent[i].enable == m.active)
  }

  lemma EnableKeepsConsistent(m: Monitor, peers: seq<Peer>, now: U64, sends: Sends)
    requires Consistent(m)
    ensures Consistent(EnablePhase(m, peers, now, sends))
  {
    hide ShouldEnable, Agent, Satellite, RequestFlow;
  }

  lemma DisableKeepsConsistent(m: Monitor, disable: bool, peers: seq<Peer>, now: U64, sends: Sends)
    requires Consistent(m) && (m.lastDisable > 0 ==> m.sent != [])
    ensures Consistent(DisablePhase(m, disable, peers, now, sends))
  {
    hide Agent, Satellite;
  }

  ghost predicate Sound(m: Monitor) { Consistent(m) && (m.lastDisable > 0 ==> m.sent != []) }

  lemma CycleKeepsSound(m: Monitor, peers: seq<Peer>, now: U64, sends: Sends)
    requires Sound(m)
    ensures Sound(Cycle(m, peers, now, sends))
  {
    hide Consistent, ShouldEnable, Agent, Satellite, RequestFlow, ShouldDisable;
    var m0 := m.(nextCheck := Wrap64(now + ONE_SECOND));
    SameStory(m, m0);
    EnableKeepsConsistent(m0, peers, now, sends);
    DisableKeepsConsistent(EnablePhase(m0, peers, now, sends), ShouldDisable(m, peers, now), peers, now, sends);
  }

  lemma SameStory(m: Monitor, n: Monitor)
    requires Consistent(m) && n.active == m.active && n.sent == m.sent && n.toggle == m.toggle
    ensures Consistent(n)
  {
  }

  datatype Turn = Turn(peers: seq<Peer>, now: U64, sends: Sends)

  ghost function Run(turns: seq<Turn>, start: U64): (m: Monitor)
    ensures Sound(m)
  {
    hide Sound, Cycle;
    if turns == [] then
      StartIsSound(start);
      Monitor(false, start, 0, 0, [], 0)
    else
      var m, t := Run(turns[..|turns| - 1], start), turns[|turns| - 1];
      CycleKeepsSound(m, t.peers, t.now, t.sends);
      Cycle(m, t.peers, t.now, t.sends)
  }

  lemma StartIsSound(start: U64)
    ensures Sound(Monitor(false, start, 0, 0, [], 0))
  {
  }

  // ---- the dead band ----

  // With a satellite peer that is neither failing nor healthy, the state does not change, whatever the other
  // peers do.
  lemma DeadBand(m: Monitor, peers: seq<Peer>, now: U64, sends: Sends)
    requires Satellite(peers).Some? && !Failing(Satellite(peers).value, now) && !Healthy(Satellite(peers).value, now)
    ensures Cycle(m, peers, now, sends).active == m.active
  {
    hide Failing, Healthy, Satellite, Agent;
  }

  // Exactly when a cycle switches the request on, and exactly when it switches it off.
  lemma Switches(m: Monitor, peers: seq<Peer>, now: U64, sends: Sends)
    requires peers != [] && now >= m.nextCheck
    ensures var sat, agent, after := Satellite(peers), Agent(peers), Cycle(m, peers, now, sends).active;
      && (!m.active ==> (after <==>
            (if sat.Some? then Failing(sat.value, now) else HasRecovery(peers)) && agent.Some? && sends.enableOk
            && RequestFlow(sat, agent.value) > 0))
      && (m.active ==> (after <==>
            !(sat.Some? && !Failing(sat.value, now) && Healthy(sat.value, now) && agent.Some? && sends.disableOk)))
  {
    hide Failing, Healthy, Satellite, Agent, HasRecovery, RequestFlow;
  }

  // A cycle that does not switch repeats the last request exactly so: Enable every thirty seconds while the satellite
  // fails, Disable from five seconds after the last one on and for as long as that is less than thirty seconds ago.
  lemma RepeatsExactly(m: Monitor, peers: seq<Peer>, now: U64, sends: Sends)
    requires peers != [] && now >= m.nextCheck && Cycle(m, peers, now, sends).active == m.active
    ensures var sat, agent, m' := Satellite(peers), Agent(peers), Cycle(m, peers, now, sends);
      m'.sent == m.sent + (
        if m.active && sat.Some? && Failing(sat.value, now) && agent.Some? && sends.enableOk
           && Wrap64(now - m.lastEnable) >= 30 * ONE_SECOND
        then [Message(agent.value.id, true, sat.value.flow.value)]
        else if !m.active && sat.Some? && m.lastDisable > 0 && agent.Some? && sends.disableOk
                && 5 * ONE_SECOND <= Wrap64(now - m.lastDisable) < 30 * ONE_SECOND
        then [Message(agent.value.id, false, sat.value.flow.value)]
        else [])
  {
    hide Failing, Healthy, Satellite, Agent, HasRecovery;
  }

  // Every request names the satellite's flow; without a satellite, that of the agent it goes to.
  lemma RequestsNameFlow(m: Monitor, peers: seq<Peer>, now: U64, sends: Sends, i: nat)
    requires |m.sent| <= i < |Cycle(m, peers, now, sends).sent|
    ensures var sat, msg := Satellite(peers), Cycle(m, peers, now, sends).sent[i];
      if sat.Some? then sat.value.flow == Some(msg.flow)
      else msg.enable && msg.flow > 0
           && exists a :: a in peers && Eligible(a, false) && a.id == msg.agent && a.flow == Some(msg.flow)
  {
    hide Failing, Healthy, Satellite, Best, HasRecovery;
  }

  // The check runs at most once a second.
  lemma OncePerSecond(m: Monitor, peers: seq<Peer>, now: U64, sends: Sends, peers': seq<Peer>, now': U64, sends': Sends)
    requires peers != [] && m.nextCheck <= now && now' < now + ONE_SECOND < 0x1_0000_0000_0000_0000
    ensures var m' := Cycle(m, peers, now, sends); Cycle(m', peers', now', sends') == m'
  {
    hide Failing, Healthy, Satellite, Agent, HasRecovery, RequestFlow, ShouldEnable, ShouldDisable;
  }

  // A live peer counts as failing from 2001 milliseconds without a packet or of 501 milliseconds of round-trip time on,
  // and as healthy again below 1000 and 200.
  lemma ThresholdsInTicks(sat: Peer, now: U64)
    requires !sat.dead && sat.lastPacket <= now && sat.lastRtt / RIST_CLOCK < 0x1_0000_0000
    ensures Failing(sat, now) <==> now - sat.lastPacket >= 2001 * RIST_CLOCK || sat.lastRtt >= 501 * RIST_CLOCK
    ensures Healthy(sat, now) <==> now - sat.lastPacket < 1000 * RIST_CLOCK && sat.lastRtt < 200 * RIST_CLOCK
  {
  }

  // ---- an agent's list ----

  // A request as it arrives: its bytes and the peer it comes from.
  datatype Arrival = Arrival(size: nat, named: bool, receiverSide: bool, authenticated: bool, peer: nat, enable: bool)

  predicate Accepted(a: Arrival) { a.size >= 12 && a.named && !a.receiverSide && a.authenticated }

  function Handle(members: set<nat>, a: Arrival): set<nat> {
    if !Accepted(a) then members
    else if a.enable then members + {a.peer} else members - {a.peer}
  }

  function HandleAll(members: set<nat>, arrivals: seq<Arrival>): set<nat> {
    if arrivals == [] then members
    else Handle(HandleAll(members, arrivals[..|arrivals| - 1]), arrivals[|arrivals| - 1])
  }

  predicate Speaks(a: Arrival, peer: nat) { Accepted(a) && a.peer == peer }

  // The k-th arrival is the last one accepted from this peer.
  ghost predicate LastFrom(arrivals: seq<Arrival>, k: nat, peer: nat) {
    && k < |arrivals| && Speaks(arrivals[k], peer)
    && forall j :: k < j < |arrivals| ==> !Speaks(arrivals[j], peer)
  }

  // Whatever arrives, a peer is on the list exactly if the last request accepted from it asked for it; requests
  // that are short, misnamed, unauthenticated or met on the receiving side count for nothing, and so do those
  // of other peers.
  lemma {:induction false} LastRequestDecides(members: set<nat>, arrivals: seq<Arrival>, peer: nat, k: nat)
    requires LastFrom(arrivals, k, peer)
    ensures peer in HandleAll(members, arrivals) <==> arrivals[k].enable
  {
    var n := |arrivals| - 1;
    if k < n {
      assert !Speaks(arrivals[n], peer);
      LastRequestDecides(members, arrivals[..n], peer, k);
    }
  }

  lemma {:induction false} SilentPeerStays(members: set<nat>, arrivals: seq<Arrival>, peer: nat)
    requires forall j :: 0 <= j < |arrivals| ==> !Speaks(arrivals[j], peer)
    ensures peer in HandleAll(members, arrivals) <==> peer in members
  {
    if arrivals != [] { SilentPeerStays(members, arrivals[..|arrivals| - 1], peer); }
  }

  // ---- agreement ----

  // What reaches one agent: this receiver's requests, by their place among all it has sent, and anything else.
  datatype Incoming = Request(place: nat) | Other(arrival: Arrival)

  // The agent knows this receiver as peer id. Of the requests sent to it some are lost, the others keep their
  // order; nothing else is taken for one of them.
  ghost predicate ChannelTo(agent: nat, incoming: seq<Incoming>, sent: seq<Message>, id: nat) {
    && (forall i :: 0 <= i < |incoming| && incoming[i].Request? ==>
          incoming[i].place < |sent| && sent[incoming[i].place].agent == agent)
    && (forall i, j :: 0 <= i < j < |incoming| && incoming[i].Request? && incoming[j].Request? ==>
          incoming[i].place < incoming[j].place)
    && (forall i :: 0 <= i < |incoming| && incoming[i].Other? ==> !Speaks(incoming[i].arrival, id))
  }

  function ArrivalOf(x: Incoming, sent: seq<Message>, id: nat): Arrival {
    match x
    case Request(k) => Arrival(16, true, false, true, id, k < |sent| && sent[k].enable)
    case Other(a) => a
  }

  function Arrivals(incoming: seq<Incoming>, sent: seq<Message>, id: nat): (r: seq<Arrival>)
    ensures |r| == |incoming|
  {
    seq(|incoming|, i requires 0 <= i < |incoming| => ArrivalOf(incoming[i], sent, id))
  }

  // One agent's list agrees with the receiver's state exactly if the last request that reached it asked for
  // that state, and it does if that request was sent since the last change.
  lemma Agreement(turns: seq<Turn>, start: U64, members: set<nat>, agent: nat, incoming: seq<Incoming>, id: nat, k: nat)
    requires ChannelTo(agent, incoming, Run(turns, start).sent, id) && k < |incoming| && incoming[k].Request?
    requires forall j :: k < j < |incoming| ==> incoming[j].Other?
    ensures var m := Run(turns, start);
      var listed := id in HandleAll(members, Arrivals(incoming, m.sent, id));
      && (listed == m.active <==> m.sent[incoming[k].place].enable == m.active)
      && (incoming[k].place >= m.toggle ==> listed == m.active)
  {
    hide Run;
    var m := Run(turns, start);
    assert LastFrom(Arrivals(incoming, m.sent, id), k, id);
    LastRequestDecides(members, Arrivals(incoming, m.sent, id), id, k);
  }

  // An agent that nothing has reached keeps its list as it was.
  lemma UnreachedAgent(turns: seq<Turn>, start: U64, members: set<nat>, agent: nat, incoming: seq<Incoming>, id: nat)
    requires ChannelTo(agent, incoming, Run(turns, start).sent, id)
    requires forall j :: 0 <= j < |incoming| ==> incoming[j].Other?
    ensures id in HandleAll(members, Arrivals(incoming, Run(turns, start).sent, id)) <==> id in members
  {
    hide Run;
    SilentPeerStays(members, Arrivals(incoming, Run(turns, start).sent, id), id);
  }

  // The last place of a request to this agent.
  ghost predicate LastTo(sent: seq<Message>, agent: nat, k: nat) {
    k < |sent| && sent[k].agent == agent && forall j :: k < j < |sent| ==> sent[j].agent != agent
  }

  // With nothing lost, the lists of all agents ever asked agree with the receiver if and only if the last
  // request to each of them asked for the state the receiver is in.
  lemma AllAgree(turns: seq<Turn>, start: U64, lists: nat -> set<nat>, arrived: nat -> seq<Incoming>, id: nat)
    requires forall g :: ChannelTo(g, arrived(g), Run(turns, start).sent, id)
    requires forall g: nat, k: nat :: LastTo(Run(turns, start).sent, g, k) ==> Request(k) in arrived(g)
    ensures var m := Run(turns, start);
      (forall g: nat, k: nat :: LastTo(m.sent, g, k) ==>
         (id in HandleAll(lists(g), Arrivals(arrived(g), m.sent, id)) <==> m.active))
      <==> forall g: nat, k: nat :: LastTo(m.sent, g, k) ==> m.sent[k].enable == m.active
  {
    hide Run, HandleAll, Arrivals, Speaks, LastTo, ChannelTo;
    var m := Run(turns, start);
    forall g: nat, k: nat | LastTo(m.sent, g, k)
      ensures k < |m.sent|
      ensures (id in HandleAll(lists(g), Arrivals(arrived(g), m.sent, id)) <==> m.active)
        <==> m.sent[k].enable == m.active
    {
      var i :| 0 <= i < |arrived(g)| && arrived(g)[i] == Request(k);
      LastToIsLast(m.sent, g, k, arrived(g), i, id);
      Agreement(turns, start, lists(g), g, arrived(g), id, i);
    }
  }

  lemma LastToIsLast(sent: seq<Message>, agent: nat, k: nat, incoming: seq<Incoming>, i: nat, id: nat)
    requires ChannelTo(agent, incoming, sent, id) && LastTo(sent, agent, k)
    requires i < |incoming| && incoming[i] == Request(k)
    ensures k < |sent| && forall j :: i < j < |incoming| ==> incoming[j].Other?
  {
  }

  // Every cycle that finds an agent finds this one.
  ghost predicate OneAgent(turns: seq<Turn>, agent: nat) {
    forall t :: t in turns && Agent(t.peers).Some? ==> Agent(t.peers).value.id == agent
  }

  // A cycle only adds requests, all of them to the agent it finds.
  lemma CycleAsksAgent(m: Monitor, peers: seq<Peer>, now: U64, sends: Sends)
    ensures var sent := Cycle(m, peers, now, sends).sent;
      && m.sent <= sent
      && forall i :: |m.sent| <= i < |sent| ==> Agent(peers).Some? && sent[i].agent == Agent(peers).value.id
  {
    hide Satellite, Agent, ShouldEnable, ShouldDisable, RequestFlow;
  }

  // While some eligible agent is alive, every request of a cycle goes to a live one, and none alive is faster;
  // otherwise to one of the dead, and none is faster.
  lemma LiveAgentIsPreferred(m: Monitor, peers: seq<Peer>, now: U64, sends: Sends, i: nat)
    requires |m.sent| <= i < |Cycle(m, peers, now, sends).sent|
    ensures
      var live := exists p :: p in peers && Eligible(p, true) && p.lastRtt < MAX_U64;
      exists a :: a in peers && a.id == Cycle(m, peers, now, sends).sent[i].agent && Eligible(a, live)
                  && forall p :: p in peers && Eligible(p, live) ==> a.lastRtt <= p.lastRtt
  {
    hide Cycle, Eligible;
    CycleAsksAgent(m, peers, now, sends);
    var sent := Cycle(m, peers, now, sends).sent;
    var request := sent[i];
    assert Agent(peers).Some? && request.agent == Agent(peers).value.id;
    var a := Agent(peers).value;
    var live := exists p :: p in peers && Eligible(p, true) && p.lastRtt < MAX_U64;
    BestIsFast(peers, true);
    assert Best(peers, true).Some? ==> live by {
      if Best(peers, true).Some? {
        var b := Best(peers, true).value;
        assert b in peers && Eligible(b, true) && b.lastRtt < MAX_U64;
      }
    }
    if live {
      var p :| p in peers && Eligible(p, true) && p.lastRtt < MAX_U64;
      BestIsLowest(peers, true, p);
    }
    BestIsFast(peers, live);
    forall p | p in peers && Eligible(p, live)
      ensures a.lastRtt <= p.lastRtt
    {
      if p.lastRtt < MAX_U64 { BestIsLowest(peers, live, p); }
    }
  }

  lemma {:induction false} BestIsFast(peers: seq<Peer>, live: bool)
    ensures Best(peers, live).Some? ==> Best(peers, live).value.lastRtt < MAX_U64
  {
    hide Eligible;
    if peers != [] { BestIsFast(peers[..|peers| - 1], live); }
  }

  lemma {:induction false} RunAsksAgent(turns: seq<Turn>, start: U64, agent: nat)
    requires OneAgent(turns, agent)
    ensures forall i :: 0 <= i < |Run(turns, start).sent| ==> Run(turns, start).sent[i].agent == agent
  {
    hide Cycle, Agent;
    if turns != [] {
      var t := turns[|turns| - 1];
      RunAsksAgent(turns[..|turns| - 1], start, agent);
      CycleAsksAgent(Run(turns[..|turns| - 1], start), t.peers, t.now, t.sends);
    }
  }

  // When the choice of the agent never changes, the last request to each agent asked for the receiver's state, so
  // with nothing lost all lists agree.
  lemma AllAgreeOnOneAgent(turns: seq<Turn>, start: U64, agent: nat, lists: nat -> set<nat>,
                           arrived: nat -> seq<Incoming>, id: nat, g: nat, k: nat)
    requires OneAgent(turns, agent)
    requires forall a :: ChannelTo(a, arrived(a), Run(turns, start).sent, id)
    requires forall a: nat, i: nat :: LastTo(Run(turns, start).sent, a, i) ==> Request(i) in arrived(a)
    requires LastTo(Run(turns, start).sent, g, k)
    ensures var m := Run(turns, start);
      && m.sent[k].enable == m.active
      && (id in HandleAll(lists(g), Arrivals(arrived(g), m.sent, id)) <==> m.active)
  {
    RunAsksAgent(turns, start, agent);
    AllAgree(turns, start, lists, arrived, id);
    hide Run, OneAgent, HandleAll, Arrivals, ChannelTo;
    var m := Run(turns, start);
    forall a: nat, i: nat | LastTo(m.sent, a, i)
      ensures i < |m.sent| && m.sent[i].enable == m.active
    {
      assert m.sent[|m.sent| - 1].agent == agent;
    }
  }

  // A satellite peer with flow 2, and two recovery agents, the second the faster one.
  function SatellitePeer(dead: bool, lastPacket: U64): Peer { Peer(9, false, true, Some(2), 5, 0, dead, lastPacket) }

  function AgentPeer(id: nat, rtt: U64): Peer { Peer(id, true, false, None, 1000, rtt, false, 0) }

  function SupersedingTurns(): seq<Turn> {
    var now := 2 * ONE_SECOND;
    [Turn([SatellitePeer(true, 0), AgentPeer(1, 10)], 0, Sends(true, true)),
     Turn([SatellitePeer(false, now), AgentPeer(1, 10), AgentPeer(2, 5)], now, Sends(true, true))]
  }

  // It need not be so: the agent is chosen afresh every cycle. The satellite fails and agent 1 is asked; agent 2
  // appears, the satellite recovers, and agent 2 is told that it is over. Agent 1 never hears of it.
  lemma SupersededAgentKeepsServing(id: nat)
    ensures var m := Run(SupersedingTurns(), 0);
      && m.sent == [Message(1, true, 2), Message(2, false, 2)] && !m.active
      && ChannelTo(1, [Request(0)], m.sent, id) && LastTo(m.sent, 1, 0)
      && id in HandleAll({}, Arrivals([Request(0)], m.sent, id))
  {
    var t1, t2 := SupersedingTurns()[0], SupersedingTurns()[1];
    FirstTurn();
    SecondTurn();
    hide Cycle;
    assert SupersedingTurns()[..1] == [t1] && [t1][..0] == [];
    assert Run([t1], 0) == Cycle(Run([], 0), t1.peers, 0, t1.sends);
    var m := Run(SupersedingTurns(), 0);
    var arrivals := Arrivals([Request(0)], m.sent, id);
    assert arrivals == [Arrival(16, true, false, true, id, true)];
    assert HandleAll({}, arrivals[..0]) == {};
  }

  lemma FirstTurn()
    ensures Cycle(Monitor(false, 0, 0, 0, [], 0), [SatellitePeer(true, 0), AgentPeer(1, 10)], 0, Sends(true, true))
      == Monitor(true, ONE_SECOND, 0, 0, [Message(1, true, 2)], 0)
  {
    var sat, agent := SatellitePeer(true, 0), AgentPeer(1, 10);
    assert [sat, agent][..1] == [sat] && [sat][..0] == [];
    assert Satellite([sat, agent]) == Some(sat) && Best([sat, agent], true) == Some(agent);
  }

  lemma SecondTurn()
    ensures
      var now := 2 * ONE_SECOND;
      Cycle(Monitor(true, ONE_SECOND, 0, 0, [Message(1, true, 2)], 0),
            [SatellitePeer(false, now), AgentPeer(1, 10), AgentPeer(2, 5)], now, Sends(true, true))
      == Monitor(false, now + ONE_SECOND, 0, now, [Message(1, true, 2), Message(2, false, 2)], 1)
  {
    var now := 2 * ONE_SECOND;
    var sat, one, two := SatellitePeer(false, now), AgentPeer(1, 10), AgentPeer(2, 5);
    assert [sat, one, two][..2] == [sat, one] && [sat, one][..1] == [sat] && [sat][..0] == [];
    assert Satellite([sat, one, two]) == Satellite([sat, one]) == Satellite([sat]) == Some(sat);
    assert Best([sat], true) == None && Best([sat, one], true) == Some(one);
    assert Best([sat, one, two], true) == Some(two);
  }
}
