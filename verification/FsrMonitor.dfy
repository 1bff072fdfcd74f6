// The full-stream request logic as the protocol loop runs it: one pass over the peers, then the two sends.
module FsrMonitor {
  import opened Bytes
  import opened FullStreamRequest

  // What one pass over the peer list finds.
  datatype Survey = Survey(satellite: Option<Peer>, recovery: bool, live: Option<Peer>, any: Option<Peer>)

  function Surveyed(peers: seq<Peer>): Survey {
    Survey(Satellite(peers), HasRecovery(peers), Best(peers, true), Best(peers, false))
  }

  function Rtt(p: Option<Peer>): U64 { if p.Some? then p.value.lastRtt else MAX_U64 }

  lemma SurveySnoc(peers: seq<Peer>, p: Peer)
    ensures Satellite(peers + [p]) == if CarriesFlow(p) && p.weight != 1000 then Some(p) else Satellite(peers)
    ensures HasRecovery(peers + [p]) <==> HasRecovery(peers) || (CarriesFlow(p) && p.weight == 1000)
    ensures Best(peers + [p], true) ==
      if Eligible(p, true) && p.lastRtt < Rtt(Best(peers, true)) then Some(p) else Best(peers, true)
    ensures Best(peers + [p], false) ==
      if Eligible(p, false) && p.lastRtt < Rtt(Best(peers, false)) then Some(p) else Best(peers, false)
  {
    assert (peers + [p])[..|peers|] == peers;
  }

  method SurveyPeers(peers: seq<Peer>) returns (s: Survey)
    ensures s == Surveyed(peers)
  {
    hide Satellite, HasRecovery, Best;
    var satellite: Option<Peer>, live: Option<Peer>, any: Option<Peer> := None, None, None;
    var recovery := false;
    NoPeers();
    for i := 0 to |peers|
      invariant Survey(satellite, recovery, live, any) == Surveyed(peers[..i])
    {
      var p := peers[i];
      SurveySnoc(peers[..i], p);
      assert peers[..i + 1] == peers[..i] + [p];
      if p.isRtcp && p.weight == 1000 {
        if p.lastRtt < Rtt(any) {
          any := Some(p);
        }
        if !p.dead && p.lastRtt < Rtt(live) {
          live := Some(p);
        }
      }
      if p.isData && p.flow.Some? {
        if p.weight != 1000 {
          satellite := Some(p);
        } else {
          recovery := true;
        }
      }
    }
    assert peers[..|peers|] == peers;
    s := Survey(satellite, recovery, live, any);
  }

  lemma NoPeers()
    ensures Surveyed([]) == Survey(None, false, None, None)
  {
  }

  class ProtocolLoop {
    var active: bool
    var nextCheck: U64
    var lastEnable: U64
    var lastDisable: U64
    ghost var sent: seq<Message>
    ghost var toggle: nat

    ghost function View(): Monitor
      reads this
    {
      Monitor(active, nextCheck, lastEnable, lastDisable, sent, toggle)
    }

    constructor (now: U64)
      ensures View() == Run([], now)
    {
      active, nextCheck, lastEnable, lastDisable := false, now, 0, 0;
      sent, toggle := [], 0;
    }

    method SendEnable(agent: Peer, flow: U32, now: U64, change: bool)
      modifies this
      ensures View() == Send(old(View()), Message(agent.id, true, flow)).(active := true, lastEnable := now,
                          toggle := if change then |old(sent)| else old(toggle))
    {
      if change {
        toggle := |sent|;
      }
      sent := sent + [Message(agent.id, true, flow)];
      lastEnable := now;
      active := true;
    }

    method SendDisable(agent: Peer, flow: U32, now: U64, change: bool)
      modifies this
      ensures View() == Send(old(View()), Message(agent.id, false, flow)).(active := false, lastDisable := now,
                          toggle := if change then |old(sent)| else old(toggle))
    {
      if change {
        toggle := |sent|;
      }
      sent := sent + [Message(agent.id, false, flow)];
      lastDisable := now;
      active := false;
    }

    method RequestIfNeeded(enable: bool, satellite: Option<Peer>, agent: Option<Peer>, now: U64, ghost peers: seq<Peer>,
                           sends: Sends)
      requires satellite == Satellite(peers) && agent == Agent(peers) && enable == ShouldEnable(View(), peers, now)
      modifies this
      ensures View() == EnablePhase(old(View()), peers, now, sends)
    {
      hide Satellite, Agent, ShouldEnable;
      if enable && !active {
        if agent.Some? {
          var flow := 0;
          if satellite.Some? {
            flow := satellite.value.flow.value;
          } else if agent.value.flow.Some? {
            flow := agent.value.flow.value;
          }
          if flow > 0 && sends.enableOk {
            SendEnable(agent.value, flow, now, true);
          }
        }
      } else if active && enable && satellite.Some? {
        if Wrap64(now - lastEnable) >= 30 * ONE_SECOND {
          if agent.Some? && sends.enableOk {
            SendEnable(agent.value, satellite.value.flow.value, now, false);
          }
        }
      }
    }

    method ReleaseIfWell(disable: bool, satellite: Option<Peer>, agent: Option<Peer>, now: U64, ghost peers: seq<Peer>,
                         sends: Sends)
      requires satellite == Satellite(peers) && agent == Agent(peers)
      modifies this
      ensures View() == DisablePhase(old(View()), disable, peers, now, sends)
    {
      hide Satellite, Agent;
      if disable && active && satellite.Some? {
        if agent.Some? && sends.disableOk {
          SendDisable(agent.value, satellite.value.flow.value, now, true);
        }
      } else if !active && lastDisable > 0 && satellite.Some? {
        var since := Wrap64(now - lastDisable);
        if 5 * ONE_SECOND <= since && since < 30 * ONE_SECOND {
          if agent.Some? && sends.disableOk {
            SendDisable(agent.value, satellite.value.flow.value, now, false);
          }
        } else if since >= 30 * ONE_SECOND {
          lastDisable := 0;
        }
      }
    }

    method Turn(peers: seq<Peer>, now: U64, sends: Sends)
      modifies this
      ensures View() == Cycle(old(View()), peers, now, sends)
    {
      hide Satellite, HasRecovery, Best, EnablePhase, DisablePhase, SinceMs, RttMs;
      if peers == [] || now < nextCheck {
        return;
      }
      nextCheck := Wrap64(now + ONE_SECOND);
      var s := SurveyPeers(peers);
      var enable, disable := false, false;
      if s.satellite.Some? {
        var sat := s.satellite.value;
        if sat.dead {
          enable := true;
        } else if SinceMs(sat, now) > 2000 {
          enable := true;
        } else if RttMs(sat) > 500 {
          enable := true;
        }
        if active && !enable {
          if !sat.dead && SinceMs(sat, now) < 1000 && RttMs(sat) < 200 {
            disable := true;
          }
        }
      }
      var agent := s.live;
      if agent.None? {
        agent := s.any;
      }
      if s.satellite.None? && s.recovery && !active {
        enable := true;
      }
      RequestIfNeeded(enable, s.satellite, agent, now, peers, sends);
      ReleaseIfWell(disable, s.satellite, agent, now, peers, sends);
    }
  }
}
