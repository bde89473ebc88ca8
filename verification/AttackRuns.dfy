/** Which frames of a run are logged as attacks. */
module AttackRuns {
  import opened Machine
  import opened Histories
  import opened Packets
  import opened XdpProgram
  import AttackLog
  import Chain
  import Chronicle
  import DnsTracker
  import Flows
  import RuleMatch
  import Runs
  import SynTracker
  import UdpTracker

  /** Whether a frame gets as far as the UDP check: a complete UDP header and no objection before. */
  predicate MeetsUdpCheck(env: Env, w: World, frame: Frame, c: Clock) {
    && frame.Ipv4? && frame.segment.UdpSegment? && frame.segment.udp.Some?
    && HandleFragment(env, w, frame.ip, c.frag).verdict == Pass && CheckGeoip(env, frame.ip.saddr) == Pass
    && EarlyFilter(env, w, frame.ip, Protocol(frame.segment), c.early).verdict == Pass
    && CheckDns(env, w, frame.ip, frame.segment.udp.value, c.transport).verdict == Pass
  }

  function ProbeOf(env: Env, w: World, ip: IpHeader, h: UdpHeader, now: u64): UdpTracker.UdpSeen {
    var key := UdpFlow(ip, h);
    Seen(ip.saddr, now, UdpTracker.UdpProbe(key, ip.totLen, GetConfig(env).udpFloodRate, IsEstablished(w, key, now)))
  }

  function AttackOf(ip: IpHeader, c: Clock): AttackLog.Attack {
    AttackLog.Attack(c.log, ip.saddr, 17, 1, ip.totLen)
  }

  lemma {:induction false} UdpCheckLogs(env: Env, w: World, v: World, ip: IpHeader, h: UdpHeader, c: Clock)
    requires v.maps.udps == w.maps.udps && v.maps.flows == w.maps.flows
    requires v.past.udps == w.past.udps && v.past.attacks == w.past.attacks
    ensures var x, past := ProbeOf(env, w, ip, h, c.udp), CheckUdp(env, v, ip, h, c.udp, c.log).world.past;
            && past.udps == w.past.udps + [x]
            && past.attacks ==
               if UdpTracker.Step(Lookup(w.maps.udps, ip.saddr), x).rateDropped then w.past.attacks + [AttackOf(ip, c)]
               else w.past.attacks
  {
    hide UdpTracker.Step, GetConfig;
  }

  /** Nothing but the UDP check writes to the UDP history or to the attack log. */
  lemma {:induction false} OthersDoNotLog(env: Env, w: World, ip: IpHeader, s: Segment, c: Clock)
    ensures var v := HandleFragment(env, w, ip, c.frag).world;
            v.maps == w.maps.(frags := v.maps.frags) && v.past == w.past.(frags := v.past.frags)
    ensures var v := EarlyFilter(env, w, ip, Protocol(s), c.early).world;
            v.maps == w.maps.(buckets := v.maps.buckets) && v.past == w.past.(icmp := v.past.icmp)
    ensures s.TcpSegment? && s.tcp.Some? ==>
              var v := CheckSynFlood(env, w, ip, s.tcp.value, c.transport).world;
              v.past.udps == w.past.udps && v.past.attacks == w.past.attacks
    ensures s.UdpSegment? && s.udp.Some? ==>
              var v := CheckDns(env, w, ip, s.udp.value, c.transport).world;
              && v.past.udps == w.past.udps && v.past.attacks == w.past.attacks
              && v.maps.udps == w.maps.udps && v.maps.flows == w.maps.flows
  {
    Chain.FilterTouches(env, w, ip, Protocol(s), c);
    hide HandleFragment, EarlyFilter, SynTracker.Step, DnsTracker.Step, Bit, IsEstablished;
  }

  lemma {:induction false} ProbeKey(env: Env, w: World, ip: IpHeader, h: UdpHeader, now: u64)
    ensures ProbeOf(env, w, ip, h, now).key == ip.saddr
  {
  }

  /** What one frame does to the UDP history and the attack log. */
  lemma {:induction false} FrameIsJudged(env: Env, w: World, frame: Frame, c: Clock)
    ensures var past := Process(env, w, frame, c).world.past;
            if MeetsUdpCheck(env, w, frame, c) then
              var x := ProbeOf(env, w, frame.ip, frame.segment.udp.value, c.udp);
              && past.udps == w.past.udps + [x]
              && past.attacks ==
                 if UdpTracker.Step(Lookup(w.maps.udps, x.key), x).rateDropped
                 then w.past.attacks + [AttackOf(frame.ip, c)] else w.past.attacks
            else past.udps == w.past.udps && past.attacks == w.past.attacks
  {
    hide HandleFragment, CheckGeoip, EarlyFilter, CheckDns, CheckUdp, CheckSynFlood, Flows.Step, PacketOf, FlowOf,
         RuleMatch.ApplyRule, UdpTracker.Step, ProbeOf, AttackOf;
    if frame.Ipv4? {
      var ip, s := frame.ip, frame.segment;
      var w0 := CountFrame(w, frame.wireLength);
      var w1 := HandleFragment(env, w0, ip, c.frag).world;
      var w2 := EarlyFilter(env, w1, ip, Protocol(s), c.early).world;
      OthersDoNotLog(env, w0, ip, s, c);
      OthersDoNotLog(env, w1, ip, s, c);
      OthersDoNotLog(env, w2, ip, s, c);
      if s.UdpSegment? && s.udp.Some? {
        var h := s.udp.value;
        Chronicle.SameOpinions(env, w, frame.wireLength, ip, s, c);
        UdpCheckLogs(env, w, CheckDns(env, w2, ip, h, c.transport).world, ip, h, c);
        ProbeKey(env, w, ip, h, c.udp);
      }
    }
  }

  /** Whether the last frame of a run is a UDP packet that meets the UDP check and comes too fast
      for what its source has sent before. */
  predicate IsAttack(es: seq<Event>)
    requires es != []
  {
    var e := Last(es);
    && MeetsUdpCheck(e.env, Run(Most(es)), e.frame, e.clock)
    && var xs := Of(Run(es).past.udps, e.frame.ip.saddr);
    && xs != [] && UdpTracker.TooFast(xs)
  }

  /** The records of the attacks of a run. */
  function AttacksOf(es: seq<Event>): seq<AttackLog.Attack> {
    if es == [] then []
    else AttacksOf(Most(es)) + if IsAttack(es) then [AttackOf(Last(es).frame.ip, Last(es).clock)] else []
  }

  lemma {:induction false} MeetingFrame(env: Env, w: World, frame: Frame, c: Clock)
    requires MeetsUdpCheck(env, w, frame, c)
    ensures frame.Ipv4? && frame.segment.UdpSegment? && frame.segment.udp.Some?
  {
  }

  lemma {:induction false} LastFrameLogs(es: seq<Event>)
    requires ClocksOrdered(es) && es != []
    ensures Run(es).past.attacks ==
            Run(Most(es)).past.attacks + if IsAttack(es) then [AttackOf(Last(es).frame.ip, Last(es).clock)] else []
  {
    hide Run, Process, MeetsUdpCheck, Runs.CountersKept, Runs.RelaxedIsBacked, UdpTracker.Step, UdpTracker.TooFast,
         UdpTracker.After, ProbeOf, AttackOf, Of, Monotone;
    var e, w := Last(es), Run(Most(es));
    Runs.PrefixOrdered(es, |es| - 1);
    Runs.RunKeeps(Most(es));
    Runs.RunKeeps(es);
    Runs.RunSnoc(es);
    FrameIsJudged(e.env, w, e.frame, e.clock);
    if MeetsUdpCheck(e.env, w, e.frame, e.clock) {
      MeetingFrame(e.env, w, e.frame, e.clock);
      var ip, h := e.frame.ip, e.frame.segment.udp.value;
      var x := ProbeOf(e.env, w, ip, h, e.clock.udp);
      ProbeKey(e.env, w, ip, h, e.clock.udp);
      OfSnoc(w.past.udps, x, ip.saddr);
      var xs := Of(w.past.udps, ip.saddr) + [x];
      assert Most(xs) == Of(w.past.udps, ip.saddr) && Last(xs) == x;
      OfMonotone(Run(es).past.udps, ip.saddr);
      UdpTracker.RateDroppedExactlyWhen(xs);
    }
  }

  /** The attacks logged in any run are exactly its UDP packets that meet the UDP check and come too fast for the
      history of their source, one record each, in order. */
  lemma {:induction false} LoggedExactlyAttacks(es: seq<Event>)
    requires ClocksOrdered(es)
    ensures Run(es).past.attacks == AttacksOf(es)
  {
    hide IsAttack, Process;
    if es == [] {
    } else {
      Runs.PrefixOrdered(es, |es| - 1);
      LoggedExactlyAttacks(Most(es));
      hide Run;
      LastFrameLogs(es);
    }
  }

  lemma {:induction false} UdpHistoryGrows(es: seq<Event>, source: u32)
    requires es != []
    ensures var before, after := Of(Run(Most(es)).past.udps, source), Of(Run(es).past.udps, source);
            after == before || (after != [] && Most(after) == before)
  {
    hide Run, Process, MeetsUdpCheck, UdpTracker.Step, ProbeOf, Of;
    var e, w := Last(es), Run(Most(es));
    Runs.RunSnoc(es);
    FrameIsJudged(e.env, w, e.frame, e.clock);
    if MeetsUdpCheck(e.env, w, e.frame, e.clock) {
      MeetingFrame(e.env, w, e.frame, e.clock);
      var x := ProbeOf(e.env, w, e.frame.ip, e.frame.segment.udp.value, e.clock.udp);
      OfSnoc(w.past.udps, x, source);
      assert Most(Of(w.past.udps, source) + [x]) == Of(w.past.udps, source);
    }
  }

  /** A source none of whose UDP packets come more than 100 ms after the one before is never logged as an attacker,
      however many it sends and whatever the rate is. */
  lemma {:induction false} SteadySourceIsNeverLogged(es: seq<Event>, source: u32)
    requires ClocksOrdered(es) && UdpTracker.Steady(Of(Run(es).past.udps, source))
    ensures forall a :: a in Run(es).past.attacks ==> a.srcIp != source
  {
    if es == [] {
    } else {
      hide Run, Process, Runs.CountersKept, Runs.RelaxedIsBacked, UdpTracker.TooFast, UdpTracker.Outcome,
           UdpTracker.LastKept, UdpTracker.LastReset, MeetsUdpCheck, Of, Monotone;
      var xs := Of(Run(es).past.udps, source);
      Runs.PrefixOrdered(es, |es| - 1);
      UdpHistoryGrows(es, source);
      SteadySourceIsNeverLogged(Most(es), source);
      LastFrameLogs(es);
      Runs.RunKeeps(es);
      OfMonotone(Run(es).past.udps, source);
      if xs != [] {
        UdpTracker.SteadyTrafficIsNeverRateDropped(xs);
        UdpTracker.RateDroppedExactlyWhen(xs);
      }
    }
  }
}
