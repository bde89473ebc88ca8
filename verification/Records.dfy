/** What user space finds in the maps after any run of the program. */
module Records {
  import opened Machine
  import opened Histories
  import opened Packets
  import opened XdpProgram
  import AttackLog
  import Chain
  import Flows
  import RuleMatch
  import Runs
  import SynTracker
  import UdpTracker
  import DnsTracker

  /** Every flow record of every reachable state conserves its totals: forward and backward add up, the gaps add up
      to its duration, and it stands for exactly the packets recorded under its key. */
  lemma {:induction false} FlowsConserve(es: seq<Event>, key: FlowKey)
    requires ClocksOrdered(es) && key in Run(es).maps.flows
    ensures var f, xs := Run(es).maps.flows[key], Of(Run(es).past.recorded, key);
            && xs != [] && f.key == key && f.packets == W32(|xs|)
            && f.flowStart == xs[0].time && f.timestamp == f.flowEnd == Last(xs).time
            && Add32(f.fwd.packets, f.bwd.packets) == f.packets
            && Add64(f.fwd.bytes, f.bwd.bytes) == f.bytes
            && Add32(f.fwd.iatSum, f.bwd.iatSum) == f.iatSum == W32(f.flowEnd - f.flowStart)
            && f.fwd.lengthSum == W32(f.fwd.bytes) && f.bwd.lengthSum == W32(f.bwd.bytes)
  {
    hide Run, Flows.Step, W32, W64, Add32, Add64, Runs.CountersKept, Runs.RelaxedIsBacked;
    Runs.RunKeeps(es);
    var xs := Of(Run(es).past.recorded, key);
    OfMonotone(Run(es).past.recorded, key);
    Runs.OfSameKey(Run(es).past.recorded, key);
    assert Lookup(Run(es).maps.flows, key) == Flows.After(xs);
    Flows.Conservation(xs);
    Flows.Totals(xs);
  }

  /** The length extremes of every flow of every reachable state, for payloads that fit 16 bits: the maximum is the
      maximum over the flow; the minimum is the minimum over the packets after the latest empty one, and so the true
      minimum if and only if no packet was empty or the last one was. */
  lemma {:induction false} LengthExtremes(es: seq<Event>, key: FlowKey)
    requires ClocksOrdered(es) && key in Run(es).maps.flows
    requires forall x :: x in Of(Run(es).past.recorded, key) ==> x.what.payload < 0x1_0000
    ensures var f, ls := Run(es).maps.flows[key], Flows.Lengths(Of(Run(es).past.recorded, key));
            var z := Flows.AfterLatestZero(ls);
            && (forall i :: 0 <= i < |ls| ==> ls[i] <= f.maxLength)
            && (exists i :: 0 <= i < |ls| && ls[i] == f.maxLength)
            && (z == |ls| ==> f.minLength == 0)
            && (forall i :: z <= i < |ls| ==> 0 < f.minLength <= ls[i])
            && (z < |ls| ==> exists i :: z <= i < |ls| && ls[i] == f.minLength)
            && ((forall i :: 0 <= i < |ls| ==> f.minLength <= ls[i])
                && (exists i :: 0 <= i < |ls| && ls[i] == f.minLength)
                <==> (forall i :: 0 <= i < |ls| ==> ls[i] > 0) || Last(ls) == 0)
  {
    hide Run, Flows.Step, Flows.MaxOver, Flows.MinOver, Runs.CountersKept, Runs.RelaxedIsBacked;
    Runs.RunKeeps(es);
    var xs := Of(Run(es).past.recorded, key);
    assert Lookup(Run(es).maps.flows, key) == Flows.After(xs);
    forall i | 0 <= i < |xs| ensures xs[i].what.payload < 0x1_0000 {
      assert xs[i] in xs;
    }
    Flows.Extremes(xs);
    var ls := Flows.Lengths(xs);
    Flows.MaxOverIsMax(ls);
    Flows.MinOverIsRecentMin(ls);
    Flows.MinOverIsTrueMinWhen(ls);
  }

  /** At any time after a run, a 5-tuple counts as established if and only if its first packet to be recorded was
      recorded more than five seconds before. */
  lemma {:induction false} EstablishedMeansHistory(es: seq<Event>, key: FlowKey, now: u64)
    requires ClocksOrdered(es) && (es != [] ==> Last(es).clock.record <= now)
    ensures IsEstablished(Run(es), key, now) <==>
              var xs := Of(Run(es).past.recorded, key); xs != [] && now - xs[0].time > 5_000_000_000
  {
    hide Run, Runs.CountersKept, Runs.RelaxedIsBacked, IsEstablished;
    Runs.RunKeeps(es);
    Runs.EstablishedExactlyWhen(Run(es), key, if es == [] then 0 else Last(es).clock.record, now);
  }

  /** Whenever a DNS or UDP packet was judged by a relaxed threshold, a packet of the same flow had been recorded,
      that is passed by the whole program, more than five seconds before. */
  lemma {:induction false} RelaxedRestsOnAcceptedPacket(es: seq<Event>)
    requires ClocksOrdered(es)
    ensures forall x :: x in Run(es).past.dns && x.what.established ==>
              exists r :: r in Run(es).past.recorded && r.key == x.what.flow && x.time - r.time > 5_000_000_000
    ensures forall x :: x in Run(es).past.udps && x.what.established ==>
              exists r :: r in Run(es).past.recorded && r.key == x.what.flow && x.time - r.time > 5_000_000_000
  {
    hide Run, Runs.CountersKept, Runs.TrackersKept;
    Runs.RunKeeps(es);
    var p := Run(es).past;
    forall flow: FlowKey, now: u64 | Runs.Backed(p.recorded, flow, now)
      ensures exists r :: r in p.recorded && r.key == flow && now - r.time > 5_000_000_000
    {
      var j :| 0 <= j < |p.recorded| && p.recorded[j].key == flow && now - p.recorded[j].time > 5_000_000_000;
      assert p.recorded[j] in p.recorded;
    }
  }

  lemma {:induction false} TransportLogs(env: Env, w: World, ip: IpHeader, s: Segment, c: Clock)
    ensures var xs := CheckTransport(env, w, ip, s, c).world.past.attacks;
            xs == w.past.attacks || xs == w.past.attacks + [AttackLog.Attack(c.log, ip.saddr, 17, 1, ip.totLen)]
  {
    hide SynTracker.Step, DnsTracker.Step, UdpTracker.Step, IsEstablished, Bit;
  }

  lemma {:induction false} FrameLogs(env: Env, w: World, frame: Frame, c: Clock)
    ensures var xs := Process(env, w, frame, c).world.past.attacks;
            || xs == w.past.attacks
            || (&& frame.Ipv4?
                && xs == w.past.attacks + [AttackLog.Attack(c.log, frame.ip.saddr, 17, 1, frame.ip.totLen)])
  {
    hide HandleFragment, EarlyFilter, CheckTransport, CheckGeoip, Flows.Step, PacketOf, FlowOf, RuleMatch.ApplyRule;
    if frame.Ipv4? {
      var ip, s := frame.ip, frame.segment;
      var w0 := CountFrame(w, frame.wireLength);
      var w1 := HandleFragment(env, w0, ip, c.frag).world;
      Chain.FilterTouches(env, w0, ip, Protocol(s), c);
      Chain.FilterTouches(env, w1, ip, Protocol(s), c);
      TransportLogs(env, EarlyFilter(env, w1, ip, Protocol(s), c.early).world, ip, s, c);
    }
  }

  lemma {:induction false} LoggedAttacksAreLive(es: seq<Event>)
    requires forall i :: 0 <= i < |es| ==> es[i].clock.log > 0
    ensures forall i :: 0 <= i < |Run(es).past.attacks| ==> AttackLog.Live(Run(es).past.attacks[i])
  {
    hide Process;
    if es == [] {
    } else {
      LoggedAttacksAreLive(Most(es));
      FrameLogs(Last(es).env, Run(Most(es)), Last(es).frame, Last(es).clock);
    }
  }

  /** After any run on a clock that has started, reading the attack array returns the logged attacks but the first,
      while there are at most 1000; beyond that, attacks 2 to 999 and the newest. */
  lemma {:induction false} ReaderSeesAttacks(es: seq<Event>)
    requires ClocksOrdered(es) && forall i :: 0 <= i < |es| ==> es[i].clock.log > 0
    ensures var log, xs := Run(es).maps.log, Run(es).past.attacks;
            && log.count == Min(|xs|, 1000)
            && AttackLog.LiveOnes(log.slots[1..]) ==
               if xs == [] then []
               else if |xs| <= 1000 then xs[1..]
               else xs[1..999] + [Last(xs)]
  {
    hide Run, Runs.TrackersKept, Runs.RelaxedIsBacked;
    Runs.RunKeeps(es);
    LoggedAttacksAreLive(es);
    AttackLog.ReaderReturns(Run(es).past.attacks);
    AttackLog.WrittenSlots(Run(es).past.attacks);
  }
}
