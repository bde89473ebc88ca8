/** The verdicts on one source's packets do not depend on anybody else's packets. */
module Isolation {
  import opened Machine
  import opened Histories
  import opened Packets
  import opened XdpProgram
  import AttackLog
  import DnsTracker
  import Flows
  import Fragments
  import RuleMatch
  import SynTracker
  import TokenBucket
  import UdpTracker

  ghost predicate SameFlows(source: u32, w: Maps, v: Maps) {
    forall k: FlowKey :: k.srcIp == source ==> Lookup(w.flows, k) == Lookup(v.flows, k)
  }

  /** Two states hold the same entries for a source: in each per-source map, and in all flows it is the source of. */
  ghost predicate SameFor(source: u32, w: Maps, v: Maps) {
    && Lookup(w.frags, source) == Lookup(v.frags, source)
    && Lookup(w.buckets, source) == Lookup(v.buckets, source)
    && Lookup(w.syns, source) == Lookup(v.syns, source)
    && Lookup(w.dns, source) == Lookup(v.dns, source)
    && Lookup(w.udps, source) == Lookup(v.udps, source)
    && SameFlows(source, w, v)
  }

  // ---- the source's own packets ----

  lemma {:induction false} FragmentOwn(env: Env, w: World, v: World, ip: IpHeader, now: u64)
    requires SameFor(ip.saddr, w.maps, v.maps)
    ensures var a, b := HandleFragment(env, w, ip, now), HandleFragment(env, v, ip, now);
            a.verdict == b.verdict && SameFor(ip.saddr, a.world.maps, b.world.maps)
  {
    hide Fragments.Step, Fragments.IsFragment, Fragments.Probe;
  }

  lemma {:induction false} EarlyOwn(env: Env, w: World, v: World, ip: IpHeader, proto: u8, now: u64)
    requires SameFor(ip.saddr, w.maps, v.maps)
    ensures var a, b := EarlyFilter(env, w, ip, proto, now), EarlyFilter(env, v, ip, proto, now);
            a.verdict == b.verdict && SameFor(ip.saddr, a.world.maps, b.world.maps)
  {
    hide TokenBucket.Step;
  }

  lemma {:induction false} SynOwn(env: Env, w: World, v: World, ip: IpHeader, h: TcpHeader, now: u64)
    requires SameFor(ip.saddr, w.maps, v.maps)
    ensures var a, b := CheckSynFlood(env, w, ip, h, now), CheckSynFlood(env, v, ip, h, now);
            a.verdict == b.verdict && SameFor(ip.saddr, a.world.maps, b.world.maps)
  {
    hide SynTracker.Step, Bit;
  }

  lemma {:induction false} EstablishedOwn(w: World, v: World, key: FlowKey, now: u64)
    requires SameFlows(key.srcIp, w.maps, v.maps)
    ensures IsEstablished(w, key, now) == IsEstablished(v, key, now)
  {
  }

  lemma {:induction false} DnsOwn(env: Env, w: World, v: World, ip: IpHeader, h: UdpHeader, now: u64)
    requires SameFor(ip.saddr, w.maps, v.maps)
    ensures var a, b := CheckDns(env, w, ip, h, now), CheckDns(env, v, ip, h, now);
            a.verdict == b.verdict && SameFor(ip.saddr, a.world.maps, b.world.maps)
  {
    EstablishedOwn(w, v, UdpFlow(ip, h), now);
    hide DnsTracker.Step, IsEstablished, UdpFlow;
  }

  function UdpInput(env: Env, w: World, ip: IpHeader, h: UdpHeader, now: u64): UdpTracker.UdpSeen {
    var key := UdpFlow(ip, h);
    Seen(ip.saddr, now, UdpTracker.UdpProbe(key, ip.totLen, GetConfig(env).udpFloodRate, IsEstablished(w, key, now)))
  }

  /** What the UDP check does to the maps, the attack log apart. */
  lemma {:induction false} UdpEffect(env: Env, w: World, ip: IpHeader, h: UdpHeader, now: u64, logTime: u64)
    ensures var r := UdpTracker.Step(Lookup(w.maps.udps, ip.saddr), UdpInput(env, w, ip, h, now));
            var o := CheckUdp(env, w, ip, h, now, logTime);
            && o.verdict == r.verdict
            && o.world.maps.(log := w.maps.log) == w.maps.(udps := w.maps.udps[ip.saddr := r.info])
  {
    hide UdpTracker.Step, IsEstablished, UdpFlow, AttackLog.Append, GetConfig, Lookup;
  }

  lemma {:induction false} UdpOwn(env: Env, w: World, v: World, ip: IpHeader, h: UdpHeader, now: u64, logTime: u64)
    requires SameFor(ip.saddr, w.maps, v.maps)
    ensures var a, b := CheckUdp(env, w, ip, h, now, logTime), CheckUdp(env, v, ip, h, now, logTime);
            a.verdict == b.verdict && SameFor(ip.saddr, a.world.maps, b.world.maps)
  {
    EstablishedOwn(w, v, UdpFlow(ip, h), now);
    UdpEffect(env, w, ip, h, now, logTime);
    UdpEffect(env, v, ip, h, now, logTime);
    hide UdpTracker.Step, IsEstablished, CheckUdp, GetConfig, AttackLog.Append;
  }

  lemma {:induction false} TransportOwn(env: Env, w: World, v: World, ip: IpHeader, s: Segment, c: Clock)
    requires SameFor(ip.saddr, w.maps, v.maps)
    ensures var a, b := CheckTransport(env, w, ip, s, c), CheckTransport(env, v, ip, s, c);
            a.verdict == b.verdict && SameFor(ip.saddr, a.world.maps, b.world.maps)
  {
    hide SameFor, CheckSynFlood, CheckDns, CheckUdp;
    match s
    case TcpSegment(Some(h)) => SynOwn(env, w, v, ip, h, c.transport);
    case UdpSegment(Some(h)) =>
      DnsOwn(env, w, v, ip, h, c.transport);
      UdpOwn(env, CheckDns(env, w, ip, h, c.transport).world, CheckDns(env, v, ip, h, c.transport).world, ip, h,
             c.udp, c.log);
    case _ =>
  }

  lemma {:induction false} RecordOwn(env: Env, w: World, v: World, ip: IpHeader, s: Segment, now: u64)
    requires Parsed(s).Some? && SameFor(ip.saddr, w.maps, v.maps)
    ensures SameFor(ip.saddr, Record(env, w, ip, s, now).maps, Record(env, v, ip, s, now).maps)
  {
    hide Flows.Step, PacketOf;
    assert FlowOf(ip, s).srcIp == ip.saddr;
  }

  function Source(f: Frame): Option<u32> {
    if f.Ipv4? then Some(f.ip.saddr) else None
  }

  lemma {:induction false} CountSame(source: u32, w: World, v: World, length: u32)
    requires SameFor(source, w.maps, v.maps)
    ensures SameFor(source, CountFrame(w, length).maps, CountFrame(v, length).maps)
  {
  }

  /** On states that agree about its source, a packet gets the same verdict and leaves states that agree again. */
  lemma {:induction false} ProcessOwn(env: Env, w: World, v: World, frame: Frame, c: Clock)
    requires frame.Ipv4? && SameFor(frame.ip.saddr, w.maps, v.maps)
    ensures var a, b := Process(env, w, frame, c), Process(env, v, frame, c);
            a.verdict == b.verdict && SameFor(frame.ip.saddr, a.world.maps, b.world.maps)
  {
    hide SameFor, HandleFragment, CheckGeoip, EarlyFilter, CheckTransport, Record, RuleMatch.ApplyRule;
    var ip, s := frame.ip, frame.segment;
    var w0, v0 := CountFrame(w, frame.wireLength), CountFrame(v, frame.wireLength);
    CountSame(ip.saddr, w, v, frame.wireLength);
    FragmentOwn(env, w0, v0, ip, c.frag);
    var w1, v1 := HandleFragment(env, w0, ip, c.frag).world, HandleFragment(env, v0, ip, c.frag).world;
    EarlyOwn(env, w1, v1, ip, Protocol(s), c.early);
    var w2 := EarlyFilter(env, w1, ip, Protocol(s), c.early).world;
    var v2 := EarlyFilter(env, v1, ip, Protocol(s), c.early).world;
    TransportOwn(env, w2, v2, ip, s, c);
    if Parsed(s).Some? {
      RecordOwn(env, CheckTransport(env, w2, ip, s, c).world, CheckTransport(env, v2, ip, s, c).world, ip, s, c.record);
    }
  }

  // ---- other sources' packets ----

  lemma {:induction false} SameTrans(source: u32, u: Maps, v: Maps, w: Maps)
    requires SameFor(source, u, v) && SameFor(source, v, w)
    ensures SameFor(source, u, w)
  {
  }

  lemma {:induction false} FilterOther(env: Env, w: World, ip: IpHeader, proto: u8, c: Clock, source: u32)
    requires ip.saddr != source
    ensures SameFor(source, w.maps, HandleFragment(env, w, ip, c.frag).world.maps)
    ensures SameFor(source, w.maps, EarlyFilter(env, w, ip, proto, c.early).world.maps)
  {
    hide Fragments.Step, TokenBucket.Step, Fragments.IsFragment, Fragments.Probe;
  }

  lemma {:induction false} SynOther(env: Env, w: World, ip: IpHeader, h: TcpHeader, now: u64, source: u32)
    requires ip.saddr != source
    ensures SameFor(source, w.maps, CheckSynFlood(env, w, ip, h, now).world.maps)
  {
    hide SynTracker.Step, Bit;
  }

  lemma {:induction false} DnsOther(env: Env, w: World, ip: IpHeader, h: UdpHeader, now: u64, source: u32)
    requires ip.saddr != source
    ensures SameFor(source, w.maps, CheckDns(env, w, ip, h, now).world.maps)
  {
    hide DnsTracker.Step, IsEstablished;
  }

  lemma {:induction false} UdpOther(env: Env, w: World, ip: IpHeader, h: UdpHeader, now: u64, logTime: u64, source: u32)
    requires ip.saddr != source
    ensures SameFor(source, w.maps, CheckUdp(env, w, ip, h, now, logTime).world.maps)
  {
    hide UdpTracker.Step, IsEstablished, AttackLog.Append;
  }

  lemma {:induction false} SameRefl(source: u32, m: Maps)
    ensures SameFor(source, m, m) && SameFlows(source, m, m)
  {
  }

  lemma {:induction false} TransportOther(env: Env, w: World, ip: IpHeader, s: Segment, c: Clock, source: u32)
    requires ip.saddr != source
    ensures SameFor(source, w.maps, CheckTransport(env, w, ip, s, c).world.maps)
  {
    hide CheckSynFlood, CheckDns, CheckUdp, SameFlows;
    assert SameFlows(source, w.maps, w.maps) by { SameRefl(source, w.maps); }
    match s
    case TcpSegment(Some(h)) => SynOther(env, w, ip, h, c.transport, source);
    case UdpSegment(Some(h)) =>
      var d := CheckDns(env, w, ip, h, c.transport).world;
      DnsOther(env, w, ip, h, c.transport, source);
      UdpOther(env, d, ip, h, c.udp, c.log, source);
      SameTrans(source, w.maps, d.maps, CheckUdp(env, d, ip, h, c.udp, c.log).world.maps);
    case _ =>
  }

  lemma {:induction false} RecordOther(env: Env, w: World, ip: IpHeader, s: Segment, now: u64, source: u32)
    requires Parsed(s).Some? && ip.saddr != source
    ensures SameFor(source, w.maps, Record(env, w, ip, s, now).maps)
  {
    hide Flows.Step, PacketOf;
    assert FlowOf(ip, s).srcIp == ip.saddr;
  }

  lemma {:induction false} CountOther(w: World, length: u32, source: u32)
    ensures SameFor(source, w.maps, CountFrame(w, length).maps)
  {
  }

  /** A frame that is not from the source leaves everything kept about the source as it was. */
  lemma {:induction false} ProcessOther(env: Env, w: World, frame: Frame, c: Clock, source: u32)
    requires Source(frame) != Some(source)
    ensures SameFor(source, w.maps, Process(env, w, frame, c).world.maps)
  {
    hide SameFor, HandleFragment, CheckGeoip, EarlyFilter, CheckTransport, Record, RuleMatch.ApplyRule;
    SameRefl(source, w.maps);
    if frame.ShortIpv4? || frame.Ipv4? {
      CountOther(w, frame.wireLength, source);
    }
    if frame.Ipv4? {
      var ip, s := frame.ip, frame.segment;
      var w0 := CountFrame(w, frame.wireLength);
      var w1 := HandleFragment(env, w0, ip, c.frag).world;
      FilterOther(env, w0, ip, Protocol(s), c, source);
      SameTrans(source, w.maps, w0.maps, w1.maps);
      var w2 := EarlyFilter(env, w1, ip, Protocol(s), c.early).world;
      FilterOther(env, w1, ip, Protocol(s), c, source);
      SameTrans(source, w.maps, w1.maps, w2.maps);
      var w3 := CheckTransport(env, w2, ip, s, c).world;
      TransportOther(env, w2, ip, s, c, source);
      SameTrans(source, w.maps, w2.maps, w3.maps);
      if Parsed(s).Some? {
        RecordOther(env, w3, ip, s, c.record, source);
        SameTrans(source, w.maps, w3.maps, Record(env, w3, ip, s, c.record).maps);
      }
    }
  }

  // ---- whole runs ----

  /** The run without the frames of other sources. */
  function OnlyFrom(es: seq<Event>, source: u32): seq<Event> {
    if es == [] then []
    else OnlyFrom(Most(es), source) + if Source(Last(es).frame) == Some(source) then [Last(es)] else []
  }

  /** The verdicts on the source's frames, in order. */
  function VerdictsFor(es: seq<Event>, source: u32): seq<Verdict> {
    if es == [] then []
    else VerdictsFor(Most(es), source) + if Source(Last(es).frame) == Some(source) then [LastVerdict(es)] else []
  }

  lemma {:induction false} SameSym(source: u32, w: Maps, v: Maps)
    requires SameFor(source, w, v)
    ensures SameFor(source, v, w)
  {
  }

  /** Taking away all frames of other sources, wherever they come, changes no verdict on the source's own frames
      and nothing the filter keeps about the source. */
  lemma {:induction false} OthersDoNotMatter(es: seq<Event>, source: u32)
    ensures SameFor(source, Run(es).maps, Run(OnlyFrom(es, source)).maps)
    ensures VerdictsFor(es, source) == VerdictsFor(OnlyFrom(es, source), source)
  {
    hide SameFor, Process;
    SameRefl(source, Run(es).maps);
    if es == [] {
    } else {
      var most, e := Most(es), Last(es);
      OthersDoNotMatter(most, source);
      var only := OnlyFrom(most, source);
      if Source(e.frame) == Some(source) {
        ProcessOwn(e.env, Run(most), Run(only), e.frame, e.clock);
        assert Most(only + [e]) == only;
      } else {
        ProcessOther(e.env, Run(most), e.frame, e.clock, source);
        SameSym(source, Run(most).maps, Run(es).maps);
        SameTrans(source, Run(es).maps, Run(most).maps, Run(only).maps);
        assert OnlyFrom(es, source) == only;
      }
    }
  }
}
