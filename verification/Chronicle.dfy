/** What the histories of a run hold, told from its frames: which frames enter which history, with which of their
    header fields, at which clock reading. */
module Chronicle {
  import opened Machine
  import opened Histories
  import opened Packets
  import opened XdpProgram
  import AttackLog
  import Chain
  import DnsTracker
  import Flows
  import Fragments
  import RuleMatch
  import SynTracker
  import TokenBucket
  import UdpTracker

  const NOTHING := Past([], [], [], [], [], [], [], 0, 0, 0)

  /** Two accounts, one after the other; attacks are told in another place. */
  function Plus(p: Past, q: Past): Past {
    Past(p.frags + q.frags, p.icmp + q.icmp, p.syns + q.syns, p.dns + q.dns, p.udps + q.udps,
         p.recorded + q.recorded, p.attacks, p.frames + q.frames, p.wireBytes + q.wireBytes, p.returned + q.returned)
  }

  // ---- one frame ----

  /** Any of the low fourteen bits of the fragment field makes a fragment. */
  function FragmentInput(env: Env, ip: IpHeader, now: u64): seq<Fragments.FragSeen> {
    var limit := match env.config case Some(c) => c.maxFrags case None => 15;
    var payload := (ip.totLen - ip.ihl * 4) % 0x1_0000;
    if ip.fragOff % 0x4000 == 0 then []
    else [Seen(ip.saddr, now, Fragments.FragProbe(ip.fragOff % 0x2000, ip.fragOff / 0x2000 % 2 == 1, payload, limit))]
  }

  /** ICMP packets that are not broadcast and have no zero among their addresses and their time to live. */
  function IcmpInput(env: Env, ip: IpHeader, s: Segment, now: u64): seq<TokenBucket.IcmpSeen> {
    var rate := match env.config case Some(c) => c.icmpFloodRate case None => 100;
    if s.IcmpSegment? && ip.saddr != 0 && ip.daddr != 0 && ip.daddr != 0xFFFF_FFFF && ip.ttl != 0
    then [Seen(ip.saddr, now, rate)] else []
  }

  /** TCP packets with SYN. */
  function SynInput(env: Env, ip: IpHeader, s: Segment, now: u64): seq<SynTracker.SynSeen> {
    var rate := match env.config case Some(c) => c.synFloodRate case None => 1000;
    match s
    case TcpSegment(Some(h)) =>
      if h.flags / 2 % 2 == 1 then [Seen(ip.saddr, now, SynTracker.SynProbe(h.flags / 16 % 2 == 1, rate))] else []
    case _ => []
  }

  /** UDP packets from or to port 53. */
  function DnsInput(env: Env, w: World, ip: IpHeader, s: Segment, now: u64): seq<DnsTracker.DnsSeen> {
    var rate := match env.config case Some(c) => c.dnsAmpRate case None => 200;
    match s
    case UdpSegment(Some(h)) =>
      var key := FlowKey(ip.saddr, ip.daddr, h.source, h.dest, 17);
      if h.source != 53 && h.dest != 53 then []
      else [Seen(ip.saddr, now, DnsTracker.DnsProbe(key, ip.totLen, rate, IsEstablished(w, key, now)))]
    case _ => []
  }

  /** UDP packets. */
  function UdpInput(env: Env, w: World, ip: IpHeader, s: Segment, now: u64): seq<UdpTracker.UdpSeen> {
    var rate := match env.config case Some(c) => c.udpFloodRate case None => 50000;
    match s
    case UdpSegment(Some(h)) =>
      var key := FlowKey(ip.saddr, ip.daddr, h.source, h.dest, 17);
      [Seen(ip.saddr, now, UdpTracker.UdpProbe(key, ip.totLen, rate, IsEstablished(w, key, now)))]
    case _ => []
  }

  /** A packet to the host goes inward; a missing host address is zero. The payload is what is left of the total
      length. */
  function RecordOf(env: Env, ip: IpHeader, source: u16, dest: u16, proto: u8, header: u8, flags: u8, now: u64)
    : Flows.Recorded
  {
    var host := match env.hostIp case Some(h) => h case None => 0;
    Seen(FlowKey(ip.saddr, ip.daddr, source, dest, proto), now,
         Flows.Packet((ip.totLen - ip.ihl * 4 - header) % 0x1_0000_0000, ip.ihl * 4 + header, ip.daddr == host, host,
                      flags))
  }

  /** TCP, UDP and ICMP packets with a complete header; ICMP has its type and code for ports. */
  function RecordInput(env: Env, ip: IpHeader, s: Segment, now: u64): seq<Flows.Recorded> {
    match s
    case TcpSegment(Some(h)) => [RecordOf(env, ip, h.source, h.dest, 6, h.doff * 4, h.flags, now)]
    case UdpSegment(Some(h)) => [RecordOf(env, ip, h.source, h.dest, 17, 8, 0, now)]
    case IcmpSegment(Some(h)) => [RecordOf(env, ip, h.kind, h.code, 1, 8, 0, now)]
    case _ => []
  }

  /** No objection to an IPv4 packet from the fragment check and the country block, from the early filter as well,
      and from the DNS check as well, each asked about the state before the frame. */
  predicate ClearsCountry(env: Env, w: World, ip: IpHeader, c: Clock) {
    HandleFragment(env, w, ip, c.frag).verdict == Pass && CheckGeoip(env, ip.saddr) == Pass
  }

  predicate ClearsFilter(env: Env, w: World, ip: IpHeader, s: Segment, c: Clock) {
    ClearsCountry(env, w, ip, c) && EarlyFilter(env, w, ip, Protocol(s), c.early).verdict == Pass
  }

  predicate ClearsDns(env: Env, w: World, ip: IpHeader, s: Segment, c: Clock) {
    && ClearsFilter(env, w, ip, s, c)
    && (s.UdpSegment? && s.udp.Some? ==> CheckDns(env, w, ip, s.udp.value, c.transport).verdict == Pass)
  }

  /** What a frame adds to the histories. */
  function Added(env: Env, w: World, frame: Frame, c: Clock): Past {
    match frame
    case Runt => NOTHING
    case NotIpv4 => NOTHING
    case ShortIpv4(length) => NOTHING.(frames := 1, wireBytes := length, returned := 1)
    case Ipv4(length, ip, s) =>
      var recorded := if Chain.Records(env, w, frame, c) then RecordInput(env, ip, s, c.record) else [];
      Past(FragmentInput(env, ip, c.frag),
           if ClearsCountry(env, w, ip, c) then IcmpInput(env, ip, s, c.early) else [],
           if ClearsFilter(env, w, ip, s, c) then SynInput(env, ip, s, c.transport) else [],
           if ClearsFilter(env, w, ip, s, c) then DnsInput(env, w, ip, s, c.transport) else [],
           if ClearsDns(env, w, ip, s, c) then UdpInput(env, w, ip, s, c.udp) else [],
           recorded, [], 1, length, 1 - |recorded|)
  }

  // ---- the checks one by one ----

  lemma {:induction false} FragmentTold(env: Env, w: World, ip: IpHeader, now: u64)
    ensures var v := HandleFragment(env, w, ip, now).world;
            && v.past == w.past.(frags := w.past.frags + FragmentInput(env, ip, now))
            && v.maps == w.maps.(frags := v.maps.frags)
  {
    hide Fragments.Step;
    if Fragments.IsFragment(ip) {
      assert FragmentInput(env, ip, now) == [Seen(ip.saddr, now, Fragments.Probe(env, ip))];
    } else {
      assert w.past.frags + [] == w.past.frags;
    }
  }

  lemma {:induction false} EarlyTold(env: Env, w: World, ip: IpHeader, s: Segment, now: u64)
    ensures var v := EarlyFilter(env, w, ip, Protocol(s), now).world;
            && v.past == w.past.(icmp := w.past.icmp + IcmpInput(env, ip, s, now))
            && v.maps == w.maps.(buckets := v.maps.buckets)
  {
    hide TokenBucket.Step;
    assert w.past.icmp + [] == w.past.icmp;
  }

  lemma {:induction false} SynTold(env: Env, w: World, ip: IpHeader, h: TcpHeader, now: u64)
    ensures CheckSynFlood(env, w, ip, h, now).world.past ==
            w.past.(syns := w.past.syns + SynInput(env, ip, TcpSegment(Some(h)), now))
  {
    hide SynTracker.Step;
    assert w.past.syns + [] == w.past.syns;
  }

  lemma {:induction false} DnsTold(env: Env, w: World, v: World, ip: IpHeader, h: UdpHeader, now: u64)
    requires v.maps.flows == w.maps.flows
    ensures var u := CheckDns(env, v, ip, h, now).world;
            && u.past == v.past.(dns := v.past.dns + DnsInput(env, w, ip, UdpSegment(Some(h)), now))
            && u.maps.flows == v.maps.flows
  {
    hide DnsTracker.Step, Flows.Established;
    assert v.past.dns + [] == v.past.dns;
  }

  lemma {:induction false} UdpTold(env: Env, w: World, v: World, ip: IpHeader, h: UdpHeader, now: u64, logTime: u64)
    requires v.maps.flows == w.maps.flows
    ensures var u := CheckUdp(env, v, ip, h, now, logTime).world;
            u.past == v.past.(udps := v.past.udps + UdpInput(env, w, ip, UdpSegment(Some(h)), now),
                              attacks := u.past.attacks)
  {
    hide UdpTracker.Step, Flows.Established, AttackLog.Append;
  }

  lemma {:induction false} TransportTold(env: Env, w: World, v: World, ip: IpHeader, s: Segment, c: Clock)
    requires v.maps.flows == w.maps.flows
    ensures var u, p := CheckTransport(env, v, ip, s, c).world, v.past;
            var pass := s.UdpSegment? && s.udp.Some? ==> CheckDns(env, v, ip, s.udp.value, c.transport).verdict == Pass;
            u.past == p.(syns := p.syns + SynInput(env, ip, s, c.transport),
                         dns := p.dns + DnsInput(env, w, ip, s, c.transport),
                         udps := p.udps + (if pass then UdpInput(env, w, ip, s, c.udp) else []),
                         attacks := u.past.attacks)
  {
    hide CheckSynFlood, CheckDns, CheckUdp, IsEstablished;
    assert v.past.syns + [] == v.past.syns && v.past.dns + [] == v.past.dns && v.past.udps + [] == v.past.udps;
    match s
    case TcpSegment(Some(h)) => SynTold(env, v, ip, h, c.transport);
    case UdpSegment(Some(h)) =>
      var d := CheckDns(env, v, ip, h, c.transport).world;
      DnsTold(env, w, v, ip, h, c.transport);
      UdpTold(env, w, d, ip, h, c.udp, c.log);
    case _ =>
  }

  lemma {:induction false} RecordTold(env: Env, w: World, ip: IpHeader, s: Segment, now: u64)
    requires Parsed(s).Some?
    ensures Record(env, w, ip, s, now).past == w.past.(recorded := w.past.recorded + RecordInput(env, ip, s, now))
    ensures |RecordInput(env, ip, s, now)| == 1
  {
    hide Flows.Step;
  }

  /** What the checks say is not changed by those before them. */
  lemma {:induction false} SameOpinions(env: Env, w: World, length: u32, ip: IpHeader, s: Segment, c: Clock)
    ensures var w0 := CountFrame(w, length);
            var w1 := HandleFragment(env, w0, ip, c.frag).world;
            var w2 := EarlyFilter(env, w1, ip, Protocol(s), c.early).world;
            && HandleFragment(env, w0, ip, c.frag).verdict == HandleFragment(env, w, ip, c.frag).verdict
            && EarlyFilter(env, w1, ip, Protocol(s), c.early).verdict ==
               EarlyFilter(env, w, ip, Protocol(s), c.early).verdict
            && (s.UdpSegment? && s.udp.Some? ==>
                  CheckDns(env, w2, ip, s.udp.value, c.transport).verdict ==
                  CheckDns(env, w, ip, s.udp.value, c.transport).verdict)
            && w2.maps.flows == w.maps.flows
  {
    var w0 := CountFrame(w, length);
    var w1 := HandleFragment(env, w0, ip, c.frag).world;
    Chain.FragmentVerdict(env, w, length, ip, c);
    FragmentTold(env, w0, ip, c.frag);
    EarlyTold(env, w1, ip, s, c.early);
    hide HandleFragment, DnsTracker.Step, Flows.Established, TokenBucket.Step;
  }

  lemma {:induction false} RecordedTold(env: Env, w: World, frame: Frame, c: Clock)
    ensures Process(env, w, frame, c).world.past.recorded ==
            w.past.recorded
            + if Chain.Records(env, w, frame, c) then RecordInput(env, frame.ip, frame.segment, c.record) else []
    ensures Chain.Records(env, w, frame, c) ==>
              frame.Ipv4? && |RecordInput(env, frame.ip, frame.segment, c.record)| == 1
  {
    hide Process, Chain.FirstObjection, Chain.Opinions, Flows.Step;
    Chain.VerdictIsFirstObjection(env, w, frame, c);
    if Chain.Records(env, w, frame, c) {
      RecordTold(env, w, frame.ip, frame.segment, c.record);
    } else {
      assert w.past.recorded + [] == w.past.recorded;
    }
  }

  /** A packet that is stopped by the fragment check or the country block. */
  lemma {:induction false} StoppedEarly(env: Env, w: World, length: u32, ip: IpHeader, s: Segment, c: Clock)
    requires !ClearsCountry(env, w, ip, c)
    ensures var past := Process(env, w, Ipv4(length, ip, s), c).world.past;
            past == w.past.(frags := w.past.frags + FragmentInput(env, ip, c.frag), frames := w.past.frames + 1,
                            wireBytes := w.past.wireBytes + length, returned := w.past.returned + 1)
  {
    hide HandleFragment, CheckGeoip, EarlyFilter, CheckTransport, Record, FragmentInput;
    FragmentTold(env, CountFrame(w, length), ip, c.frag);
    Chain.FragmentVerdict(env, w, length, ip, c);
  }

  /** A packet that is stopped by the early filter, or has no complete header. */
  lemma {:induction false} StoppedByFilter(env: Env, w: World, length: u32, ip: IpHeader, s: Segment, c: Clock)
    requires ClearsCountry(env, w, ip, c) && (!ClearsFilter(env, w, ip, s, c) || Parsed(s).None?)
    ensures var past := Process(env, w, Ipv4(length, ip, s), c).world.past;
            past == w.past.(frags := w.past.frags + FragmentInput(env, ip, c.frag),
                            icmp := w.past.icmp + IcmpInput(env, ip, s, c.early), frames := w.past.frames + 1,
                            wireBytes := w.past.wireBytes + length, returned := w.past.returned + 1)
  {
    hide HandleFragment, CheckGeoip, EarlyFilter, CheckTransport, Record, FragmentInput, IcmpInput, CheckDns;
    var w0 := CountFrame(w, length);
    FragmentTold(env, w0, ip, c.frag);
    EarlyTold(env, HandleFragment(env, w0, ip, c.frag).world, ip, s, c.early);
    SameOpinions(env, w, length, ip, s, c);
  }

  /** A packet that gets as far as the transport checks. */
  lemma {:induction false} MeetsTransport(env: Env, w: World, length: u32, ip: IpHeader, s: Segment, c: Clock)
    requires ClearsFilter(env, w, ip, s, c) && Parsed(s).Some?
    ensures var past, p := Process(env, w, Ipv4(length, ip, s), c).world.past, w.past;
            && past == p.(frags := p.frags + FragmentInput(env, ip, c.frag),
                          icmp := p.icmp + IcmpInput(env, ip, s, c.early),
                          syns := p.syns + SynInput(env, ip, s, c.transport),
                          dns := p.dns + DnsInput(env, w, ip, s, c.transport),
                          udps := p.udps + (if ClearsDns(env, w, ip, s, c) then UdpInput(env, w, ip, s, c.udp) else []),
                          recorded := past.recorded, attacks := past.attacks, frames := p.frames + 1,
                          wireBytes := p.wireBytes + length, returned := past.returned)
            && (past.recorded == p.recorded ==> past.returned == p.returned + 1)
            && (past.recorded != p.recorded ==> past.returned == p.returned)
  {
    hide HandleFragment, CheckGeoip, EarlyFilter, CheckTransport, Record, FragmentInput, IcmpInput, CheckDns, SynInput,
         DnsInput, UdpInput, RecordInput, RuleMatch.ApplyRule;
    var w0 := CountFrame(w, length);
    var w1 := HandleFragment(env, w0, ip, c.frag).world;
    var w2 := EarlyFilter(env, w1, ip, Protocol(s), c.early).world;
    FragmentTold(env, w0, ip, c.frag);
    EarlyTold(env, w1, ip, s, c.early);
    SameOpinions(env, w, length, ip, s, c);
    TransportTold(env, w, w2, ip, s, c);
    RecordTold(env, CheckTransport(env, w2, ip, s, c).world, ip, s, c.record);
  }

  lemma {:induction false} NoHeaderNoInput(env: Env, w: World, ip: IpHeader, s: Segment, c: Clock)
    requires Parsed(s).None?
    ensures SynInput(env, ip, s, c.transport) == [] && DnsInput(env, w, ip, s, c.transport) == []
    ensures UdpInput(env, w, ip, s, c.udp) == []
  {
  }

  lemma {:induction false} PlusNothing(p: Past)
    ensures p.frags + [] == p.frags && p.icmp + [] == p.icmp && p.syns + [] == p.syns && p.dns + [] == p.dns
    ensures p.udps + [] == p.udps && p.recorded + [] == p.recorded
  {
  }

  lemma {:induction false} EarlyStopTold(env: Env, w: World, length: u32, ip: IpHeader, s: Segment, c: Clock)
    requires !ClearsCountry(env, w, ip, c)
    ensures var past := Process(env, w, Ipv4(length, ip, s), c).world.past;
            past == Plus(w.past, Added(env, w, Ipv4(length, ip, s), c)).(attacks := past.attacks)
  {
    hide Process, HandleFragment, CheckGeoip, EarlyFilter, CheckDns, FragmentInput, IcmpInput, SynInput, DnsInput,
         UdpInput, RecordInput, Chain.Records;
    PlusNothing(w.past);
    RecordedTold(env, w, Ipv4(length, ip, s), c);
    StoppedEarly(env, w, length, ip, s, c);
  }

  lemma {:induction false} FilterStopTold(env: Env, w: World, length: u32, ip: IpHeader, s: Segment, c: Clock)
    requires ClearsCountry(env, w, ip, c) && (!ClearsFilter(env, w, ip, s, c) || Parsed(s).None?)
    ensures var past := Process(env, w, Ipv4(length, ip, s), c).world.past;
            past == Plus(w.past, Added(env, w, Ipv4(length, ip, s), c)).(attacks := past.attacks)
  {
    hide Process, HandleFragment, CheckGeoip, EarlyFilter, CheckDns, FragmentInput, IcmpInput, SynInput, DnsInput,
         UdpInput, RecordInput, Chain.Records;
    PlusNothing(w.past);
    RecordedTold(env, w, Ipv4(length, ip, s), c);
    StoppedByFilter(env, w, length, ip, s, c);
    if Parsed(s).None? {
      NoHeaderNoInput(env, w, ip, s, c);
    }
  }

  lemma {:induction false} TransportMetTold(env: Env, w: World, length: u32, ip: IpHeader, s: Segment, c: Clock)
    requires ClearsFilter(env, w, ip, s, c) && Parsed(s).Some?
    ensures var past := Process(env, w, Ipv4(length, ip, s), c).world.past;
            past == Plus(w.past, Added(env, w, Ipv4(length, ip, s), c)).(attacks := past.attacks)
  {
    hide Process, HandleFragment, CheckGeoip, EarlyFilter, CheckDns, FragmentInput, IcmpInput, SynInput, DnsInput,
         UdpInput, RecordInput, Chain.Records;
    PlusNothing(w.past);
    RecordedTold(env, w, Ipv4(length, ip, s), c);
    MeetsTransport(env, w, length, ip, s, c);
  }

  /** What one frame adds to the histories is told from its header fields and from what the checks before say. */
  lemma {:induction false} FrameTold(env: Env, w: World, frame: Frame, c: Clock)
    ensures var past := Process(env, w, frame, c).world.past;
            past == Plus(w.past, Added(env, w, frame, c)).(attacks := past.attacks)
  {
    match frame
    case Ipv4(length, ip, s) =>
      hide Process, HandleFragment, CheckGeoip, EarlyFilter, Added, Plus, Parsed;
      if !ClearsCountry(env, w, ip, c) {
        EarlyStopTold(env, w, length, ip, s, c);
      } else if !ClearsFilter(env, w, ip, s, c) || Parsed(s).None? {
        FilterStopTold(env, w, length, ip, s, c);
      } else {
        TransportMetTold(env, w, length, ip, s, c);
      }
    case _ =>
      PlusNothing(w.past);
  }

  // ---- runs ----

  /** The account of a run: what its frames add, one after the other. */
  function PastOf(es: seq<Event>): Past {
    if es == [] then NOTHING
    else Plus(PastOf(Most(es)), Added(Last(es).env, Run(Most(es)), Last(es).frame, Last(es).clock))
  }

  /** The histories of every run are what its frames say. */
  lemma {:induction false} RunTold(es: seq<Event>)
    ensures Run(es).past.(attacks := []) == PastOf(es)
  {
    hide Process, Added;
    if es == [] {
    } else {
      RunTold(Most(es));
      FrameTold(Last(es).env, Run(Most(es)), Last(es).frame, Last(es).clock);
    }
  }

  function Ipv4Frames(es: seq<Event>): nat {
    if es == [] then 0
    else Ipv4Frames(Most(es)) + if Last(es).frame.ShortIpv4? || Last(es).frame.Ipv4? then 1 else 0
  }

  function WireBytes(es: seq<Event>): nat {
    if es == [] then 0
    else WireBytes(Most(es)) + match Last(es).frame
      case ShortIpv4(length) => length
      case Ipv4(length, _, _) => length
      case _ => 0
  }

  lemma {:induction false} FrameTotals(env: Env, w: World, frame: Frame, c: Clock)
    ensures var m := Process(env, w, frame, c).world.maps;
            match frame
            case ShortIpv4(length) =>
              m.totalPackets == Add64(w.maps.totalPackets, 1) && m.totalBytes == Add64(w.maps.totalBytes, length)
            case Ipv4(length, _, _) =>
              m.totalPackets == Add64(w.maps.totalPackets, 1) && m.totalBytes == Add64(w.maps.totalBytes, length)
            case _ => m.totalPackets == w.maps.totalPackets && m.totalBytes == w.maps.totalBytes
  {
    hide HandleFragment, CheckGeoip, EarlyFilter, CheckTransport, RuleMatch.ApplyRule, Flows.Step, Add64;
    match frame
    case Ipv4(length, ip, s) =>
      var w0 := CountFrame(w, length);
      var w1 := HandleFragment(env, w0, ip, c.frag).world;
      FragmentTold(env, w0, ip, c.frag);
      EarlyTold(env, w1, ip, s, c.early);
      Chain.TransportTouches(env, EarlyFilter(env, w1, ip, Protocol(s), c.early).world, ip, s, c);
    case _ =>
  }

  /** The totals are the number of IPv4 frames of the run and the sum of their wire lengths, modulo 2^64. */
  lemma {:induction false} TotalsTold(es: seq<Event>)
    ensures Run(es).maps.totalPackets == W64(Ipv4Frames(es)) && Run(es).maps.totalBytes == W64(WireBytes(es))
  {
    hide Process, W64, Add64;
    if es == [] {
      Unwrapped64(0);
    } else {
      TotalsTold(Most(es));
      FrameTotals(Last(es).env, Run(Most(es)), Last(es).frame, Last(es).clock);
      var one := if Last(es).frame.ShortIpv4? || Last(es).frame.Ipv4? then 1 else 0;
      var bytes := WireBytes(es) - WireBytes(Most(es));
      Unwrapped64(one);
      Unwrapped64(bytes);
      WrapAdd64(Ipv4Frames(Most(es)), one);
      WrapAdd64(WireBytes(Most(es)), bytes);
    }
  }
}
