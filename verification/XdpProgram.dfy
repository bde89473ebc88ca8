/** The packet filter as a function of the state before a frame: its maps, and what its checks have seen. */
module XdpProgram {
  import opened Machine
  import opened Histories
  import opened Packets
  import AttackLog
  import DnsTracker
  import Flows
  import Fragments
  import RuleMatch
  import SynTracker
  import TokenBucket
  import UdpTracker

  /** The maps the program updates. */
  datatype Maps = Maps(
    frags: map<u32, Fragments.FragInfo>,
    buckets: map<u32, TokenBucket.Bucket>,
    syns: map<u32, SynTracker.SynInfo>,
    dns: map<u32, DnsTracker.DnsInfo>,
    udps: map<u32, UdpTracker.UdpInfo>,
    flows: map<FlowKey, Flows.Flow>,
    log: AttackLog.Log,
    totalPackets: u64,
    totalBytes: u64)

  /** What happened so far: the inputs of each check in order, the attacks logged, the IPv4 frames counted,
      and those of them for which the program returned before its recording stage. */
  datatype Past = Past(
    frags: seq<Fragments.FragSeen>,
    icmp: seq<TokenBucket.IcmpSeen>,
    syns: seq<SynTracker.SynSeen>,
    dns: seq<DnsTracker.DnsSeen>,
    udps: seq<UdpTracker.UdpSeen>,
    recorded: seq<Flows.Recorded>,
    attacks: seq<AttackLog.Attack>,
    frames: nat,
    wireBytes: nat,
    returned: nat)

  datatype World = World(maps: Maps, past: Past)

  datatype Outcome = Outcome(world: World, verdict: Verdict)

  function EmptyWorld(): World {
    World(Maps(map[], map[], map[], map[], map[], map[], AttackLog.EmptyLog(), 0, 0),
          Past([], [], [], [], [], [], [], 0, 0, 0))
  }

  // ---- the checks ----

  function CountFrame(w: World, wireLength: u32): World {
    World(w.maps.(totalPackets := Add64(w.maps.totalPackets, 1), totalBytes := Add64(w.maps.totalBytes, wireLength)),
          w.past.(frames := w.past.frames + 1, wireBytes := w.past.wireBytes + wireLength))
  }

  function HandleFragment(env: Env, w: World, ip: IpHeader, now: u64): Outcome {
    if !Fragments.IsFragment(ip) then Outcome(w, Pass)
    else
      var x := Seen(ip.saddr, now, Fragments.Probe(env, ip));
      var r := Fragments.Step(Lookup(w.maps.frags, ip.saddr), x);
      Outcome(World(w.maps.(frags := w.maps.frags[ip.saddr := r.info]), w.past.(frags := w.past.frags + [x])),
              r.verdict)
  }

  function CheckGeoip(env: Env, src: u32): (v: Verdict)
    ensures v == Drop <==> && src in env.country && env.country[src] in env.countryAction
                           && env.countryAction[env.country[src]] == 1
    ensures v != Tx
  {
    match Lookup(env.country, src)
    case None => Pass
    case Some(code) => if Lookup(env.countryAction, code) == Some(1) then Drop else Pass
  }

  function IcmpBucket(env: Env, w: World, src: u32, now: u64): Outcome {
    var x := Seen(src, now, GetConfig(env).icmpFloodRate);
    var r := TokenBucket.Step(Lookup(w.maps.buckets, src), x);
    Outcome(World(w.maps.(buckets := w.maps.buckets[src := r.bucket]), w.past.(icmp := w.past.icmp + [x])), r.verdict)
  }

  function EarlyFilter(env: Env, w: World, ip: IpHeader, proto: u8, now: u64): Outcome {
    if ip.saddr == 0 || ip.daddr == 0 then Outcome(w, Drop)
    else if ip.daddr == BROADCAST then Outcome(w, Pass)
    else if ip.ttl == 0 then Outcome(w, Drop)
    else if proto == ICMP then IcmpBucket(env, w, ip.saddr, now)
    else Outcome(w, Pass)
  }

  const SYN: nat := 0x02
  const ACK: nat := 0x10

  function CheckSynFlood(env: Env, w: World, ip: IpHeader, tcp: TcpHeader, now: u64): Outcome {
    if !Bit(tcp.flags, SYN) then Outcome(w, Pass)
    else
      var x := Seen(ip.saddr, now, SynTracker.SynProbe(Bit(tcp.flags, ACK), GetConfig(env).synFloodRate));
      var r := SynTracker.Step(Lookup(w.maps.syns, ip.saddr), x);
      Outcome(World(w.maps.(syns := w.maps.syns[ip.saddr := r.info]), w.past.(syns := w.past.syns + [x])), r.verdict)
  }

  function UdpFlow(ip: IpHeader, udp: UdpHeader): FlowKey {
    FlowKey(ip.saddr, ip.daddr, udp.source, udp.dest, UDP)
  }

  predicate IsEstablished(w: World, key: FlowKey, now: u64) {
    Flows.Established(Lookup(w.maps.flows, key), now)
  }

  function CheckDns(env: Env, w: World, ip: IpHeader, udp: UdpHeader, now: u64): Outcome {
    if udp.source != DNS_PORT && udp.dest != DNS_PORT then Outcome(w, Pass)
    else
      var key := UdpFlow(ip, udp);
      var x := Seen(ip.saddr, now, DnsTracker.DnsProbe(key, ip.totLen, GetConfig(env).dnsAmpRate,
                                                       IsEstablished(w, key, now)));
      var r := DnsTracker.Step(Lookup(w.maps.dns, ip.saddr), x);
      Outcome(World(w.maps.(dns := w.maps.dns[ip.saddr := r.info]), w.past.(dns := w.past.dns + [x])), r.verdict)
  }

  function LogAttack(w: World, a: AttackLog.Attack): World {
    World(w.maps.(log := AttackLog.Append(w.maps.log, a)), w.past.(attacks := w.past.attacks + [a]))
  }

  function CheckUdp(env: Env, w: World, ip: IpHeader, udp: UdpHeader, now: u64, logTime: u64): Outcome {
    var key := UdpFlow(ip, udp);
    var x := Seen(ip.saddr, now, UdpTracker.UdpProbe(key, ip.totLen, GetConfig(env).udpFloodRate,
                                                     IsEstablished(w, key, now)));
    var r := UdpTracker.Step(Lookup(w.maps.udps, ip.saddr), x);
    var w1 := World(w.maps.(udps := w.maps.udps[ip.saddr := r.info]), w.past.(udps := w.past.udps + [x]));
    Outcome(if r.rateDropped then LogAttack(w1, AttackLog.Attack(logTime, ip.saddr, UDP, 1, ip.totLen))
            else w1, r.verdict)
  }

  /** What the program takes from a complete transport header. */
  datatype Ports = Ports(source: u16, dest: u16, headerLength: u32, flags: u8)

  /** None where the header is cut off or the protocol is none of the three: the program then passes the frame. */
  function Parsed(s: Segment): Option<Ports> {
    match s
    case TcpSegment(Some(h)) => Some(Ports(h.source, h.dest, h.doff * 4, h.flags))
    case UdpSegment(Some(h)) => Some(Ports(h.source, h.dest, 8, 0))
    case IcmpSegment(Some(h)) => Some(Ports(h.kind, h.code, 8, 0))
    case _ => None
  }

  function CheckTransport(env: Env, w: World, ip: IpHeader, s: Segment, c: Clock): Outcome {
    match s
    case TcpSegment(Some(h)) => CheckSynFlood(env, w, ip, h, c.transport)
    case UdpSegment(Some(h)) =>
      var o := CheckDns(env, w, ip, h, c.transport);
      if o.verdict != Pass then o else CheckUdp(env, o.world, ip, h, c.udp, c.log)
    case _ => Outcome(w, Pass)
  }

  function FlowOf(ip: IpHeader, s: Segment): FlowKey
    requires Parsed(s).Some?
  {
    FlowKey(ip.saddr, ip.daddr, Parsed(s).value.source, Parsed(s).value.dest, Protocol(s))
  }

  /** The packet as recorded; the payload length is a u32 difference. */
  function PacketOf(env: Env, ip: IpHeader, s: Segment): Flows.Packet
    requires Parsed(s).Some?
  {
    var p := Parsed(s).value;
    var host := match env.hostIp case Some(h) => h case None => 0;
    Flows.Packet(W32(ip.totLen - ip.ihl * 4 - p.headerLength), ip.ihl * 4 + p.headerLength, host == ip.daddr, host,
                 p.flags)
  }

  /** The established test looks a UDP packet up under the very key it is recorded under. */
  lemma {:induction false} RecordedUnderLookedUpKey(ip: IpHeader, h: UdpHeader)
    ensures UdpFlow(ip, h) == FlowOf(ip, UdpSegment(Some(h)))
  {
  }

  /** The recorded lengths make up the datagram when its length field covers the headers; otherwise the payload
      length wraps to the top of the u32 range. */
  lemma {:induction false} LengthsMakeUpDatagram(env: Env, ip: IpHeader, s: Segment)
    requires Parsed(s).Some?
    ensures var p := PacketOf(env, ip, s);
            && (p.headers <= ip.totLen ==> p.payload + p.headers == ip.totLen)
            && (p.headers > ip.totLen ==> p.payload + p.headers == ip.totLen + TWO32)
  {
  }

  function Record(env: Env, w: World, ip: IpHeader, s: Segment, now: u64): World
    requires Parsed(s).Some?
  {
    var x := Seen(FlowOf(ip, s), now, PacketOf(env, ip, s));
    var flow := Flows.Step(Lookup(w.maps.flows, x.key), x);
    World(w.maps.(flows := w.maps.flows[x.key := flow]), w.past.(recorded := w.past.recorded + [x]))
  }

  // ---- the chain ----

  /** A return before the recording stage. */
  function Leave(w: World, v: Verdict): Outcome {
    Outcome(World(w.maps, w.past.(returned := w.past.returned + 1)), v)
  }

  function Process(env: Env, w: World, frame: Frame, c: Clock): Outcome {
    match frame
    case Runt => Outcome(w, Pass)
    case NotIpv4 => Outcome(w, Pass)
    case ShortIpv4(length) => Leave(CountFrame(w, length), Pass)
    case Ipv4(length, ip, s) =>
      var o1 := HandleFragment(env, CountFrame(w, length), ip, c.frag);
      if o1.verdict != Pass then Leave(o1.world, o1.verdict)
      else if CheckGeoip(env, ip.saddr) != Pass then Leave(o1.world, CheckGeoip(env, ip.saddr))
      else
        var o2 := EarlyFilter(env, o1.world, ip, Protocol(s), c.early);
        if o2.verdict != Pass || Parsed(s).None? then Leave(o2.world, o2.verdict)
        else
          var o3 := CheckTransport(env, o2.world, ip, s, c);
          if o3.verdict != Pass then Leave(o3.world, o3.verdict)
          else
            var source := RuleMatch.ApplyRule(env.rules, ip.saddr, Parsed(s).value.source, Protocol(s));
            if source != Pass then Leave(o3.world, source)
            else
              var dest := RuleMatch.ApplyRule(env.rules, ip.daddr, Parsed(s).value.dest, Protocol(s));
              if dest != Pass then Leave(o3.world, dest)
              else Outcome(Record(env, o3.world, ip, s, c.record), Pass)
  }

  // ---- runs ----

  datatype Event = Event(env: Env, frame: Frame, clock: Clock)

  /** The state after the frames of a run, one after the other, from empty maps. */
  function Run(es: seq<Event>): World {
    if es == [] then EmptyWorld()
    else Process(Last(es).env, Run(Most(es)), Last(es).frame, Last(es).clock).world
  }

  /** The verdict on the last frame of a run. */
  function LastVerdict(es: seq<Event>): Verdict
    requires es != []
  {
    Process(Last(es).env, Run(Most(es)), Last(es).frame, Last(es).clock).verdict
  }

  /** The clock never runs backwards, within a frame or from one frame to the next. */
  ghost predicate ClocksOrdered(es: seq<Event>) {
    && (forall i :: 0 <= i < |es| ==> ClockOrdered(es[i].clock))
    && (forall i, j :: 0 <= i < j < |es| ==> es[i].clock.record <= es[j].clock.frag)
  }
}
