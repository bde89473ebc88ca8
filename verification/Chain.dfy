/** What one frame gets out of the chain of checks. */
module Chain {
  import opened Machine
  import opened Histories
  import opened Packets
  import opened XdpProgram
  import AttackLog
  import DnsTracker
  import Flows
  import Fragments
  import RuleMatch
  import SynTracker
  import TokenBucket
  import UdpTracker

  /** The first verdict of a list that is not Pass, or Pass. */
  function FirstObjection(vs: seq<Verdict>): Verdict {
    if vs == [] then Pass else if vs[0] != Pass then vs[0] else FirstObjection(vs[1..])
  }

  /** The rate checks for a transport header, each put to the state before the frame. */
  function TransportOpinions(env: Env, w: World, ip: IpHeader, s: Segment, c: Clock): seq<Verdict> {
    match s
    case TcpSegment(Some(h)) => [CheckSynFlood(env, w, ip, h, c.transport).verdict]
    case UdpSegment(Some(h)) => [CheckDns(env, w, ip, h, c.transport).verdict,
                                 CheckUdp(env, w, ip, h, c.udp, c.log).verdict]
    case _ => []
  }

  /** All the checks a frame goes through, in order, each put to the state before the frame. */
  function Opinions(env: Env, w: World, ip: IpHeader, s: Segment, c: Clock): seq<Verdict> {
    [HandleFragment(env, w, ip, c.frag).verdict, CheckGeoip(env, ip.saddr),
     EarlyFilter(env, w, ip, Protocol(s), c.early).verdict]
    + TransportOpinions(env, w, ip, s, c)
    + match Parsed(s)
      case None => []
      case Some(p) => [RuleMatch.ApplyRule(env.rules, ip.saddr, p.source, Protocol(s)),
                       RuleMatch.ApplyRule(env.rules, ip.daddr, p.dest, Protocol(s))]
  }

  /** Whether a frame reaches the recording stage. */
  predicate Records(env: Env, w: World, frame: Frame, c: Clock) {
    frame.Ipv4? && Parsed(frame.segment).Some? && FirstObjection(Opinions(env, w, frame.ip, frame.segment, c)) == Pass
  }

  lemma {:induction false} ObjectionOfConcat(vs: seq<Verdict>, ws: seq<Verdict>)
    ensures FirstObjection(vs + ws) == if FirstObjection(vs) != Pass then FirstObjection(vs) else FirstObjection(ws)
  {
    if vs == [] {
      assert vs + ws == ws;
    } else {
      assert (vs + ws)[1..] == vs[1..] + ws;
      ObjectionOfConcat(vs[1..], ws);
    }
  }

  lemma {:induction false} ObjectionOfThree(a: Verdict, b: Verdict, c: Verdict)
    ensures FirstObjection([a, b, c]) == if a != Pass then a else if b != Pass then b else c
    ensures FirstObjection([a, b]) == if a != Pass then a else b
    ensures FirstObjection([a]) == a
  {
    assert [a, b, c][1..] == [b, c] && [b, c][1..] == [c] && [c][1..] == [];
    assert [a, b][1..] == [b] && [b][1..] == [] && [a][1..] == [];
    assert FirstObjection([c]) == c && FirstObjection([b]) == b;
    assert FirstObjection([b, c]) == if b != Pass then b else c;
  }

  /** The checks that run before another do not bear on what it says. */
  lemma {:induction false} ChecksAreIndependent(env: Env, w: World, v: World, ip: IpHeader, s: Segment, c: Clock)
    requires v.maps.buckets == w.maps.buckets && v.maps.syns == w.maps.syns && v.maps.dns == w.maps.dns
    requires v.maps.udps == w.maps.udps && v.maps.flows == w.maps.flows
    ensures EarlyFilter(env, v, ip, Protocol(s), c.early).verdict ==
              EarlyFilter(env, w, ip, Protocol(s), c.early).verdict
    ensures TransportOpinions(env, v, ip, s, c) == TransportOpinions(env, w, ip, s, c)
  {
  }

  lemma {:induction false} TransportObjection(env: Env, w: World, ip: IpHeader, s: Segment, c: Clock)
    ensures CheckTransport(env, w, ip, s, c).verdict == FirstObjection(TransportOpinions(env, w, ip, s, c))
  {
    hide CheckSynFlood;
    match s
    case TcpSegment(Some(h)) =>
      ObjectionOfThree(CheckSynFlood(env, w, ip, h, c.transport).verdict, Pass, Pass);
    case UdpSegment(Some(h)) =>
      ObjectionOfThree(CheckDns(env, w, ip, h, c.transport).verdict,
                       CheckUdp(env, w, ip, h, c.udp, c.log).verdict, Pass);
    case _ =>
  }

  /** What each check leaves alone. */
  lemma {:induction false} FilterTouches(env: Env, w: World, ip: IpHeader, proto: u8, c: Clock)
    ensures var v := HandleFragment(env, w, ip, c.frag).world;
            v.maps == w.maps.(frags := v.maps.frags) && v.past == w.past.(frags := v.past.frags)
    ensures var v := EarlyFilter(env, w, ip, proto, c.early).world;
            v.maps == w.maps.(buckets := v.maps.buckets) && v.past == w.past.(icmp := v.past.icmp)
  {
    hide Fragments.Step, TokenBucket.Step, Fragments.IsFragment, Fragments.Probe;
  }

  ghost predicate RecordsUntouched(v: World, w: World) {
    && v.maps.flows == w.maps.flows && v.past.recorded == w.past.recorded
    && v.past.frames == w.past.frames && v.past.returned == w.past.returned
    && v.maps.totalPackets == w.maps.totalPackets && v.maps.totalBytes == w.maps.totalBytes
  }

  lemma {:induction false} SynTouches(env: Env, w: World, ip: IpHeader, h: TcpHeader, now: u64)
    ensures RecordsUntouched(CheckSynFlood(env, w, ip, h, now).world, w)
  {
    hide SynTracker.Step, Bit;
  }

  lemma {:induction false} DnsTouches(env: Env, w: World, ip: IpHeader, h: UdpHeader, now: u64)
    ensures RecordsUntouched(CheckDns(env, w, ip, h, now).world, w)
  {
    hide DnsTracker.Step, IsEstablished;
  }

  lemma {:induction false} UdpTouches(env: Env, w: World, ip: IpHeader, h: UdpHeader, now: u64, logTime: u64)
    ensures RecordsUntouched(CheckUdp(env, w, ip, h, now, logTime).world, w)
  {
    hide UdpTracker.Step, IsEstablished, AttackLog.Append;
  }

  lemma {:induction false} TransportTouches(env: Env, w: World, ip: IpHeader, s: Segment, c: Clock)
    ensures RecordsUntouched(CheckTransport(env, w, ip, s, c).world, w)
  {
    hide CheckSynFlood, CheckDns, CheckUdp;
    match s
    case TcpSegment(Some(h)) => SynTouches(env, w, ip, h, c.transport);
    case UdpSegment(Some(h)) =>
      DnsTouches(env, w, ip, h, c.transport);
      UdpTouches(env, CheckDns(env, w, ip, h, c.transport).world, ip, h, c.udp, c.log);
    case _ =>
  }

  lemma {:induction false} FragmentVerdict(env: Env, w: World, length: u32, ip: IpHeader, c: Clock)
    ensures HandleFragment(env, CountFrame(w, length), ip, c.frag).verdict == HandleFragment(env, w, ip, c.frag).verdict
  {
  }

  lemma {:induction false} BucketsDoNotMatter(env: Env, w: World, buckets: map<u32, TokenBucket.Bucket>,
                                              ip: IpHeader, s: Segment, c: Clock)
    ensures TransportOpinions(env, w.(maps := w.maps.(buckets := buckets)), ip, s, c) ==
              TransportOpinions(env, w, ip, s, c)
  {
  }

  lemma {:induction false} NoHeaderNoOpinion(env: Env, w: World, ip: IpHeader, s: Segment, c: Clock)
    requires Parsed(s).None?
    ensures TransportOpinions(env, w, ip, s, c) == [] && FirstObjection([]) == Pass
  {
  }

  /** The verdict on an IPv4 frame is the first objection among the checks, each judging by the state before the
      frame; the frame is recorded if and only if none objects and its headers are complete, and nothing else changes
      a flow. */
  lemma {:induction false} VerdictIsFirstObjection(env: Env, w: World, frame: Frame, c: Clock)
    ensures var o := Process(env, w, frame, c);
            && o.verdict == (if frame.Ipv4? then FirstObjection(Opinions(env, w, frame.ip, frame.segment, c)) else Pass)
            && (if Records(env, w, frame, c) then
                  var x := Seen(FlowOf(frame.ip, frame.segment), c.record, PacketOf(env, frame.ip, frame.segment));
                  && o.world.past.recorded == w.past.recorded + [x]
                  && o.world.maps.flows == w.maps.flows[x.key := Flows.Step(Lookup(w.maps.flows, x.key), x)]
                else o.world.past.recorded == w.past.recorded && o.world.maps.flows == w.maps.flows)
  {
    hide HandleFragment, CheckGeoip, EarlyFilter, CheckTransport, TransportOpinions, FirstObjection, Flows.Step,
         PacketOf, FlowOf, RuleMatch.ApplyRule;
    match frame
    case Ipv4(length, ip, s) =>
      var w0 := CountFrame(w, length);
      var o1 := HandleFragment(env, w0, ip, c.frag);
      var o2 := EarlyFilter(env, o1.world, ip, Protocol(s), c.early);
      FilterTouches(env, w0, ip, Protocol(s), c);
      FilterTouches(env, o1.world, ip, Protocol(s), c);
      TransportTouches(env, o2.world, ip, s, c);
      FragmentVerdict(env, w, length, ip, c);
      ChecksAreIndependent(env, w, o1.world, ip, s, c);
      ChecksAreIndependent(env, w, o2.world.(maps := o2.world.maps.(buckets := w.maps.buckets)), ip, s, c);
      BucketsDoNotMatter(env, o2.world, w.maps.buckets, ip, s, c);
      TransportObjection(env, o2.world, ip, s, c);
      var geo := CheckGeoip(env, ip.saddr);
      ObjectionOfThree(o1.verdict, geo, o2.verdict);
      var head := [o1.verdict, geo, o2.verdict];
      ObjectionOfConcat(head, TransportOpinions(env, w, ip, s, c));
      if Parsed(s).Some? {
        var p := Parsed(s).value;
        var rules := [RuleMatch.ApplyRule(env.rules, ip.saddr, p.source, Protocol(s)),
                      RuleMatch.ApplyRule(env.rules, ip.daddr, p.dest, Protocol(s))];
        ObjectionOfThree(rules[0], rules[1], Pass);
        ObjectionOfConcat(head + TransportOpinions(env, w, ip, s, c), rules);
      } else {
        NoHeaderNoOpinion(env, w, ip, s, c);
        ObjectionOfConcat(head + TransportOpinions(env, w, ip, s, c), []);
      }
    case _ =>
  }

  /** A frame that is dropped or sent back leaves every flow record as it was. */
  lemma {:induction false} OnlyPassedFramesAreRecorded(env: Env, w: World, frame: Frame, c: Clock)
    requires Process(env, w, frame, c).verdict != Pass
    ensures Process(env, w, frame, c).world.maps.flows == w.maps.flows
    ensures Process(env, w, frame, c).world.past.recorded == w.past.recorded
  {
    hide Process, Opinions, FirstObjection;
    VerdictIsFirstObjection(env, w, frame, c);
  }

  // ---- the country block ----

  ghost predicate Blocked(env: Env, src: u32) {
    exists code :: Lookup(env.country, src) == Some(code) && Lookup(env.countryAction, code) == Some(1)
  }

  function WithoutGeo(env: Env): Env {
    env.(country := map[], countryAction := map[])
  }

  lemma {:induction false} GeoDropsExactlyWhen(env: Env, src: u32)
    ensures CheckGeoip(env, src) == if Blocked(env, src) then Drop else Pass
    ensures CheckGeoip(WithoutGeo(env), src) == Pass
  {
  }

  lemma {:induction false} FilterWithoutGeo(env: Env, w: World, ip: IpHeader, proto: u8, c: Clock)
    ensures HandleFragment(WithoutGeo(env), w, ip, c.frag) == HandleFragment(env, w, ip, c.frag)
    ensures EarlyFilter(WithoutGeo(env), w, ip, proto, c.early) == EarlyFilter(env, w, ip, proto, c.early)
    ensures HandleFragment(env, w, ip, c.frag).verdict != Tx
  {
    hide Fragments.Malformed, Fragments.IsFragment, TokenBucket.Step;
  }

  lemma {:induction false} TransportWithoutGeo(env: Env, w: World, ip: IpHeader, s: Segment, c: Clock, now: u64)
    ensures CheckTransport(WithoutGeo(env), w, ip, s, c) == CheckTransport(env, w, ip, s, c)
    ensures Parsed(s).Some? ==> Record(WithoutGeo(env), w, ip, s, now) == Record(env, w, ip, s, now)
  {
    hide SynTracker.Step, DnsTracker.Step, UdpTracker.Step, IsEstablished, Bit, Flows.Step;
  }

  /** A frame from a blocked country is dropped, and leaves nothing behind but the totals and its fragment entry;
      for every other frame the program does exactly what it would do without any geo data. */
  lemma {:induction false} OnlyBlockedCountriesMatter(env: Env, w: World, frame: Frame, c: Clock)
    ensures var o := Process(env, w, frame, c);
            if frame.Ipv4? && Blocked(env, frame.ip.saddr) then
              && o.verdict == Drop
              && o.world.maps == w.maps.(frags := o.world.maps.frags, totalPackets := o.world.maps.totalPackets,
                                         totalBytes := o.world.maps.totalBytes)
            else o == Process(WithoutGeo(env), w, frame, c)
  {
    hide HandleFragment, CheckGeoip, EarlyFilter, CheckTransport, Record, RuleMatch.ApplyRule, Blocked;
    if frame.Ipv4? {
      var ip, s := frame.ip, frame.segment;
      var w0 := CountFrame(w, frame.wireLength);
      var w1 := HandleFragment(env, w0, ip, c.frag).world;
      var w2 := EarlyFilter(env, w1, ip, Protocol(s), c.early).world;
      GeoDropsExactlyWhen(env, ip.saddr);
      FilterTouches(env, w0, ip, Protocol(s), c);
      FilterWithoutGeo(env, w0, ip, Protocol(s), c);
      FilterWithoutGeo(env, w1, ip, Protocol(s), c);
      TransportWithoutGeo(env, w2, ip, s, c, c.record);
      TransportWithoutGeo(env, CheckTransport(env, w2, ip, s, c).world, ip, s, c, c.record);
    }
  }
}
