/** Every reachable state of the packet filter: its maps are what the checks' histories make of them. */
module Runs {
  import opened Machine
  import opened Histories
  import opened Packets
  import opened XdpProgram
  import AttackLog
  import DnsTracker
  import Flows
  import Fragments
  import SynTracker
  import TokenBucket
  import UdpTracker

  /** A relaxed threshold rests on a packet of the same flow that was recorded more than five seconds earlier. */
  ghost predicate Backed(recorded: seq<Flows.Recorded>, flow: FlowKey, now: u64) {
    exists j :: 0 <= j < |recorded| && recorded[j].key == flow && now - recorded[j].time > 5_000_000_000
  }

  ghost predicate RelaxedIsBacked(p: Past) {
    && (forall x :: x in p.dns && x.what.established ==> Backed(p.recorded, x.what.flow, x.time))
    && (forall x :: x in p.udps && x.what.established ==> Backed(p.recorded, x.what.flow, x.time))
  }

  ghost predicate TrackersKept(w: World, t: u64) {
    && Keeps(w.maps.frags, w.past.frags, t, Fragments.After)
    && Keeps(w.maps.buckets, w.past.icmp, t, TokenBucket.After)
    && Keeps(w.maps.syns, w.past.syns, t, SynTracker.After)
    && Keeps(w.maps.dns, w.past.dns, t, DnsTracker.After)
    && Keeps(w.maps.udps, w.past.udps, t, UdpTracker.After)
    && Keeps(w.maps.flows, w.past.recorded, t, Flows.After)
  }

  ghost predicate CountersKept(w: World) {
    && w.maps.log == AttackLog.Written(w.past.attacks)
    && w.maps.totalPackets == W64(w.past.frames)
    && w.maps.totalBytes == W64(w.past.wireBytes)
  }

  /** The invariant of the filter at time `t`. */
  ghost predicate Inv(w: World, t: u64) {
    TrackersKept(w, t) && CountersKept(w) && RelaxedIsBacked(w.past)
  }

  lemma {:induction false} TrackersLater(w: World, t: u64, later: u64)
    requires TrackersKept(w, t) && t <= later
    ensures TrackersKept(w, later)
  {
    hide Keeps;
    KeepsLater(w.maps.frags, w.past.frags, t, Fragments.After, later);
    KeepsLater(w.maps.buckets, w.past.icmp, t, TokenBucket.After, later);
    KeepsLater(w.maps.syns, w.past.syns, t, SynTracker.After, later);
    KeepsLater(w.maps.dns, w.past.dns, t, DnsTracker.After, later);
    KeepsLater(w.maps.udps, w.past.udps, t, UdpTracker.After, later);
    KeepsLater(w.maps.flows, w.past.recorded, t, Flows.After, later);
  }

  lemma {:induction false} InvLater(w: World, t: u64, later: u64)
    requires Inv(w, t) && t <= later
    ensures Inv(w, later)
  {
    hide Keeps, Backed;
    TrackersLater(w, t, later);
  }

  lemma {:induction false} RelaxedSame(p: Past, q: Past)
    requires RelaxedIsBacked(p) && q.dns == p.dns && q.udps == p.udps && q.recorded == p.recorded
    ensures RelaxedIsBacked(q)
  {
  }

  /** Inputs added to the two lists keep them backed when they are. */
  lemma {:induction false} RelaxedGrows(p: Past, q: Past)
    requires RelaxedIsBacked(p) && q.recorded == p.recorded
    requires q.dns == p.dns || exists x :: && q.dns == p.dns + [x]
                                           && (x.what.established ==> Backed(p.recorded, x.what.flow, x.time))
    requires q.udps == p.udps || exists x :: && q.udps == p.udps + [x]
                                             && (x.what.established ==> Backed(p.recorded, x.what.flow, x.time))
    ensures RelaxedIsBacked(q)
  {
  }

  // ---- each check keeps the invariant ----

  lemma {:induction false} FragmentKeeps(env: Env, w: World, ip: IpHeader, t: u64, now: u64)
    requires Inv(w, t) && t <= now
    ensures Inv(HandleFragment(env, w, ip, now).world, now)
  {
    hide Fragments.Step, Fragments.After;
    TrackersLater(w, t, now);
    if Fragments.IsFragment(ip) {
      var x := Seen(ip.saddr, now, Fragments.Probe(env, ip));
      Fragments.AfterSnoc(Of(w.past.frags, ip.saddr), x);
      hide RelaxedIsBacked;
      RelaxedSame(w.past, HandleFragment(env, w, ip, now).world.past);
      var entry := Fragments.Step(Lookup(w.maps.frags, ip.saddr), x).info;
      hide Keeps;
      KeepsNext(w.maps.frags, w.past.frags, t, Fragments.After, x, entry);
    }
  }

  lemma {:induction false} BucketKeeps(env: Env, w: World, src: u32, t: u64, now: u64)
    requires Inv(w, t) && t <= now
    ensures Inv(IcmpBucket(env, w, src, now).world, now)
  {
    hide TokenBucket.Step, TokenBucket.After, RelaxedIsBacked;
    TrackersLater(w, t, now);
    var x := Seen(src, now, GetConfig(env).icmpFloodRate);
    TokenBucket.AfterSnoc(Of(w.past.icmp, src), x);
    RelaxedSame(w.past, IcmpBucket(env, w, src, now).world.past);
    var entry := TokenBucket.Step(Lookup(w.maps.buckets, src), x).bucket;
    hide Keeps;
    KeepsNext(w.maps.buckets, w.past.icmp, t, TokenBucket.After, x, entry);
  }

  lemma {:induction false} EarlyKeeps(env: Env, w: World, ip: IpHeader, proto: u8, t: u64, now: u64)
    requires Inv(w, t) && t <= now
    ensures Inv(EarlyFilter(env, w, ip, proto, now).world, now)
  {
    hide Inv, IcmpBucket;
    InvLater(w, t, now);
    BucketKeeps(env, w, ip.saddr, t, now);
  }

  lemma {:induction false} SynKeeps(env: Env, w: World, ip: IpHeader, tcp: TcpHeader, t: u64, now: u64)
    requires Inv(w, t) && t <= now
    ensures Inv(CheckSynFlood(env, w, ip, tcp, now).world, now)
  {
    hide SynTracker.Step, SynTracker.After, Bit;
    TrackersLater(w, t, now);
    var x := Seen(ip.saddr, now, SynTracker.SynProbe(Bit(tcp.flags, ACK), GetConfig(env).synFloodRate));
    SynTracker.AfterSnoc(Of(w.past.syns, ip.saddr), x);
    hide RelaxedIsBacked;
    RelaxedSame(w.past, CheckSynFlood(env, w, ip, tcp, now).world.past);
    var entry := SynTracker.Step(Lookup(w.maps.syns, ip.saddr), x).info;
    hide Keeps;
    KeepsNext(w.maps.syns, w.past.syns, t, SynTracker.After, x, entry);
  }

  /** All records of a flow are filed under its key. */
  lemma {:induction false} OfSameKey(xs: seq<Flows.Recorded>, key: FlowKey)
    ensures Flows.SameKey(Of(xs, key)) && (forall i :: 0 <= i < |Of(xs, key)| ==> Of(xs, key)[i].key == key)
  {
    forall i | 0 <= i < |Of(xs, key)| ensures Of(xs, key)[i].key == key {
      OfMember(xs, key, Of(xs, key)[i]);
    }
  }

  /** A flow counts as established exactly when its first packet to be recorded is more than five seconds old. */
  lemma {:induction false} EstablishedExactlyWhen(w: World, key: FlowKey, t: u64, now: u64)
    requires Keeps(w.maps.flows, w.past.recorded, t, Flows.After) && t <= now
    ensures IsEstablished(w, key, now) <==>
              var xs := Of(w.past.recorded, key); xs != [] && now - xs[0].time > 5_000_000_000
    ensures IsEstablished(w, key, now) ==> Backed(w.past.recorded, key, now)
  {
    var xs := Of(w.past.recorded, key);
    OfMonotone(w.past.recorded, key);
    OfSameKey(w.past.recorded, key);
    if xs != [] {
      OfMember(w.past.recorded, key, Last(xs));
      OfMember(w.past.recorded, key, xs[0]);
      assert xs[0] in w.past.recorded;
    }
    Flows.EstablishedExactlyWhen(xs, now);
  }

  lemma {:induction false} DnsKeeps(env: Env, w: World, ip: IpHeader, udp: UdpHeader, t: u64, now: u64)
    requires Inv(w, t) && t <= now
    ensures Inv(CheckDns(env, w, ip, udp, now).world, now)
  {
    hide DnsTracker.Step, DnsTracker.After;
    TrackersLater(w, t, now);
    var key := UdpFlow(ip, udp);
    EstablishedExactlyWhen(w, key, t, now);
    var x := Seen(ip.saddr, now, DnsTracker.DnsProbe(key, ip.totLen, GetConfig(env).dnsAmpRate,
                                                     IsEstablished(w, key, now)));
    DnsTracker.AfterSnoc(Of(w.past.dns, ip.saddr), x);
    hide IsEstablished, Backed, RelaxedIsBacked;
    var o := CheckDns(env, w, ip, udp, now);
    assert o.world.past.dns == w.past.dns || o.world.past.dns == w.past.dns + [x];
    RelaxedGrows(w.past, o.world.past);
    var entry := DnsTracker.Step(Lookup(w.maps.dns, ip.saddr), x).info;
    hide Keeps;
    KeepsNext(w.maps.dns, w.past.dns, t, DnsTracker.After, x, entry);
  }

  lemma {:induction false} UdpKeeps(env: Env, w: World, ip: IpHeader, udp: UdpHeader, t: u64, now: u64, logTime: u64)
    requires Inv(w, t) && t <= now
    ensures Inv(CheckUdp(env, w, ip, udp, now, logTime).world, now)
  {
    hide UdpTracker.Step, UdpTracker.After;
    TrackersLater(w, t, now);
    var key := UdpFlow(ip, udp);
    EstablishedExactlyWhen(w, key, t, now);
    var x := Seen(ip.saddr, now, UdpTracker.UdpProbe(key, ip.totLen, GetConfig(env).udpFloodRate,
                                                     IsEstablished(w, key, now)));
    UdpTracker.AfterSnoc(Of(w.past.udps, ip.saddr), x);
    hide IsEstablished, Backed, RelaxedIsBacked;
    var o := CheckUdp(env, w, ip, udp, now, logTime);
    assert o.world.past.udps == w.past.udps + [x];
    RelaxedGrows(w.past, o.world.past);
    var entry := UdpTracker.Step(Lookup(w.maps.udps, ip.saddr), x).info;
    hide Keeps, AttackLog.Append;
    KeepsNext(w.maps.udps, w.past.udps, t, UdpTracker.After, x, entry);
    if UdpTracker.Step(Lookup(w.maps.udps, ip.saddr), x).rateDropped {
      var a := AttackLog.Attack(logTime, ip.saddr, UDP, 1, ip.totLen);
      assert Most(w.past.attacks + [a]) == w.past.attacks;
      assert o.world.past.attacks == w.past.attacks + [a];
    }
  }

  lemma {:induction false} BackedLonger(xs: seq<Flows.Recorded>, x: Flows.Recorded, flow: FlowKey, now: u64)
    requires Backed(xs, flow, now)
    ensures Backed(xs + [x], flow, now)
  {
    var j :| 0 <= j < |xs| && xs[j].key == flow && now - xs[j].time > 5_000_000_000;
    assert (xs + [x])[j] == xs[j];
  }

  lemma {:induction false} RecordKeeps(env: Env, w: World, ip: IpHeader, s: Segment, t: u64, now: u64)
    requires Parsed(s).Some? && Inv(w, t) && t <= now
    ensures Inv(Record(env, w, ip, s, now), now)
  {
    hide Flows.Step, Flows.After, PacketOf, FlowOf;
    TrackersLater(w, t, now);
    var x := Seen(FlowOf(ip, s), now, PacketOf(env, ip, s));
    Flows.AfterSnoc(Of(w.past.recorded, x.key), x);
    var entry := Flows.Step(Lookup(w.maps.flows, x.key), x);
    forall y | y in w.past.dns && y.what.established ensures Backed(w.past.recorded + [x], y.what.flow, y.time) {
      BackedLonger(w.past.recorded, x, y.what.flow, y.time);
    }
    forall y | y in w.past.udps && y.what.established ensures Backed(w.past.recorded + [x], y.what.flow, y.time) {
      BackedLonger(w.past.recorded, x, y.what.flow, y.time);
    }
    hide Keeps, Backed;
    KeepsNext(w.maps.flows, w.past.recorded, t, Flows.After, x, entry);
  }

  lemma {:induction false} CountKeeps(w: World, wireLength: u32, t: u64)
    requires Inv(w, t)
    ensures Inv(CountFrame(w, wireLength), t)
  {
    hide Keeps, Backed, W64, Add64;
    Unwrapped64(1);
    Unwrapped64(wireLength);
    WrapAdd64(w.past.frames, 1);
    WrapAdd64(w.past.wireBytes, wireLength);
  }

  lemma {:induction false} LeaveKeeps(w: World, v: Verdict, t: u64, later: u64)
    requires Inv(w, t) && t <= later
    ensures Inv(Leave(w, v).world, later)
  {
    hide Keeps, Backed;
    TrackersLater(w, t, later);
  }

  lemma {:induction false} TransportKeeps(env: Env, w: World, ip: IpHeader, s: Segment, c: Clock, t: u64)
    requires Inv(w, t) && t <= c.transport <= c.udp <= c.log
    ensures Inv(CheckTransport(env, w, ip, s, c).world, c.log)
  {
    hide Inv, CheckDns, CheckUdp, CheckSynFlood;
    match s
    case TcpSegment(Some(h)) =>
      SynKeeps(env, w, ip, h, t, c.transport);
      InvLater(CheckSynFlood(env, w, ip, h, c.transport).world, c.transport, c.log);
    case UdpSegment(Some(h)) =>
      DnsKeeps(env, w, ip, h, t, c.transport);
      var o := CheckDns(env, w, ip, h, c.transport);
      InvLater(o.world, c.transport, c.log);
      UdpKeeps(env, o.world, ip, h, c.transport, c.udp, c.log);
      InvLater(CheckUdp(env, o.world, ip, h, c.udp, c.log).world, c.udp, c.log);
    case _ =>
      InvLater(w, t, c.log);
  }

  /** One frame keeps the invariant, whatever the configuration, rules and geo data are while it is processed. */
  lemma {:induction false} ProcessKeeps(env: Env, w: World, frame: Frame, c: Clock, t: u64)
    requires Inv(w, t) && ClockOrdered(c) && t <= c.frag
    ensures Inv(Process(env, w, frame, c).world, c.record)
  {
    hide Inv, HandleFragment, CheckGeoip, EarlyFilter, CheckTransport, Record, CountFrame, Leave, Parsed;
    match frame
    case Runt => InvLater(w, t, c.record);
    case NotIpv4 => InvLater(w, t, c.record);
    case ShortIpv4(length) =>
      CountKeeps(w, length, t);
      LeaveKeeps(CountFrame(w, length), Pass, t, c.record);
    case Ipv4(length, ip, s) =>
      var w0 := CountFrame(w, length);
      CountKeeps(w, length, t);
      var o1 := HandleFragment(env, w0, ip, c.frag);
      FragmentKeeps(env, w0, ip, t, c.frag);
      LeaveKeeps(o1.world, o1.verdict, c.frag, c.record);
      LeaveKeeps(o1.world, CheckGeoip(env, ip.saddr), c.frag, c.record);
      var o2 := EarlyFilter(env, o1.world, ip, Protocol(s), c.early);
      EarlyKeeps(env, o1.world, ip, Protocol(s), c.frag, c.early);
      LeaveKeeps(o2.world, o2.verdict, c.early, c.record);
      var o3 := CheckTransport(env, o2.world, ip, s, c);
      TransportKeeps(env, o2.world, ip, s, c, c.early);
      LeaveKeeps(o3.world, o3.verdict, c.log, c.record);
      LeaveKeeps(o3.world, Drop, c.log, c.record);
      LeaveKeeps(o3.world, Tx, c.log, c.record);
      if Parsed(s).Some? {
        RecordKeeps(env, o3.world, ip, s, c.log, c.record);
      }
  }

  /** The invariant holds after every run. */
  lemma {:induction false} RunKeeps(es: seq<Event>)
    requires ClocksOrdered(es)
    ensures Inv(Run(es), if es == [] then 0 else Last(es).clock.record)
  {
    hide Process;
    if es == [] {
    } else {
      RunKeeps(Most(es));
      ProcessKeeps(Last(es).env, Run(Most(es)), Last(es).frame, Last(es).clock,
                   if Most(es) == [] then 0 else Last(Most(es)).clock.record);
    }
  }

  lemma {:induction false} PrefixOrdered(es: seq<Event>, n: nat)
    requires ClocksOrdered(es) && n <= |es|
    ensures ClocksOrdered(es[..n])
  {
  }

  lemma {:induction false} RunSnoc(es: seq<Event>)
    requires es != []
    ensures var o := Process(Last(es).env, Run(Most(es)), Last(es).frame, Last(es).clock);
            Run(es) == o.world && LastVerdict(es) == o.verdict
  {
    hide Process;
  }
}
