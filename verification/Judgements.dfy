/** When the program's checks object to a packet: in every reachable state, from its header fields, the configuration in
    force and what happened before it in the run. */
module Judgements {
  import opened Machine
  import opened Histories
  import opened Packets
  import opened XdpProgram
  import AttackLog
  import DnsTracker
  import Flows
  import Fragments
  import Runs
  import SynTracker
  import TokenBucket
  import UdpTracker

  ghost predicate At(es: seq<Event>, now: u64) {
    ClocksOrdered(es) && (es != [] ==> Last(es).clock.record <= now)
  }

  /** The history of one key, extended by the packet at hand, is in order. */
  lemma {:induction false} ExtendedInOrder<A>(xs: seq<Seen<u32, A>>, t: u64, x: Seen<u32, A>)
    requires UpTo(xs, t) && t <= x.time
    ensures Monotone(Of(xs, x.key) + [x])
    ensures Last(Of(xs, x.key) + [x]) == x && Most(Of(xs, x.key) + [x]) == Of(xs, x.key)
  {
    OfMonotone(xs, x.key);
    forall y | y in Of(xs, x.key) ensures y.time <= x.time {
      OfMember(xs, x.key, y);
    }
    MonotoneSnoc(Of(xs, x.key), x);
  }

  // ---- fragments ----

  lemma {:induction false} FragmentJudged(env: Env, w: World, ip: IpHeader, t: u64, x: Fragments.FragSeen)
    requires Keeps(w.maps.frags, w.past.frags, t, Fragments.After) && t <= x.time
    requires x == Seen(ip.saddr, x.time, Fragments.Probe(env, ip)) && Fragments.IsFragment(ip)
    ensures var xs := Of(w.past.frags, ip.saddr) + [x];
            HandleFragment(env, w, ip, x.time).verdict ==
            if && x.what.offset != 1 && !(x.what.more && x.what.payload < 16)
               && (|xs| == 1 || W32(|xs| - Fragments.BurstStart(xs)) <= x.what.limit) then Pass else Drop
  {
    hide Fragments.Step, Fragments.After, Fragments.BurstStart, Fragments.Probe, Monotone, W32;
    ExtendedInOrder(w.past.frags, t, x);
    var xs := Of(w.past.frags, ip.saddr) + [x];
    assert Lookup(w.maps.frags, ip.saddr) == Fragments.After(Most(xs));
    Fragments.PassesExactlyWhen(xs);
  }

  lemma {:induction false} NoFragmentPasses(env: Env, w: World, ip: IpHeader, now: u64)
    requires !Fragments.IsFragment(ip)
    ensures HandleFragment(env, w, ip, now) == Outcome(w, Pass)
  {
  }

  /** A packet that is no fragment passes unnoticed. A fragment passes if and only if it does not start at byte 8, does
      not announce more while it has fewer than 16 bytes, and is the first of its source or within the configured limit
      for its burst, whose fragments are counted modulo 2^32. */
  lemma {:induction false} FragmentPassesExactlyWhen(es: seq<Event>, env: Env, ip: IpHeader, now: u64)
    requires At(es, now)
    ensures var limit := match env.config case Some(c) => c.maxFrags case None => 15;
            var offset, more := ip.fragOff % 0x2000, ip.fragOff / 0x2000 % 2 == 1;
            var payload := (ip.totLen - ip.ihl * 4) % 0x1_0000;
            var x := Seen(ip.saddr, now, Fragments.FragProbe(offset, more, payload, limit));
            var xs, o := Of(Run(es).past.frags, ip.saddr) + [x], HandleFragment(env, Run(es), ip, now);
            if offset == 0 && !more then o == Outcome(Run(es), Pass)
            else o.verdict ==
                 if && offset != 1 && !(more && payload < 16)
                    && (|xs| == 1 || W32(|xs| - Fragments.BurstStart(xs)) <= limit) then Pass else Drop
  {
    hide Run, HandleFragment, Fragments.BurstStart, Keeps, Of, Runs.CountersKept, Runs.RelaxedIsBacked, ClocksOrdered,
         W32;
    Runs.RunKeeps(es);
    if Fragments.IsFragment(ip) {
      FragmentJudged(env, Run(es), ip, if es == [] then 0 else Last(es).clock.record,
                     Seen(ip.saddr, now, Fragments.Probe(env, ip)));
    } else {
      NoFragmentPasses(env, Run(es), ip, now);
    }
  }

  // ---- the early filter ----

  lemma {:induction false} PingJudged(env: Env, w: World, ip: IpHeader, t: u64, x: TokenBucket.IcmpSeen)
    requires Keeps(w.maps.buckets, w.past.icmp, t, TokenBucket.After) && t <= x.time
    requires x == Seen(ip.saddr, x.time, GetConfig(env).icmpFloodRate)
    ensures var xs := Of(w.past.icmp, ip.saddr) + [x];
            IcmpBucket(env, w, ip.saddr, x.time).verdict ==
            if |xs| == 1 || TokenBucket.Level(xs) >= 1 then Pass else Drop
  {
    hide TokenBucket.Step, TokenBucket.After, TokenBucket.Level, GetConfig, Monotone;
    ExtendedInOrder(w.past.icmp, t, x);
    var xs := Of(w.past.icmp, ip.saddr) + [x];
    assert Lookup(w.maps.buckets, ip.saddr) == TokenBucket.After(Most(xs));
    TokenBucket.AdmitsExactlyWhen(xs);
  }

  /** A zero address or, unless it is broadcast, a time to live of zero is dropped. Broadcast packets and packets of
      other protocols pass unnoticed. An ICMP packet passes if and only if it is the first of its source or the level
      of the bucket, told from the source's arrivals, is at least one token. */
  lemma {:induction false} EarlyFilterPassesExactlyWhen(es: seq<Event>, env: Env, ip: IpHeader, proto: u8, now: u64)
    requires At(es, now)
    ensures var rate := match env.config case Some(c) => c.icmpFloodRate case None => 100;
            var xs := Of(Run(es).past.icmp, ip.saddr) + [Seen(ip.saddr, now, rate)];
            var o := EarlyFilter(env, Run(es), ip, proto, now);
            if ip.saddr == 0 || ip.daddr == 0 || (ip.ttl == 0 && ip.daddr != 0xFFFF_FFFF) then
              o == Outcome(Run(es), Drop)
            else if ip.daddr == 0xFFFF_FFFF || proto != 1 then o == Outcome(Run(es), Pass)
            else o.verdict == if |xs| == 1 || TokenBucket.Level(xs) >= 1 then Pass else Drop
  {
    hide Run, IcmpBucket, TokenBucket.Level, Keeps, Of, Runs.CountersKept, Runs.RelaxedIsBacked, ClocksOrdered;
    Runs.RunKeeps(es);
    PingJudged(env, Run(es), ip, if es == [] then 0 else Last(es).clock.record,
               Seen(ip.saddr, now, GetConfig(env).icmpFloodRate));
  }

  // ---- SYN packets ----

  lemma {:induction false} SynJudged(env: Env, w: World, ip: IpHeader, tcp: TcpHeader, t: u64,
                                     x: SynTracker.SynSeen)
    requires Keeps(w.maps.syns, w.past.syns, t, SynTracker.After) && t <= x.time && Bit(tcp.flags, SYN)
    requires x == Seen(ip.saddr, x.time, SynTracker.SynProbe(Bit(tcp.flags, ACK), GetConfig(env).synFloodRate))
    ensures var xs := Of(w.past.syns, ip.saddr) + [x];
            var syns := W32(SynTracker.Syns(xs, WindowStart(xs)));
            CheckSynFlood(env, w, ip, tcp, x.time).verdict ==
            if && !x.what.ack && WindowStart(xs) < |xs| - 1
               && syns > x.what.rate && syns > W32(10 * SynTracker.SynAcks(xs, WindowStart(xs))) then Drop else Pass
  {
    hide Bit, GetConfig, SynTracker.Step, SynTracker.After, SynTracker.Syns, SynTracker.SynAcks, WindowStart, Monotone,
         W32;
    ExtendedInOrder(w.past.syns, t, x);
    var xs := Of(w.past.syns, ip.saddr) + [x];
    assert Lookup(w.maps.syns, ip.saddr) == SynTracker.After(Most(xs));
    SynTracker.DroppedExactlyWhen(xs);
  }

  lemma {:induction false} NoSynPasses(env: Env, w: World, ip: IpHeader, tcp: TcpHeader, now: u64)
    requires !Bit(tcp.flags, SYN)
    ensures CheckSynFlood(env, w, ip, tcp, now) == Outcome(w, Pass)
  {
  }

  /** A packet without SYN passes unnoticed. One with SYN is dropped if and only if it has no ACK, opens no window and
      brings the SYNs of its source's window above both the configured rate and ten times the SYN-ACKs of that window,
      counted modulo 2^32. */
  lemma {:induction false} SynDroppedExactlyWhen(es: seq<Event>, env: Env, ip: IpHeader, tcp: TcpHeader, now: u64)
    requires At(es, now)
    ensures var rate := match env.config case Some(c) => c.synFloodRate case None => 1000;
            var syn, ack := tcp.flags / 2 % 2 == 1, tcp.flags / 16 % 2 == 1;
            var xs := Of(Run(es).past.syns, ip.saddr) + [Seen(ip.saddr, now, SynTracker.SynProbe(ack, rate))];
            var syns := W32(SynTracker.Syns(xs, WindowStart(xs)));
            var o := CheckSynFlood(env, Run(es), ip, tcp, now);
            if !syn then o == Outcome(Run(es), Pass)
            else o.verdict ==
                 if && !ack && WindowStart(xs) < |xs| - 1
                    && syns > rate && syns > W32(10 * SynTracker.SynAcks(xs, WindowStart(xs))) then Drop else Pass
  {
    hide Run, CheckSynFlood, SynTracker.Syns, SynTracker.SynAcks, WindowStart, Keeps, Of, Runs.CountersKept,
         Runs.RelaxedIsBacked, ClocksOrdered, W32;
    Runs.RunKeeps(es);
    if Bit(tcp.flags, SYN) {
      SynJudged(env, Run(es), ip, tcp, if es == [] then 0 else Last(es).clock.record,
                Seen(ip.saddr, now, SynTracker.SynProbe(Bit(tcp.flags, ACK), GetConfig(env).synFloodRate)));
    } else {
      NoSynPasses(env, Run(es), ip, tcp, now);
    }
  }

  // ---- DNS packets ----

  lemma {:induction false} DnsJudged(env: Env, w: World, ip: IpHeader, udp: UdpHeader, t: u64, x: DnsTracker.DnsSeen)
    requires Keeps(w.maps.dns, w.past.dns, t, DnsTracker.After) && t <= x.time
    requires udp.source == 53 || udp.dest == 53
    requires x == Seen(ip.saddr, x.time, DnsTracker.DnsProbe(UdpFlow(ip, udp), ip.totLen, GetConfig(env).dnsAmpRate,
                                                             IsEstablished(w, UdpFlow(ip, udp), x.time)))
    ensures var xs := Of(w.past.dns, ip.saddr) + [x];
            var limit := if x.what.established then W32(x.what.rate * 5) else x.what.rate;
            CheckDns(env, w, ip, udp, x.time).verdict ==
            if || WindowStart(xs) == |xs| - 1
               || (W32(|xs| - WindowStart(xs)) <= limit && !(udp.source == 53 && ip.totLen > 512)) then Pass else Drop
  {
    hide GetConfig, DnsTracker.Step, DnsTracker.After, WindowStart, Monotone, IsEstablished, W32;
    ExtendedInOrder(w.past.dns, t, x);
    var xs := Of(w.past.dns, ip.saddr) + [x];
    assert Lookup(w.maps.dns, ip.saddr) == DnsTracker.After(Most(xs));
    DnsTracker.PassesExactlyWhen(xs);
  }

  lemma {:induction false} NoDnsPasses(env: Env, w: World, ip: IpHeader, udp: UdpHeader, now: u64)
    requires udp.source != 53 && udp.dest != 53
    ensures CheckDns(env, w, ip, udp, now) == Outcome(w, Pass)
  {
  }

  /** A UDP packet neither from nor to port 53 passes unnoticed. Of the others those pass that open a window, and those
      that are not from port 53 with more than 512 bytes and do not bring the packets of their source's window, counted
      modulo 2^32, above the rate, or above five times the rate if the first packet of their flow was recorded more than
      five seconds before. The rest is dropped. */
  lemma {:induction false} DnsPassesExactlyWhen(es: seq<Event>, env: Env, ip: IpHeader, udp: UdpHeader, now: u64)
    requires At(es, now)
    ensures var rate := match env.config case Some(c) => c.dnsAmpRate case None => 200;
            var key := FlowKey(ip.saddr, ip.daddr, udp.source, udp.dest, 17);
            var rs := Of(Run(es).past.recorded, key);
            var established := rs != [] && now - rs[0].time > 5_000_000_000;
            var x := Seen(ip.saddr, now, DnsTracker.DnsProbe(key, ip.totLen, rate, established));
            var xs, o := Of(Run(es).past.dns, ip.saddr) + [x], CheckDns(env, Run(es), ip, udp, now);
            var limit := if established then W32(rate * 5) else rate;
            if udp.source != 53 && udp.dest != 53 then o == Outcome(Run(es), Pass)
            else o.verdict ==
                 if || WindowStart(xs) == |xs| - 1
                    || (W32(|xs| - WindowStart(xs)) <= limit && !(udp.source == 53 && ip.totLen > 512))
                 then Pass else Drop
  {
    hide Run, CheckDns, WindowStart, Runs.CountersKept, Runs.RelaxedIsBacked, IsEstablished, Runs.Backed, Keeps, Of,
         ClocksOrdered, W32;
    var w, t := Run(es), if es == [] then 0 else Last(es).clock.record;
    Runs.RunKeeps(es);
    if udp.source == 53 || udp.dest == 53 {
      Runs.EstablishedExactlyWhen(w, UdpFlow(ip, udp), t, now);
      DnsJudged(env, w, ip, udp, t,
                Seen(ip.saddr, now, DnsTracker.DnsProbe(UdpFlow(ip, udp), ip.totLen, GetConfig(env).dnsAmpRate,
                                                        IsEstablished(w, UdpFlow(ip, udp), now))));
    } else {
      NoDnsPasses(env, w, ip, udp, now);
    }
  }

  // ---- UDP packets ----

  lemma {:induction false} UdpJudged(env: Env, w: World, ip: IpHeader, udp: UdpHeader, t: u64, x: UdpTracker.UdpSeen,
                                     logTime: u64)
    requires Keeps(w.maps.udps, w.past.udps, t, UdpTracker.After) && t <= x.time
    requires x == Seen(ip.saddr, x.time, UdpTracker.UdpProbe(UdpFlow(ip, udp), ip.totLen, GetConfig(env).udpFloodRate,
                                                             IsEstablished(w, UdpFlow(ip, udp), x.time)))
    ensures var xs, o := Of(w.past.udps, ip.saddr) + [x], CheckUdp(env, w, ip, udp, x.time, logTime);
            && o.world.past.attacks ==
               w.past.attacks
               + (if UdpTracker.TooFast(xs) then [AttackLog.Attack(logTime, ip.saddr, 17, 1, ip.totLen)] else [])
            && o.verdict ==
               if || UdpTracker.LastReset(xs) == |xs| - 1
                  || (&& !UdpTracker.TooFast(xs) && !(udp.dest == 53 && ip.totLen > 512)
                      && !((udp.dest == 123 || udp.source == 123) && ip.totLen > 1024)) then Pass else Drop
  {
    hide GetConfig, UdpTracker.Step, UdpTracker.After, UdpTracker.TooFast, UdpTracker.LastReset, Monotone,
         IsEstablished,
         AttackLog.Append;
    ExtendedInOrder(w.past.udps, t, x);
    var xs := Of(w.past.udps, ip.saddr) + [x];
    assert Lookup(w.maps.udps, ip.saddr) == UdpTracker.After(Most(xs));
    UdpTracker.RateDroppedExactlyWhen(xs);
    UdpTracker.PassesExactlyWhen(xs);
  }

  /** A UDP packet is logged as an attack if and only if the history of its source says it is too fast. It passes if
      and only if it is the first of its source, or comes a second or more after the last one not dropped for its
      rate, or is neither too fast nor above 512 bytes to port 53 nor above 1024 bytes from or to port 123. */
  lemma {:induction false} UdpPassesExactlyWhen(es: seq<Event>, env: Env, ip: IpHeader, udp: UdpHeader, now: u64,
                                                logTime: u64)
    requires At(es, now)
    ensures var rate := match env.config case Some(c) => c.udpFloodRate case None => 50000;
            var key := FlowKey(ip.saddr, ip.daddr, udp.source, udp.dest, 17);
            var rs := Of(Run(es).past.recorded, key);
            var established := rs != [] && now - rs[0].time > 5_000_000_000;
            var x := Seen(ip.saddr, now, UdpTracker.UdpProbe(key, ip.totLen, rate, established));
            var xs, o := Of(Run(es).past.udps, ip.saddr) + [x], CheckUdp(env, Run(es), ip, udp, now, logTime);
            && o.world.past.attacks ==
               Run(es).past.attacks
               + (if UdpTracker.TooFast(xs) then [AttackLog.Attack(logTime, ip.saddr, 17, 1, ip.totLen)] else [])
            && o.verdict ==
               if || UdpTracker.LastReset(xs) == |xs| - 1
                  || (&& !UdpTracker.TooFast(xs) && !(udp.dest == 53 && ip.totLen > 512)
                      && !((udp.dest == 123 || udp.source == 123) && ip.totLen > 1024)) then Pass else Drop
  {
    hide Run, CheckUdp, UdpTracker.TooFast, UdpTracker.LastReset, Runs.CountersKept, Runs.RelaxedIsBacked,
         IsEstablished,
         Runs.Backed, Keeps, Of, ClocksOrdered;
    var w, t := Run(es), if es == [] then 0 else Last(es).clock.record;
    Runs.RunKeeps(es);
    Runs.EstablishedExactlyWhen(w, UdpFlow(ip, udp), t, now);
    UdpJudged(env, w, ip, udp, t,
              Seen(ip.saddr, now, UdpTracker.UdpProbe(UdpFlow(ip, udp), ip.totLen, GetConfig(env).udpFloodRate,
                                                      IsEstablished(w, UdpFlow(ip, udp), now))), logTime);
  }
}
