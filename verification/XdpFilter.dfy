/** The packet filter as it runs: one object whose maps and counters the program updates in place. */
module XdpFilter {
  import opened Machine
  import opened Histories
  import opened Packets
  import opened XdpProgram
  import AttackLog
  import DnsTracker
  import Flows
  import Fragments
  import RuleMatch
  import SynTracker
  import TokenBucket
  import UdpTracker

  class Filter {
    var frags: map<u32, Fragments.FragInfo>
    var buckets: map<u32, TokenBucket.Bucket>
    var syns: map<u32, SynTracker.SynInfo>
    var dns: map<u32, DnsTracker.DnsInfo>
    var udps: map<u32, UdpTracker.UdpInfo>
    var flows: map<FlowKey, Flows.Flow>
    const attackInfo: array<AttackLog.Attack>
    var attackCount: u32
    var totalPackets: u64
    var totalBytes: u64
    ghost var past: Past

    ghost predicate Valid() {
      attackInfo.Length == AttackLog.MAX_ATTACKS
    }

    ghost function State(): World
      requires Valid()
      reads this, attackInfo
    {
      var log := AttackLog.Log(attackInfo[..], attackCount);
      World(Maps(frags, buckets, syns, dns, udps, flows, log, totalPackets, totalBytes), past)
    }

    constructor ()
      ensures Valid() && fresh(attackInfo) && State() == EmptyWorld()
    {
      frags, buckets, syns, dns, udps, flows := map[], map[], map[], map[], map[], map[];
      attackInfo := new AttackLog.Attack[AttackLog.MAX_ATTACKS](i => AttackLog.ZEROED);
      attackCount, totalPackets, totalBytes := 0, 0, 0;
      past := EmptyWorld().past;
      new;
      assert attackInfo[..] == AttackLog.Zeroes(AttackLog.MAX_ATTACKS);
    }

    method CountFrame(wireLength: u32)
      requires Valid()
      modifies this`totalPackets, this`totalBytes, this`past
      ensures State() == XdpProgram.CountFrame(old(State()), wireLength)
    {
      totalPackets := Add64(totalPackets, 1);
      totalBytes := Add64(totalBytes, wireLength);
      past := past.(frames := past.frames + 1, wireBytes := past.wireBytes + wireLength);
    }

    method HandleFragment(env: Env, ip: IpHeader, now: u64) returns (v: Verdict)
      requires Valid()
      modifies this`frags, this`past
      ensures Outcome(State(), v) == XdpProgram.HandleFragment(env, old(State()), ip, now)
    {
      if !Fragments.IsFragment(ip) {
        return Pass;
      }
      var probe := Fragments.Probe(env, ip);
      past := past.(frags := past.frags + [Seen(ip.saddr, now, probe)]);
      if ip.saddr !in frags {
        frags := frags[ip.saddr := Fragments.FragInfo(now, 1)];
      } else {
        var info := frags[ip.saddr];
        if Elapsed(now, info.lastUpdate) > Fragments.TIMEOUT {
          info := info.(fragCount := 1);
        } else {
          info := info.(fragCount := Add32(info.fragCount, 1));
        }
        info := info.(lastUpdate := now);
        frags := frags[ip.saddr := info];
        if info.fragCount > probe.limit {
          return Drop;
        }
      }
      if probe.offset == 1 {
        return Drop;
      }
      if probe.more && probe.payload < Fragments.SMALLEST {
        return Drop;
      }
      return Pass;
    }

    method EarlyFilter(env: Env, ip: IpHeader, proto: u8, now: u64) returns (v: Verdict)
      requires Valid()
      modifies this`buckets, this`past
      ensures Outcome(State(), v) == XdpProgram.EarlyFilter(env, old(State()), ip, proto, now)
    {
      if ip.saddr == 0 || ip.daddr == 0 {
        return Drop;
      }
      if ip.daddr == BROADCAST {
        return Pass;
      }
      if ip.ttl == 0 {
        return Drop;
      }
      if proto == ICMP {
        var rate := GetConfig(env).icmpFloodRate;
        past := past.(icmp := past.icmp + [Seen(ip.saddr, now, rate)]);
        if ip.saddr !in buckets {
          buckets := buckets[ip.saddr := TokenBucket.Bucket(now, rate)];
          return Pass;
        }
        var bucket := buckets[ip.saddr];
        var tokens := TokenBucket.Refill(bucket, now, rate);
        if tokens >= 1 {
          buckets := buckets[ip.saddr := TokenBucket.Bucket(now, tokens - 1)];
          return Pass;
        } else {
          assert buckets == buckets[ip.saddr := bucket];
          return Drop;
        }
      }
      return Pass;
    }

    method CheckSynFlood(env: Env, ip: IpHeader, tcp: TcpHeader, now: u64) returns (v: Verdict)
      requires Valid()
      modifies this`syns, this`past
      ensures Outcome(State(), v) == XdpProgram.CheckSynFlood(env, old(State()), ip, tcp, now)
    {
      if !Bit(tcp.flags, SYN) {
        return Pass;
      }
      var ack := Bit(tcp.flags, ACK);
      var rate := GetConfig(env).synFloodRate;
      past := past.(syns := past.syns + [Seen(ip.saddr, now, SynTracker.SynProbe(ack, rate))]);
      if ip.saddr !in syns {
        syns := syns[ip.saddr := if ack then SynTracker.SynInfo(now, 0, 1) else SynTracker.SynInfo(now, 1, 0)];
        return Pass;
      }
      var info := syns[ip.saddr];
      v := Pass;
      if Elapsed(now, info.lastUpdate) < SECOND {
        if ack {
          info := info.(synAckCount := Add32(info.synAckCount, 1));
        } else {
          info := info.(synCount := Add32(info.synCount, 1));
          if info.synCount > rate && info.synCount > W32(info.synAckCount * 10) {
            v := Drop;
          }
        }
      } else {
        info := if ack then SynTracker.SynInfo(now, 0, 1) else SynTracker.SynInfo(now, 1, 0);
      }
      syns := syns[ip.saddr := info];
    }

    method CheckDns(env: Env, ip: IpHeader, udp: UdpHeader, now: u64) returns (v: Verdict)
      requires Valid()
      modifies this`dns, this`past
      ensures Outcome(State(), v) == XdpProgram.CheckDns(env, old(State()), ip, udp, now)
    {
      if udp.source != DNS_PORT && udp.dest != DNS_PORT {
        return Pass;
      }
      var key := UdpFlow(ip, udp);
      var established := Flows.Established(Lookup(flows, key), now);
      var probe := DnsTracker.DnsProbe(key, ip.totLen, GetConfig(env).dnsAmpRate, established);
      past := past.(dns := past.dns + [Seen(ip.saddr, now, probe)]);
      if ip.saddr !in dns {
        dns := dns[ip.saddr := DnsTracker.DnsInfo(now, 1, ip.totLen)];
        return Pass;
      }
      var info := dns[ip.saddr];
      if Elapsed(now, info.lastUpdate) < SECOND {
        info := info.(packetCount := Add32(info.packetCount, 1));
        info := info.(totalSize := Add32(info.totalSize, ip.totLen));
        dns := dns[ip.saddr := info];
        var threshold := DnsTracker.Threshold(probe);
        if info.packetCount > threshold {
          return Drop;
        }
        if udp.source == DNS_PORT && ip.totLen > DnsTracker.MAX_RESPONSE {
          return Drop;
        }
      } else {
        dns := dns[ip.saddr := DnsTracker.DnsInfo(now, 1, ip.totLen)];
      }
      return Pass;
    }

    /** update_attack_info: at capacity it is the newest record that is overwritten. */
    method UpdateAttackInfo(src: u32, proto: u8, packets: u32, bytes: u64, now: u64)
      requires Valid()
      modifies this`attackCount, this`past, attackInfo
      ensures State() == LogAttack(old(State()), AttackLog.Attack(now, src, proto, packets, bytes))
    {
      var attack := AttackLog.Attack(now, src, proto, packets, bytes);
      var count := attackCount;
      if count >= AttackLog.MAX_ATTACKS {
        count := AttackLog.MAX_ATTACKS - 1;
      }
      attackInfo[count] := attack;
      count := count + 1;
      attackCount := count;
      past := past.(attacks := past.attacks + [attack]);
    }

    method CheckUdp(env: Env, ip: IpHeader, udp: UdpHeader, now: u64, logTime: u64) returns (v: Verdict)
      requires Valid()
      modifies this`udps, this`past, this`attackCount, attackInfo
      ensures Outcome(State(), v) == XdpProgram.CheckUdp(env, old(State()), ip, udp, now, logTime)
    {
      hide UdpTracker.PacketsPerSecond, UdpTracker.Threshold, Flows.Established, GetConfig;
      var key := UdpFlow(ip, udp);
      var established := Flows.Established(Lookup(flows, key), now);
      var probe := UdpTracker.UdpProbe(key, ip.totLen, GetConfig(env).udpFloodRate, established);
      past := past.(udps := past.udps + [Seen(ip.saddr, now, probe)]);
      if ip.saddr !in udps {
        udps := udps[ip.saddr := UdpTracker.UdpInfo(now, 1, ip.totLen)];
        return Pass;
      }
      var info := udps[ip.saddr];
      var gap := Elapsed(now, info.lastUpdate);
      if gap >= SECOND {
        udps := udps[ip.saddr := UdpTracker.UdpInfo(now, 1, ip.totLen)];
        return Pass;
      }
      info := info.(packetCount := Add32(info.packetCount, 1));
      info := info.(byteCount := Add32(info.byteCount, ip.totLen));
      if gap > UdpTracker.SAMPLE {
        var pps := UdpTracker.PacketsPerSecond(info.packetCount, gap);
        if pps > UdpTracker.Threshold(probe) && info.packetCount > UdpTracker.BURST {
          udps := udps[ip.saddr := info];
          UpdateAttackInfo(ip.saddr, UDP, 1, ip.totLen, logTime);
          return Drop;
        }
      }
      info := info.(lastUpdate := now);
      udps := udps[ip.saddr := info];
      if udp.dest == DNS_PORT && ip.totLen > UdpTracker.MAX_DNS_QUERY {
        return Drop;
      }
      if (udp.dest == NTP_PORT || udp.source == NTP_PORT) && ip.totLen > UdpTracker.MAX_NTP {
        return Drop;
      }
      return Pass;
    }

    method RecordFlow(env: Env, ip: IpHeader, s: Segment, now: u64)
      requires Valid() && Parsed(s).Some?
      modifies this`flows, this`past
      ensures State() == Record(env, old(State()), ip, s, now)
    {
      var x := Seen(FlowOf(ip, s), now, PacketOf(env, ip, s));
      var p := x.what;
      past := past.(recorded := past.recorded + [x]);
      if x.key !in flows {
        flows := flows[x.key := Flows.NewFlow(x)];
      } else {
        var info := flows[x.key];
        info := info.(flowEnd := now, packets := Add32(info.packets, 1), bytes := Add64(info.bytes, p.payload));
        if p.inbound {
          info := info.(fwd := Flows.AddPacket(info.fwd, p));
        } else {
          info := info.(bwd := Flows.AddPacket(info.bwd, p));
        }
        info := Flows.UpdateLengths(info, p.payload, p.inbound);
        info := Flows.UpdateIat(info, now, p.inbound);
        if x.key.proto == TCP {
          info := info.(flags := Flows.CountFlags(info.flags, p.flags));
        }
        info := info.(timestamp := now);
        flows := flows[x.key := info];
      }
    }

    method CheckTransport(env: Env, ip: IpHeader, s: Segment, c: Clock) returns (v: Verdict)
      requires Valid()
      modifies this, attackInfo
      ensures Outcome(State(), v) == XdpProgram.CheckTransport(env, old(State()), ip, s, c)
    {
      match s {
        case TcpSegment(Some(h)) =>
          v := CheckSynFlood(env, ip, h, c.transport);
        case UdpSegment(Some(h)) =>
          v := CheckDns(env, ip, h, c.transport);
          if v == Pass {
            v := CheckUdp(env, ip, h, c.udp, c.log);
          }
        case _ =>
          v := Pass;
      }
    }

    /** A return before the recording stage. */
    ghost method Leave()
      requires Valid()
      modifies this`past
      ensures State() == XdpProgram.Leave(old(State()), Pass).world
    {
      past := past.(returned := past.returned + 1);
    }

    /** xdp_prog. */
    method Process(env: Env, frame: Frame, c: Clock) returns (v: Verdict)
      requires Valid()
      modifies this, attackInfo
      ensures Outcome(State(), v) == XdpProgram.Process(env, old(State()), frame, c)
    {
      if frame.Runt? || frame.NotIpv4? {
        return Pass;
      }
      CountFrame(frame.wireLength);
      if frame.ShortIpv4? {
        Leave();
        return Pass;
      }
      var ip, s := frame.ip, frame.segment;
      v := HandleFragment(env, ip, c.frag);
      if v != Pass {
        Leave();
        return;
      }
      v := CheckGeoip(env, ip.saddr);
      if v != Pass {
        Leave();
        return;
      }
      v := EarlyFilter(env, ip, Protocol(s), c.early);
      if v != Pass || Parsed(s).None? {
        Leave();
        return;
      }
      v := CheckTransport(env, ip, s, c);
      if v != Pass {
        Leave();
        return;
      }
      var ports := Parsed(s).value;
      v := RuleMatch.ApplyRule(env.rules, ip.saddr, ports.source, Protocol(s));
      if v != Pass {
        Leave();
        return;
      }
      v := RuleMatch.ApplyRule(env.rules, ip.daddr, ports.dest, Protocol(s));
      if v != Pass {
        Leave();
        return;
      }
      RecordFlow(env, ip, s, c.record);
    }
  }
}
