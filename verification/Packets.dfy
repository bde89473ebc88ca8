/** Frames as the program reads them, and the values of its read-only maps. */
module Packets {
  import opened Machine

  datatype Verdict = Drop | Pass | Tx

  const ICMP: u8 := 1
  const TCP: u8 := 6
  const UDP: u8 := 17
  const DNS_PORT: u16 := 53
  const NTP_PORT: u16 := 123
  const BROADCAST: u32 := 0xFFFF_FFFF

  /** struct attacks_config_t: every value is an arbitrary u32, zero included. */
  datatype Config = Config(synFloodRate: u32, udpFloodRate: u32, icmpFloodRate: u32, dnsAmpRate: u32, maxFrags: u32)

  /** The parts of struct iphdr the program reads, in host byte order; addresses stay as stored. */
  datatype IpHeader = IpHeader(saddr: u32, daddr: u32, ttl: u8, ihl: Nibble, totLen: u16, fragOff: u16)

  type Nibble = x: int | 0 <= x < 16

  datatype TcpHeader = TcpHeader(source: u16, dest: u16, doff: Nibble, flags: u8)
  datatype UdpHeader = UdpHeader(source: u16, dest: u16)
  datatype IcmpHeader = IcmpHeader(kind: u8, code: u8)

  type OtherProtocol = x: int | 0 <= x < 256 && x != 1 && x != 6 && x != 17 witness 0

  /** The bytes after the IP header: the fixed transport header, or None where the frame ends before it does. */
  datatype Segment =
    | TcpSegment(tcp: Option<TcpHeader>)
    | UdpSegment(udp: Option<UdpHeader>)
    | IcmpSegment(icmp: Option<IcmpHeader>)
    | OtherSegment(number: OtherProtocol)

  datatype Frame =
    | Runt                                                   // shorter than an Ethernet header
    | NotIpv4                                                // another EtherType
    | ShortIpv4(wireLength: u32)                             // IPv4, but shorter than an IP header
    | Ipv4(wireLength: u32, ip: IpHeader, segment: Segment)

  function Protocol(s: Segment): u8 {
    match s
    case TcpSegment(_) => TCP
    case UdpSegment(_) => UDP
    case IcmpSegment(_) => ICMP
    case OtherSegment(n) => n
  }

  datatype RuleKey = RuleKey(ip: u32, port: u16, proto: u8)          // port in network byte order
  datatype Rule = Rule(portStart: u16, portEnd: u16, proto: u8, action: u8)
  datatype FlowKey = FlowKey(srcIp: u32, dstIp: u32, srcPort: u16, dstPort: u16, proto: u8)

  /** What user space has put into the maps the program only reads, at the time a frame is processed.
      `country` stands for the longest-prefix-match lookup of geoip_map. */
  datatype Env = Env(
    config: Option<Config>,
    country: map<u32, u16>,
    countryAction: map<u16, u8>,
    rules: map<RuleKey, Rule>,
    hostIp: Option<u32>)

  /** get_config: the configured values, or the built-in ones when the lookup fails. */
  function GetConfig(env: Env): Config {
    match env.config
    case Some(c) => c
    case None => Config(1000, 50000, 100, 200, 15)
  }

  /** The clock readings of one pass of the program, one for each call of bpf_ktime_get_ns on its path. */
  datatype Clock = Clock(frag: u64, early: u64, transport: u64, udp: u64, log: u64, record: u64)

  predicate ClockOrdered(c: Clock) {
    c.frag <= c.early <= c.transport <= c.udp <= c.log <= c.record
  }
}
