/** apply_rule: the action for an address, a port and a protocol. */
module RuleMatch {
  import opened Machine
  import opened Packets

  const ACTION_DROP: u8 := 1
  const ACTION_PASS: u8 := 2
  const ACTION_TX: u8 := 3

  /** Conversion of a 16-bit number between host and network byte order, on a little-endian host. */
  function Htons(port: u16): u16 {
    port % 0x100 * 0x100 + port / 0x100
  }

  lemma {:induction false} Bytes(low: u8, high: u8)
    ensures (low * 0x100 + high) % 0x100 == high && (low * 0x100 + high) / 0x100 == low
  {
  }

  lemma {:induction false} HtonsInvolution(port: u16)
    ensures Htons(Htons(port)) == port
  {
    var low, high := port % 0x100, port / 0x100;
    assert port == high * 0x100 + low;
    Bytes(low, high);
  }

  lemma {:induction false} OnlyZeroSwapsToZero(port: u16)
    ensures Htons(port) == 0 <==> port == 0
  {
  }

  /** Actions other than 1 and 3, unknown ones included, pass. */
  function ActionVerdict(r: Rule): (v: Verdict)
    ensures v == Drop <==> r.action == 1
    ensures v == Tx <==> r.action == 3
  {
    if r.action == ACTION_DROP then Drop else if r.action == ACTION_TX then Tx else Pass
  }

  function ApplyRule(rules: map<RuleKey, Rule>, ip: u32, port: u16, proto: u8): Verdict {
    var exact := RuleKey(ip, Htons(port), proto);
    var wildcard := RuleKey(ip, 0, proto);
    if exact in rules then ActionVerdict(rules[exact])
    else if wildcard in rules then ActionVerdict(rules[wildcard])
    else Pass
  }

  /** A rule is about a packet if it names its address, its protocol, and its port or no port; the port is kept with its
      two bytes swapped. */
  predicate Matches(k: RuleKey, ip: u32, port: u16, proto: u8) {
    k.ip == ip && k.proto == proto && (k.port == 0 || port == k.port % 0x100 * 0x100 + k.port / 0x100)
  }

  /** A rule about a packet decides unless it names no port and another rule about the packet does. */
  ghost predicate Decides(rules: map<RuleKey, Rule>, k: RuleKey, ip: u32, port: u16, proto: u8) {
    && k in rules && Matches(k, ip, port, proto)
    && (k.port == 0 ==> forall j :: j in rules && Matches(j, ip, port, proto) ==> j.port == 0)
  }

  lemma {:induction false} MatchesExactlyTwo(k: RuleKey, ip: u32, port: u16, proto: u8)
    ensures Matches(k, ip, port, proto) <==> k == RuleKey(ip, Htons(port), proto) || k == RuleKey(ip, 0, proto)
  {
    HtonsInvolution(port);
    HtonsInvolution(k.port);
    assert Htons(k.port) == k.port % 0x100 * 0x100 + k.port / 0x100;
    hide Htons;
  }

  /** The most specific rule about a packet gives the verdict: whichever rule decides, it is followed, and a packet
      is dropped or sent back only because some rule decides so. Rules about other packets do not bear on it. */
  lemma {:induction false} MostSpecificRuleDecides(rules: map<RuleKey, Rule>, ip: u32, port: u16, proto: u8)
    ensures forall k :: Decides(rules, k, ip, port, proto) ==>
              ApplyRule(rules, ip, port, proto) ==
              if rules[k].action == 1 then Drop else if rules[k].action == 3 then Tx else Pass
    ensures ApplyRule(rules, ip, port, proto) != Pass ==> exists k :: Decides(rules, k, ip, port, proto)
  {
    hide Matches, Htons;
    forall k: RuleKey
      ensures Matches(k, ip, port, proto) <==> k == RuleKey(ip, Htons(port), proto) || k == RuleKey(ip, 0, proto)
    {
      MatchesExactlyTwo(k, ip, port, proto);
    }
    var exact, wildcard := RuleKey(ip, Htons(port), proto), RuleKey(ip, 0, proto);
    if exact in rules {
      assert Decides(rules, exact, ip, port, proto);
    } else if wildcard in rules {
      assert Decides(rules, wildcard, ip, port, proto);
    }
  }
}
