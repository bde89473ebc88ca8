/** The rule handlers of the HTTP API on the rules map that apply_rule reads. */
module RuleApi {
  import opened Machine
  import opened Histories
  import opened Packets
  import opened RuleMatch
  import opened Text

  function W8(x: int): u8 { x % 0x100 }

  /** A JSON object with the fields the handler looks for. */
  datatype Request = Request(ip: Option<string>, port: Option<int>, proto: Option<string>, action: Option<string>)

  /** An entry of the list as shown to the user. */
  datatype Entry = Entry(ip: string, port: nat, proto: string, portStart: nat, portEnd: nat, action: u8)

  datatype Status = BadRequest | Added

  const ZERO_KEY := RuleKey(0, 0, 0)

  /** Requests that are of interest below: one without any field, and two for port 80 of one address. */
  const NO_FIELDS := Request(None, None, None, None)
  const TCP_80 := Request(Some("10.0.0.1"), Some(80), Some("tcp"), None)
  const ANY_80 := Request(Some("10.0.0.1"), Some(80), None, None)

  // ---- create ----

  function ProtoOf(name: Option<string>): u8 {
    match name
    case None => 0
    case Some(p) =>
      if SameIgnoringCase(p, "tcp") then TCP else if SameIgnoringCase(p, "udp") then UDP
      else if SameIgnoringCase(p, "icmp") then ICMP else 0
  }

  /** The port a request asks for: an int is cut to 16 bits, and zero stands for every port. */
  function AskedPort(q: Request): u16 {
    match q.port
    case None => 0
    case Some(p) => W16(p)
  }

  /** An address that does not parse leaves zero in the key. */
  function AddressOf(ip: Option<string>): u32 {
    match ip
    case None => 0
    case Some(s) => (match ParseQuad(s) case Some(a) => a case None => 0)
  }

  predicate AsksToPass(q: Request) {
    q.action.Some? && SameIgnoringCase(q.action.value, "pass")
  }

  function KeyOf(q: Request): RuleKey {
    RuleKey(AddressOf(q.ip), Htons(AskedPort(q)), ProtoOf(q.proto))
  }

  function RuleOf(q: Request): Rule {
    var port := Htons(AskedPort(q));
    Rule(port, port, ProtoOf(q.proto), if AsksToPass(q) then ACTION_PASS else ACTION_DROP)
  }

  /** The protocol number a request names in its text; zero if none of the three, or none at all. */
  function AskedProto(q: Request): u8 {
    match q.proto
    case None => 0
    case Some(p) =>
      if IsWord(p, "tcp", "TCP") then 6 else if IsWord(p, "udp", "UDP") then 17
      else if IsWord(p, "icmp", "ICMP") then 1 else 0
  }

  lemma {:induction false} Words(text: string)
    ensures SameIgnoringCase(text, "pass") <==> IsWord(text, "pass", "PASS")
    ensures SameIgnoringCase(text, "tcp") <==> IsWord(text, "tcp", "TCP")
    ensures SameIgnoringCase(text, "udp") <==> IsWord(text, "udp", "UDP")
    ensures SameIgnoringCase(text, "icmp") <==> IsWord(text, "icmp", "ICMP")
  {
    hide SameIgnoringCase, IsWord;
    SameIsWord(text, "pass", "PASS");
    SameIsWord(text, "tcp", "TCP");
    SameIsWord(text, "udp", "UDP");
    SameIsWord(text, "icmp", "ICMP");
  }

  /** The rule a request stands for, told from its text: the address printed there, or zero if none is; the port cut to
      16 bits with its bytes swapped; 6, 17, 1 or 0 for the protocol; action 2 for the word "pass" in any letters, and
      1 for anything else or nothing. */
  lemma {:induction false} RequestTold(q: Request)
    ensures var port := if q.port.Some? then q.port.value % 0x1_0000 else 0;
            var swapped := port % 0x100 * 0x100 + port / 0x100;
            var action := if q.action.Some? && IsWord(q.action.value, "pass", "PASS") then 2 else 1;
            && KeyOf(q) == RuleKey(AddressOf(q.ip), swapped, AskedProto(q))
            && RuleOf(q) == Rule(swapped, swapped, AskedProto(q), action)
            && (AsksToPass(q) <==> action == 2) && ProtoOf(q.proto) == AskedProto(q) && AskedPort(q) == port
  {
    hide SameIgnoringCase, IsWord, AddressOf;
    if q.action.Some? {
      Words(q.action.value);
    }
    if q.proto.Some? {
      Words(q.proto.value);
    }
  }

  /** The address of a request: the one whose printed form it gives, and zero if it gives none. */
  lemma {:induction false} AddressTold(ip: Option<string>, address: u32)
    ensures ip == Some(PrintQuad(address)) ==> AddressOf(ip) == address
    ensures AddressOf(ip) != 0 ==> ip == Some(PrintQuad(AddressOf(ip)))
  {
    hide ParseQuad, PrintQuad;
    if ip.Some? {
      ParsesExactlyWhenPrinted(ip.value, address);
      ParsesExactlyWhenPrinted(ip.value, AddressOf(ip));
    }
  }

  // ---- list ----

  function ProtoName(p: u8): string {
    if p == TCP then "TCP" else if p == UDP then "UDP" else if p == ICMP then "ICMP" else "UNKNOWN"
  }

  function EntryOf(k: RuleKey, r: Rule): Entry {
    Entry(PrintQuad(k.ip), Htons(k.port), ProtoName(k.proto), Htons(r.portStart), Htons(r.portEnd), r.action)
  }

  ghost predicate Distinct(order: seq<RuleKey>) {
    forall i, j :: 0 <= i < j < |order| ==> order[i] != order[j]
  }

  /** The order in which the hash map hands out its keys: each of them once. */
  ghost predicate IsOrder(order: seq<RuleKey>, rules: map<RuleKey, Rule>) {
    Distinct(order) && forall k :: k in order <==> k in rules
  }

  function IndexOf(order: seq<RuleKey>, key: RuleKey): (i: nat)
    ensures i <= |order| && (i < |order| ==> order[i] == key) && (key in order ==> i < |order|)
  {
    if order == [] || order[0] == key then 0 else 1 + IndexOf(order[1..], key)
  }

  /** bpf_map_get_next_key on a hash map: the first key for a key that is not there. */
  function NextKey(order: seq<RuleKey>, key: RuleKey): Option<RuleKey> {
    var i := IndexOf(order, key);
    if i == |order| then (if order == [] then None else Some(order[0]))
    else if i + 1 < |order| then Some(order[i + 1]) else None
  }

  /** The keys listed when the scan starts from the all-zero key. */
  function Shown(order: seq<RuleKey>): seq<RuleKey> {
    var i := IndexOf(order, ZERO_KEY);
    if i == |order| then order else order[i + 1..]
  }

  lemma {:induction false} IndexIs(order: seq<RuleKey>, i: nat)
    requires i < |order| && Distinct(order)
    ensures IndexOf(order, order[i]) == i
  {
    if i == 0 {
    } else {
      assert order[1..][i - 1] == order[i];
      IndexIs(order[1..], i - 1);
    }
  }

  lemma {:induction false} ShownAreRules(order: seq<RuleKey>, rules: map<RuleKey, Rule>)
    requires IsOrder(order, rules)
    ensures forall i :: 0 <= i < |Shown(order)| ==> Shown(order)[i] in rules
  {
    forall i | 0 <= i < |Shown(order)| ensures Shown(order)[i] in rules {
      assert Shown(order)[i] in order;
    }
  }

  lemma {:induction false} NextIs(order: seq<RuleKey>, i: nat)
    requires i < |order| && Distinct(order)
    ensures NextKey(order, order[i]) == if i + 1 < |order| then Some(order[i + 1]) else None
  {
    IndexIs(order, i);
  }

  lemma {:induction false} ShownIsTail(order: seq<RuleKey>)
    ensures |Shown(order)| <= |order| && Shown(order) == order[|order| - |Shown(order)|..]
  {
  }

  /** The scan visits the shown keys one after the other. */
  lemma {:induction false} ScanVisitsShown(order: seq<RuleKey>, n: nat)
    requires Distinct(order) && n <= |Shown(order)|
    ensures NextKey(order, if n == 0 then ZERO_KEY else Shown(order)[n - 1])
            == if n < |Shown(order)| then Some(Shown(order)[n]) else None
  {
    hide Distinct;
    var first := |order| - |Shown(order)|;
    ShownIsTail(order);
    if n == 0 {
    } else {
      hide Shown, NextKey;
      NextIs(order, first + n - 1);
    }
  }

  /** What an entry shows of a key and a rule: the ports with their bytes swapped back. */
  lemma {:induction false} EntryTold(k: RuleKey, r: Rule)
    ensures var e := EntryOf(k, r);
            && e.ip == PrintQuad(k.ip) && e.port == k.port % 0x100 * 0x100 + k.port / 0x100
            && e.proto == (match k.proto case 6 => "TCP" case 17 => "UDP" case 1 => "ICMP" case _ => "UNKNOWN")
            && e.portStart == r.portStart % 0x100 * 0x100 + r.portStart / 0x100
            && e.portEnd == r.portEnd % 0x100 * 0x100 + r.portEnd / 0x100 && e.action == r.action
  {
  }

  /** The entries shown. */
  ghost function Listing(order: seq<RuleKey>, rules: map<RuleKey, Rule>): (entries: seq<Entry>)
    requires IsOrder(order, rules)
    ensures |entries| == |Shown(order)|
  {
    ShownAreRules(order, rules);
    seq(|Shown(order)|, i requires 0 <= i < |Shown(order)| => EntryOf(Shown(order)[i], rules[Shown(order)[i]]))
  }

  // ---- delete ----

  /** What the handler's variables hold before they are assigned. */
  datatype Leftover = Leftover(ip: string, port: int, proto: int)

  function AssembledKey(ip: string, port: int, proto: int): RuleKey {
    RuleKey(AddressOf(Some(ip)), Htons(W16(port)), W8(proto))
  }

  function AfterUnderscore(s: string): Option<Scan> {
    if s != [] && s[0] == '_' then ScanInt(s[1..]) else None
  }

  /** sscanf with "%15[^_]_%d_%d": conversions that fail leave their variables as they were. */
  function ParseId(id: string, x: Leftover): RuleKey {
    var f := ScanField(id, 15);
    if f.value == [] then AssembledKey(x.ip, x.port, x.proto)
    else
      match AfterUnderscore(f.rest)
      case None => AssembledKey(f.value, x.port, x.proto)
      case Some(port) =>
        match AfterUnderscore(port.rest)
        case None => AssembledKey(f.value, port.value, x.proto)
        case Some(proto) => AssembledKey(f.value, port.value, proto.value)
  }

  /** The number the web page puts in an id for a protocol name. */
  function ProtoNumber(name: string): nat {
    if name == "TCP" then 6 else if name == "UDP" then 17 else if name == "ICMP" then 1 else 6
  }

  /** The id of a list entry as the web page builds it. */
  function IdOf(e: Entry): string {
    e.ip + ("_" + PrintNat(e.port) + ("_" + PrintNat(ProtoNumber(e.proto))))
  }

  // ---- the handlers ----

  class Rules {
    var rules: map<RuleKey, Rule>

    constructor ()
      ensures rules == map[]
    {
      rules := map[];
    }

    /** api_rules_create; None stands for a body that is not JSON. */
    method Create(body: Option<Request>) returns (status: Status)
      modifies this
      ensures body.None? ==> status == BadRequest && rules == old(rules)
      ensures body.Some? ==> status == Added && rules == old(rules)[KeyOf(body.value) := RuleOf(body.value)]
      ensures body.Some? ==> var q := body.value;
                             rules[KeyOf(q)].action ==
                             if q.action.Some? && IsWord(q.action.value, "pass", "PASS") then 2 else 1
    {
      hide SameIgnoringCase, ParseQuad, Htons, W16;
      OnlyZeroSwapsToZero(0);
      if body.None? {
        return BadRequest;
      }
      var q := body.value;
      RequestTold(q);
      var key, rule := ZERO_KEY, Rule(0, 0, 0, 0);
      if q.ip.Some? {
        var address := ParseQuad(q.ip.value);
        if address.Some? {
          key := key.(ip := address.value);
        }
      }
      if q.port.Some? {
        var port := Htons(W16(q.port.value));
        key := key.(port := port);
        rule := rule.(portStart := port, portEnd := port);
      }
      if q.proto.Some? {
        if SameIgnoringCase(q.proto.value, "tcp") {
          key := key.(proto := TCP);
        } else if SameIgnoringCase(q.proto.value, "udp") {
          key := key.(proto := UDP);
        } else if SameIgnoringCase(q.proto.value, "icmp") {
          key := key.(proto := ICMP);
        }
      }
      rule := rule.(proto := key.proto, action := ACTION_DROP);
      if q.action.Some? && SameIgnoringCase(q.action.value, "pass") {
        rule := rule.(action := ACTION_PASS);
      }
      rules := rules[key := rule];
      return Added;
    }

    /** api_rules_list over the map's own key order. */
    method List(order: seq<RuleKey>) returns (entries: seq<Entry>)
      requires IsOrder(order, rules)
      ensures entries == Listing(order, rules)
    {
      hide Shown, NextKey, EntryOf;
      entries := [];
      var key := ZERO_KEY;
      var next := NextKey(order, key);
      ScanVisitsShown(order, 0);
      ShownAreRules(order, rules);
      while next.Some?
        invariant |entries| <= |Shown(order)|
        invariant next == if |entries| < |Shown(order)| then Some(Shown(order)[|entries|]) else None
        invariant forall i :: 0 <= i < |entries| ==> entries[i] == EntryOf(Shown(order)[i], rules[Shown(order)[i]])
        decreases |Shown(order)| - |entries|
      {
        entries := entries + [EntryOf(next.value, rules[next.value])];
        key := next.value;
        next := NextKey(order, key);
        ScanVisitsShown(order, |entries|);
      }
    }

    /** api_rules_delete; `x` is what its variables hold at the start, and removing a key that is not there
        changes nothing. */
    method Delete(id: string, x: Leftover)
      modifies this
      ensures rules == old(rules) - {ParseId(id, x)}
    {
      hide ParseQuad, Htons, W16, W8, ScanField, AfterUnderscore;
      var ip, port, proto := x.ip, x.port, x.proto;
      var first := ScanField(id, 15);
      if first.value != [] {
        ip := first.value;
        var second := AfterUnderscore(first.rest);
        if second.Some? {
          port := second.value.value;
          var third := AfterUnderscore(second.value.rest);
          if third.Some? {
            proto := third.value.value;
          }
        }
      }
      var key := ZERO_KEY;
      var address := ParseQuad(ip);
      if address.Some? {
        key := key.(ip := address.value);
      }
      key := key.(port := Htons(W16(port)));
      key := key.(proto := W8(proto));
      rules := rules - {key};
    }
  }

  // ---- what the list shows ----

  /** A rule is shown if and only if the all-zero key is no rule, or comes before it in the map's order. */
  lemma {:induction false} ShownExactlyWhen(order: seq<RuleKey>, rules: map<RuleKey, Rule>, k: RuleKey)
    requires IsOrder(order, rules) && k in rules
    ensures k in Shown(order) <==> ZERO_KEY !in rules || IndexOf(order, ZERO_KEY) < IndexOf(order, k)
  {
    var zero, i := IndexOf(order, ZERO_KEY), IndexOf(order, k);
    if zero < i {
      assert Shown(order) == if zero == |order| then order else order[zero + 1..];
      assert zero < |order| ==> order[zero + 1..][i - zero - 1] == k;
    } else if zero < |order| {
      forall j | zero < j < |order| ensures order[j] != k {
        assert order[i] != order[j];
      }
    }
  }

  /** The list shows every rule if and only if the all-zero key is not among them; what it shows are rules. */
  lemma {:induction false} ListCompleteExactlyWhen(order: seq<RuleKey>, rules: map<RuleKey, Rule>)
    requires IsOrder(order, rules)
    ensures forall k :: k in Shown(order) ==> k in rules
    ensures (forall k :: k in rules ==> k in Shown(order)) <==> ZERO_KEY !in rules
  {
    var i := IndexOf(order, ZERO_KEY);
    if i < |order| {
      assert ZERO_KEY !in Shown(order);
    }
  }

  lemma {:induction false} SecondKeyDiffers(order: seq<RuleKey>)
    requires Distinct(order) && |order| > 1
    ensures exists k :: k in order && k != ZERO_KEY
  {
    assert order[0] in order && order[1] in order && order[0] != order[1];
  }

  lemma {:induction false} OnlyZeroKey(order: seq<RuleKey>)
    requires Distinct(order) && forall k :: k in order <==> k == ZERO_KEY
    ensures Shown(order) == []
  {
    assert ZERO_KEY in order;
    if |order| > 1 {
      SecondKeyDiffers(order);
      assert false;
    }
  }

  lemma {:induction false} NoFieldsKey()
    ensures KeyOf(NO_FIELDS) == ZERO_KEY
  {
    hide ParseQuad, SameIgnoringCase;
  }

  /** Such a rule can be asked for: a request without any of the fields makes the all-zero key a rule, and a list
      of that one rule is empty. */
  lemma {:induction false} EmptyRequestIsNotListed(order: seq<RuleKey>)
    requires IsOrder(order, map[KeyOf(NO_FIELDS) := RuleOf(NO_FIELDS)])
    ensures KeyOf(NO_FIELDS) == ZERO_KEY
    ensures Listing(order, map[KeyOf(NO_FIELDS) := RuleOf(NO_FIELDS)]) == []
  {
    NoFieldsKey();
    hide KeyOf, RuleOf, Shown, Distinct, EntryOf;
    OnlyZeroKey(order);
  }

  /** What an entry says about a request: its address, its port three times over, its action, and the name of its
      protocol. */
  predicate Shows(e: Entry, q: Request) {
    && e.ip == PrintQuad(AddressOf(q.ip))
    && e.port == e.portStart == e.portEnd == (if q.port.Some? then q.port.value % 0x1_0000 else 0)
    && e.action == (if q.action.Some? && IsWord(q.action.value, "pass", "PASS") then 2 else 1)
    && e.proto == match AskedProto(q) case 6 => "TCP" case 17 => "UDP" case 1 => "ICMP" case _ => "UNKNOWN"
  }

  lemma {:induction false} NamesDiffer()
    ensures "TCP" != "UDP" && "TCP" != "ICMP" && "UDP" != "ICMP"
    ensures "UNKNOWN" != "TCP" && "UNKNOWN" != "UDP" && "UNKNOWN" != "ICMP"
  {
    assert |"UNKNOWN"| == 7 && |"ICMP"| == 4 && "TCP"[0] != "UDP"[0];
  }

  lemma {:induction false} EntryShows(q: Request)
    ensures Shows(EntryOf(KeyOf(q), RuleOf(q)), q)
  {
    hide PrintQuad, Htons, AddressOf, AsksToPass, ProtoOf, AskedProto, IsWord;
    RequestTold(q);
    HtonsInvolution(AskedPort(q));
  }

  /** After any create, the list holds an entry for the rule's key, showing it as it was asked for, if and only if the
      all-zero key is no rule or comes before it in the map's order. */
  lemma {:induction false} CreatedIsListedExactlyWhen(rules: map<RuleKey, Rule>, q: Request, order: seq<RuleKey>)
    requires IsOrder(order, rules[KeyOf(q) := RuleOf(q)])
    ensures var created := rules[KeyOf(q) := RuleOf(q)];
            (exists i :: 0 <= i < |Shown(order)| && Shown(order)[i] == KeyOf(q) && Shows(Listing(order, created)[i], q))
            <==> ZERO_KEY !in created || IndexOf(order, ZERO_KEY) < IndexOf(order, KeyOf(q))
  {
    hide Shows, KeyOf, RuleOf, EntryOf, Shown, IndexOf, IsOrder;
    var created := rules[KeyOf(q) := RuleOf(q)];
    ShownExactlyWhen(order, created, KeyOf(q));
    EntryShows(q);
    if KeyOf(q) in Shown(order) {
      var i :| 0 <= i < |Shown(order)| && Shown(order)[i] == KeyOf(q);
      assert Listing(order, created)[i] == EntryOf(KeyOf(q), RuleOf(q));
    }
  }

  // ---- ids ----

  lemma {:induction false} SmallInts(port: u16, proto: u8)
    ensures W16(port) == port && W8(proto) == proto
  {
  }

  /** The key for an address, a port cut to 16 bits with its bytes swapped, and a protocol cut to 8 bits. */
  function CutKey(ip: string, port: int, proto: int): RuleKey {
    RuleKey(AddressOf(Some(ip)), port % 0x1_0000 % 0x100 * 0x100 + port % 0x1_0000 / 0x100, proto % 0x100)
  }

  lemma {:induction false} PartOfId(n: int, rest: string)
    requires rest == [] || !IsDigit(rest[0])
    ensures AfterUnderscore("_" + (PrintInt(n) + rest)) == Some(Scan(n, rest))
  {
    hide PrintInt, ScanInt;
    PrintedSigned(n, rest);
    assert ("_" + (PrintInt(n) + rest))[1..] == PrintInt(n) + rest;
  }

  lemma {:induction false} NothingAfter()
    ensures AfterUnderscore([]) == None
  {
  }

  /** What an id means: the text before the first underscore, of up to 15 characters, the number after it and the number
      after the next one. Where the text ends early the rest is whatever the variables held before. */
  lemma {:induction false} IdTold(ip: string, port: int, proto: int, x: Leftover)
    requires '_' !in ip && 1 <= |ip| <= 15
    ensures ParseId(ip + ("_" + (PrintInt(port) + ("_" + PrintInt(proto)))), x) == CutKey(ip, port, proto)
    ensures ParseId(ip + ("_" + PrintInt(port)), x) == CutKey(ip, port, x.proto)
    ensures ParseId(ip, x) == CutKey(ip, x.port, x.proto)
    ensures ParseId([], x) == CutKey(x.ip, x.port, x.proto)
  {
    hide PrintInt, AddressOf, AfterUnderscore;
    var last := "_" + PrintInt(proto);
    assert PrintInt(proto) + [] == PrintInt(proto) && PrintInt(port) + [] == PrintInt(port);
    PartOfId(proto, []);
    PartOfId(port, last);
    PartOfId(port, []);
    FieldOfConcat(ip, "_" + (PrintInt(port) + last), 15);
    FieldOfConcat(ip, "_" + PrintInt(port), 15);
    WholeField(ip, 15);
    NothingAfter();
  }

  /** The id of an entry as text. */
  lemma {:induction false} IdText(k: RuleKey, r: Rule)
    ensures IdOf(EntryOf(k, r)) ==
            PrintQuad(k.ip) + ("_" + PrintNat(k.port % 0x100 * 0x100 + k.port / 0x100)
                               + ("_" + PrintNat(if k.proto == 17 then 17 else if k.proto == 1 then 1 else 6)))
  {
    hide PrintQuad, PrintNat;
    NamesDiffer();
  }

  /** Any entry's id, whatever the variables held before: its address and port parse back, its protocol only
      if it is TCP, UDP or ICMP. */
  lemma {:induction false} IdParses(k: RuleKey, r: Rule, x: Leftover)
    ensures ParseId(IdOf(EntryOf(k, r)), x) == k.(proto := if k.proto == 17 || k.proto == 1 then k.proto else 6)
  {
    hide PrintQuad, ParseQuad, PrintNat, ScanInt, ScanField;
    var e := EntryOf(k, r);
    var proto := PrintNat(ProtoNumber(e.proto));
    var tail := "_" + proto;
    assert proto == proto + [];
    var port := PrintNat(e.port) + tail;
    var rest := "_" + port;
    assert IdOf(e) == PrintQuad(k.ip) + rest;
    QuadIsShort(k.ip);
    QuadRoundTrip(k.ip);
    FieldOfConcat(PrintQuad(k.ip), rest, 15);
    assert rest[1..] == port && tail[1..] == proto;
    PrintedInt(e.port, tail);
    PrintedInt(ProtoNumber(e.proto), []);
    HtonsInvolution(k.port);
    NamesDiffer();
    SmallInts(Htons(k.port), ProtoNumber(e.proto));
  }

  /** The id printed from a list entry parses back to the rule's key if and only if the rule is for TCP, UDP or ICMP. */
  lemma {:induction false} IdRoundTripExactlyWhen(k: RuleKey, r: Rule, x: Leftover)
    ensures ParseId(IdOf(EntryOf(k, r)), x) == k <==> k.proto == 6 || k.proto == 17 || k.proto == 1
  {
    hide ParseId, IdOf, EntryOf;
    IdParses(k, r, x);
  }

  // ---- the life of a rule ----

  /** A created rule decides for exactly the packets it is about, save those that another rule names the port of;
      nothing changes for any other packet. Without it, a rule without a port is back in force, if there is one. */
  lemma {:induction false} CreatedRuleDecides(rules: map<RuleKey, Rule>, q: Request, ip: u32, port: u16, proto: u8)
    ensures var k := KeyOf(q);
            var created := rules[k := RuleOf(q)];
            && (!Matches(k, ip, port, proto) ==>
                  ApplyRule(created, ip, port, proto) == ApplyRule(rules, ip, port, proto))
            && (Decides(created, k, ip, port, proto) ==>
                  ApplyRule(created, ip, port, proto) ==
                  if q.action.Some? && IsWord(q.action.value, "pass", "PASS") then Pass else Drop)
            && (Matches(k, ip, port, proto) && !Decides(created, k, ip, port, proto) ==>
                  ApplyRule(created, ip, port, proto) == ApplyRule(rules, ip, port, proto))
  {
    hide Matches, Htons, AddressOf, ProtoOf, AsksToPass, AskedPort, AskedProto, IsWord;
    RequestTold(q);
    var k := KeyOf(q);
    MatchesExactlyTwo(k, ip, port, proto);
    MostSpecificRuleDecides(rules[k := RuleOf(q)], ip, port, proto);
    if Matches(k, ip, port, proto) && !Decides(rules[k := RuleOf(q)], k, ip, port, proto) {
      var j :| j in rules[k := RuleOf(q)] && Matches(j, ip, port, proto) && j.port != 0;
      MatchesExactlyTwo(j, ip, port, proto);
    }
  }

  /** What a request does, from its text to the filter: packets from or to the address it gives, at its port cut to
      16 bits and of the protocol it names, are passed for the action "pass" and dropped for any other or none. */
  lemma {:induction false} RequestTakesEffect(rules: map<RuleKey, Rule>, q: Request, address: u32)
    requires q.ip == Some(PrintQuad(address))
    ensures var port := if q.port.Some? then q.port.value % 0x1_0000 else 0;
            var proto := if q.proto.None? then 0
                         else if IsWord(q.proto.value, "tcp", "TCP") then 6
                         else if IsWord(q.proto.value, "udp", "UDP") then 17
                         else if IsWord(q.proto.value, "icmp", "ICMP") then 1 else 0;
            ApplyRule(rules[KeyOf(q) := RuleOf(q)], address, port, proto) ==
            if q.action.Some? && IsWord(q.action.value, "pass", "PASS") then Pass else Drop
  {
    hide PrintQuad, IsWord, AddressOf, AsksToPass, ProtoOf;
    AddressTold(q.ip, address);
    RequestTold(q);
  }

  /** For every entry of the list: deleting by its id takes away its rule and nothing else if and only if the rule is
      for TCP, UDP or ICMP; any other rule stays, and the TCP rule of the same address and port goes instead. */
  lemma {:induction false} DeletedByEntry(rules: map<RuleKey, Rule>, order: seq<RuleKey>, i: nat, x: Leftover)
    requires IsOrder(order, rules) && i < |Shown(order)|
    ensures var k := Shown(order)[i];
            var deleted := rules - {ParseId(IdOf(Listing(order, rules)[i]), x)};
            && k in rules
            && (deleted == rules - {k} <==> k.proto == 6 || k.proto == 17 || k.proto == 1)
            && (deleted != rules - {k} ==> deleted == rules - {k.(proto := 6)} && k in deleted)
  {
    hide ParseId, IdOf, EntryOf, Shown;
    ShownAreRules(order, rules);
    var k := Shown(order)[i];
    IdParses(k, rules[k], x);
    assert Listing(order, rules)[i] == EntryOf(k, rules[k]);
    if k.proto == TCP {
      assert k.(proto := TCP) == k;
    } else if k.proto != UDP && k.proto != ICMP {
      assert k in rules - {k.(proto := TCP)} && k !in rules - {k};
    }
  }

  lemma {:induction false} KnownProtocols(q: Request)
    ensures ProtoOf(q.proto) != 0 <==> ProtoOf(q.proto) == TCP || ProtoOf(q.proto) == UDP || ProtoOf(q.proto) == ICMP
  {
    hide SameIgnoringCase;
  }

  /** Create, list, delete by the id of the entry that the list holds for the rule's key. From the create on, the filter
      applies the requested action to exactly the rule's address, port and protocol, whatever rule without a port there
      is. The delete takes that key and no other if and only if the request named one of the three protocols, and the
      rule without a port, if any, is back in force; otherwise the rule stays in force. */
  lemma {:induction false} RuleLifeCycle(
    rules: map<RuleKey, Rule>, q: Request, order: seq<RuleKey>, i: nat, x: Leftover)
    requires IsOrder(order, rules[KeyOf(q) := RuleOf(q)]) && i < |Shown(order)| && Shown(order)[i] == KeyOf(q)
    ensures var k, port := KeyOf(q), if q.port.Some? then q.port.value % 0x1_0000 else 0;
            var wanted := if q.action.Some? && IsWord(q.action.value, "pass", "PASS") then Pass else Drop;
            var created := rules[k := RuleOf(q)];
            var deleted := created - {ParseId(IdOf(Listing(order, created)[i]), x)};
            && ApplyRule(created, k.ip, port, k.proto) == wanted
            && (deleted == rules - {k} <==> AskedProto(q) != 0)
            && ApplyRule(deleted, k.ip, port, k.proto) ==
               if AskedProto(q) == 0 then wanted
               else if port != 0 && k.(port := 0) in rules then
                 var a := rules[k.(port := 0)].action; if a == 1 then Drop else if a == 3 then Tx else Pass
               else Pass
  {
    hide ParseId, IdOf, EntryOf, AsksToPass, ProtoOf, Htons, AskedPort, AddressOf, Listing, IsOrder, Shown, AskedProto,
         IsWord;
    RequestTold(q);
    var k := KeyOf(q);
    var created := rules[k := RuleOf(q)];
    DeletedByEntry(created, order, i, x);
    KnownProtocols(q);
    OnlyZeroSwapsToZero(AskedPort(q));
    assert created - {k} == rules - {k};
  }

  /** A request without a protocol, next to a TCP rule for the same address and port: deleting the new rule by the id of
      its entry removes the TCP rule and leaves the new one. */
  lemma {:induction false} WrongRuleGoes(rules: map<RuleKey, Rule>, order: seq<RuleKey>, i: nat, x: Leftover)
    requires KeyOf(TCP_80) in rules
    requires IsOrder(order, rules[KeyOf(ANY_80) := RuleOf(ANY_80)])
    requires i < |Shown(order)| && Shown(order)[i] == KeyOf(ANY_80)
    ensures var created := rules[KeyOf(ANY_80) := RuleOf(ANY_80)];
            var deleted := created - {ParseId(IdOf(Listing(order, created)[i]), x)};
            KeyOf(ANY_80) in deleted && KeyOf(TCP_80) in created && KeyOf(TCP_80) !in deleted
  {
    hide ParseId, IdOf, Listing, IsOrder, Shown, Htons;
    var created := rules[KeyOf(ANY_80) := RuleOf(ANY_80)];
    DeletedByEntry(created, order, i, x);
    assert SameIgnoringCase("tcp", "tcp");
    assert KeyOf(TCP_80) == KeyOf(ANY_80).(proto := TCP);
  }
}
