/** The flow record of a 5-tuple, as the recording stage keeps it over every sequence of recorded packets. */
module Flows {
  import opened Machine
  import opened Histories
  import opened Packets

  const ESTABLISHED_AGE: int := 5_000_000_000

  /** The fields the struct keeps once for each direction. */
  datatype Side = Side(packets: u32, bytes: u64, headerLength: u32,
                       lengthMax: u32, lengthMin: u32, lengthSum: u32, iatSum: u32)

  /** The TCP flag counters by the bit they test: 0x01 up to 0x80. */
  datatype FlagCounts = FlagCounts(fin: u32, syn: u32, rst: u32, psh: u32, ack: u32, urg: u32, cwe: u32, ece: u32)

  /** struct traffic_info_t. */
  datatype Flow = Flow(
    key: FlowKey, direction: u8, hostIp: u32,
    timestamp: u64, flowStart: u64, flowEnd: u64,
    packets: u32, bytes: u64, fwd: Side, bwd: Side,
    minLength: u16, maxLength: u16, iatSum: u32, flags: FlagCounts)

  /** A packet at the recording stage: payload and header lengths, whether the host is its destination,
      the host address in force, and its TCP flag byte (zero for other protocols). */
  datatype Packet = Packet(payload: u32, headers: u32, inbound: bool, hostIp: u32, flags: u8)

  type Recorded = Seen<FlowKey, Packet>

  // ---- the program ----

  function LongerOf(length: u32, max: u32): u32 { if length > max then length else max }

  /** Zero stands for "no minimum yet". */
  function ShorterOf(length: u32, min: u32): u32 { if length < min || min == 0 then length else min }

  function SideLengths(s: Side, length: u32): Side {
    s.(lengthMax := LongerOf(length, s.lengthMax), lengthMin := ShorterOf(length, s.lengthMin),
       lengthSum := Add32(s.lengthSum, length))
  }

  /** update_packet_length_stats: the two overall extremes are stored as u16. */
  function UpdateLengths(f: Flow, length: u32, forward: bool): Flow {
    var g := if forward then f.(fwd := SideLengths(f.fwd, length)) else f.(bwd := SideLengths(f.bwd, length));
    g.(maxLength := W16(LongerOf(length, f.maxLength)), minLength := W16(ShorterOf(length, f.minLength)))
  }

  /** update_iat_stats: the u64 gap is added to u32 sums. */
  function UpdateIat(f: Flow, now: u64, forward: bool): Flow {
    var iat := W32(Elapsed(now, f.timestamp));
    var g := f.(iatSum := Add32(f.iatSum, iat));
    if forward then g.(fwd := g.fwd.(iatSum := Add32(g.fwd.iatSum, iat)))
    else g.(bwd := g.bwd.(iatSum := Add32(g.bwd.iatSum, iat)))
  }

  function One(flags: u8, mask: nat): u32
    requires mask > 0
  {
    if Bit(flags, mask) then 1 else 0
  }

  function CountFlags(c: FlagCounts, flags: u8): FlagCounts {
    FlagCounts(Add32(c.fin, One(flags, 0x01)), Add32(c.syn, One(flags, 0x02)), Add32(c.rst, One(flags, 0x04)),
               Add32(c.psh, One(flags, 0x08)), Add32(c.ack, One(flags, 0x10)), Add32(c.urg, One(flags, 0x20)),
               Add32(c.cwe, One(flags, 0x40)), Add32(c.ece, One(flags, 0x80)))
  }

  const NO_FLAGS := FlagCounts(0, 0, 0, 0, 0, 0, 0, 0)
  const NO_PACKETS := Side(0, 0, 0, 0, 0, 0, 0)

  function AddPacket(s: Side, p: Packet): Side {
    s.(packets := Add32(s.packets, 1), bytes := Add64(s.bytes, p.payload),
       headerLength := Add32(s.headerLength, p.headers))
  }

  /** A new record counts its packet as forward whichever way it goes. */
  function NewFlow(x: Recorded): Flow {
    var f := Flow(x.key, if x.what.inbound then 0 else 1, x.what.hostIp, x.time, x.time, x.time,
                  1, x.what.payload, Side(1, x.what.payload, x.what.headers, 0, 0, 0, 0), NO_PACKETS,
                  0, 0, 0, NO_FLAGS);
    UpdateLengths(f, x.what.payload, true)
    .(flags := if x.key.proto == TCP then CountFlags(NO_FLAGS, x.what.flags) else NO_FLAGS)
  }

  function Continue(f: Flow, x: Recorded): Flow {
    var p := x.what;
    var f1 := f.(flowEnd := x.time, packets := Add32(f.packets, 1), bytes := Add64(f.bytes, p.payload));
    var f2 := if p.inbound then f1.(fwd := AddPacket(f.fwd, p)) else f1.(bwd := AddPacket(f.bwd, p));
    var f3 := UpdateIat(UpdateLengths(f2, p.payload, p.inbound), x.time, p.inbound);
    f3.(flags := if x.key.proto == TCP then CountFlags(f.flags, p.flags) else f.flags, timestamp := x.time)
  }

  function Step(f: Option<Flow>, x: Recorded): Flow {
    match f
    case None => NewFlow(x)
    case Some(f) => Continue(f, x)
  }

  function After(xs: seq<Recorded>): Option<Flow> {
    if xs == [] then None else Some(Step(After(Most(xs)), Last(xs)))
  }

  lemma {:induction false} AfterSnoc(xs: seq<Recorded>, x: Recorded)
    ensures After(xs + [x]) == Some(Step(After(xs), x))
  {
    assert Most(xs + [x]) == xs;
  }

  /** is_established_flow: the record is more than five seconds old. */
  predicate Established(f: Option<Flow>, now: u64) {
    f.Some? && Elapsed(now, f.value.flowStart) > ESTABLISHED_AGE
  }

  // ---- what the run says ----

  /** Whether packet `i` of a flow is accounted as forward. */
  predicate Forward(xs: seq<Recorded>, i: nat)
    requires i < |xs|
  {
    i == 0 || xs[i].what.inbound
  }

  predicate LastGoes(xs: seq<Recorded>, forward: bool)
    requires xs != []
  {
    Forward(xs, |xs| - 1) == forward
  }

  function PacketsOf(xs: seq<Recorded>, forward: bool): nat {
    if xs == [] then 0 else PacketsOf(Most(xs), forward) + if LastGoes(xs, forward) then 1 else 0
  }

  function BytesOf(xs: seq<Recorded>, forward: bool): nat {
    if xs == [] then 0 else BytesOf(Most(xs), forward) + if LastGoes(xs, forward) then Last(xs).what.payload else 0
  }

  function HeadersOf(xs: seq<Recorded>, forward: bool): nat {
    if xs == [] then 0 else HeadersOf(Most(xs), forward) + if LastGoes(xs, forward) then Last(xs).what.headers else 0
  }

  /** The gaps before the packets of one direction, each to the packet before it in either direction. */
  function GapsOf(xs: seq<Recorded>, forward: bool): int {
    if |xs| <= 1 then 0
    else GapsOf(Most(xs), forward) + if LastGoes(xs, forward) then Last(xs).time - Last(Most(xs)).time else 0
  }

  function LengthsOf(xs: seq<Recorded>, forward: bool): seq<u32> {
    if xs == [] then []
    else LengthsOf(Most(xs), forward) + if LastGoes(xs, forward) then [Last(xs).what.payload] else []
  }

  function Lengths(xs: seq<Recorded>): (r: seq<u32>)
    ensures |r| == |xs|
    ensures forall i :: 0 <= i < |xs| ==> r[i] == xs[i].what.payload
  {
    seq(|xs|, i requires 0 <= i < |xs| => xs[i].what.payload)
  }

  function FlaggedOf(xs: seq<Recorded>, mask: nat): nat
    requires mask > 0
  {
    if xs == [] then 0 else FlaggedOf(Most(xs), mask) + if Last(xs).what.flags / mask % 2 == 1 then 1 else 0
  }

  predicate SameKey(xs: seq<Recorded>) {
    forall i :: 0 <= i < |xs| ==> xs[i].key == xs[0].key
  }

  // ---- conservation ----

  /** Identity, clock fields and totals: the record carries the 5-tuple, the direction and host address of the first
      packet, the times of the first and the last, and the number of packets and their bytes, wrapped;
      the gaps telescope to the flow's duration. */
  lemma {:induction false} Totals(xs: seq<Recorded>)
    requires xs != [] && SameKey(xs) && Monotone(xs)
    ensures After(xs).Some?
    ensures var f := After(xs).value;
            && f.key == xs[0].key && f.hostIp == xs[0].what.hostIp
            && f.direction == (if xs[0].what.inbound then 0 else 1)
            && f.flowStart == xs[0].time && f.flowEnd == f.timestamp == Last(xs).time
            && f.packets == W32(|xs|)
            && f.bytes == W64(BytesOf(xs, true) + BytesOf(xs, false))
            && f.iatSum == W32(f.flowEnd - f.flowStart)
  {
    hide W32, W64, W16, Add32, Add64, LongerOf, ShorterOf, CountFlags;
    var p := Last(xs).what;
    Unwrapped32(0);
    Unwrapped32(1);
    Unwrapped64(p.payload);
    assert BytesOf(xs, true) + BytesOf(xs, false) == BytesOf(Most(xs), true) + BytesOf(Most(xs), false) + p.payload;
    if |xs| > 1 {
      var most := Most(xs);
      Totals(most);
      WrapAdd32(|most|, 1);
      WrapAdd64(BytesOf(most, true) + BytesOf(most, false), p.payload);
      WrapAdd32(Last(most).time - xs[0].time, Last(xs).time - Last(most).time);
    } else {
      assert Most(xs) == [] && BytesOf(Most(xs), true) == BytesOf(Most(xs), false) == 0;
    }
  }

  /** The sums of one direction on a record that stands for earlier packets. */
  ghost predicate SideStandsFor(s: Side, xs: seq<Recorded>, forward: bool) {
    && s.packets == W32(PacketsOf(xs, forward))
    && s.bytes == W64(BytesOf(xs, forward))
    && s.headerLength == W32(HeadersOf(xs, forward))
    && s.lengthSum == W32(BytesOf(xs, forward))
    && s.iatSum == W32(GapsOf(xs, forward))
  }

  function SideOf(f: Flow, forward: bool): Side {
    if forward then f.fwd else f.bwd
  }

  lemma {:induction false} FirstSide(xs: seq<Recorded>, forward: bool)
    requires |xs| == 1
    ensures After(xs).Some? && SideStandsFor(SideOf(After(xs).value, forward), xs, forward)
  {
    hide W16, LongerOf, ShorterOf, CountFlags;
    var none := Most(xs);
    assert none == [];
    assert PacketsOf(none, forward) == 0 && BytesOf(none, forward) == 0 && HeadersOf(none, forward) == 0;
  }

  lemma {:induction false} NextSide(f: Flow, xs: seq<Recorded>, forward: bool)
    requires |xs| > 1 && SideStandsFor(SideOf(f, forward), Most(xs), forward)
    requires f.timestamp == Last(Most(xs)).time <= Last(xs).time
    ensures SideStandsFor(SideOf(Continue(f, Last(xs)), forward), xs, forward)
  {
    hide W32, W64, W16, Add32, Add64, LongerOf, ShorterOf, CountFlags;
    var most, p := Most(xs), Last(xs).what;
    Unwrapped32(1);
    Unwrapped32(p.payload);
    Unwrapped32(p.headers);
    Unwrapped64(p.payload);
    WrapAdd32(PacketsOf(most, forward), 1);
    WrapAdd64(BytesOf(most, forward), p.payload);
    WrapAdd32(HeadersOf(most, forward), p.headers);
    WrapAdd32(BytesOf(most, forward), p.payload);
    WrapAdd32(GapsOf(most, forward), Last(xs).time - Last(most).time);
  }

  /** One direction of the record is about the packets that went that way. */
  lemma {:induction false} SideTotals(xs: seq<Recorded>, forward: bool)
    requires xs != [] && SameKey(xs) && Monotone(xs)
    ensures After(xs).Some? && SideStandsFor(SideOf(After(xs).value, forward), xs, forward)
  {
    hide SideStandsFor, Continue, NewFlow;
    if |xs| > 1 {
      SideTotals(Most(xs), forward);
      Totals(Most(xs));
      NextSide(After(Most(xs)).value, xs, forward);
    } else {
      FirstSide(xs, forward);
    }
  }

  lemma {:induction false} BothDirections(xs: seq<Recorded>)
    ensures PacketsOf(xs, true) + PacketsOf(xs, false) == |xs|
    ensures xs != [] ==> GapsOf(xs, true) + GapsOf(xs, false) == Last(xs).time - xs[0].time
  {
    if xs == [] {
    } else {
      BothDirections(Most(xs));
    }
  }

  lemma {:induction false} Rewrap(a: int)
    ensures W32(W64(a)) == W32(a)
  {
  }

  /** Forward and backward add up to the totals, modulo the width of the field. */
  lemma {:induction false} Conservation(xs: seq<Recorded>)
    requires xs != [] && SameKey(xs) && Monotone(xs)
    ensures After(xs).Some?
    ensures var f := After(xs).value;
            && Add32(f.fwd.packets, f.bwd.packets) == f.packets
            && Add64(f.fwd.bytes, f.bwd.bytes) == f.bytes
            && Add32(f.fwd.iatSum, f.bwd.iatSum) == f.iatSum
            && f.fwd.lengthSum == W32(f.fwd.bytes) && f.bwd.lengthSum == W32(f.bwd.bytes)
            && f.timestamp == f.flowEnd && f.iatSum == W32(f.flowEnd - f.flowStart)
  {
    hide W32, W64, Add32, Add64, After;
    Totals(xs);
    SideTotals(xs, true);
    SideTotals(xs, false);
    BothDirections(xs);
    WrapAdd32(PacketsOf(xs, true), PacketsOf(xs, false));
    WrapAdd64(BytesOf(xs, true), BytesOf(xs, false));
    WrapAdd32(GapsOf(xs, true), GapsOf(xs, false));
    Rewrap(BytesOf(xs, true));
    Rewrap(BytesOf(xs, false));
  }

  lemma {:induction false} NextFlag(xs: seq<Recorded>, mask: nat)
    requires xs != [] && mask > 0
    ensures W32(FlaggedOf(xs, mask)) == Add32(W32(FlaggedOf(Most(xs), mask)), One(Last(xs).what.flags, mask))
  {
    hide W32, Add32;
    Unwrapped32(One(Last(xs).what.flags, mask));
    WrapAdd32(FlaggedOf(Most(xs), mask), One(Last(xs).what.flags, mask));
  }

  /** Each flag counter of a TCP flow is the number of its packets with that bit set; other flows count none. */
  lemma {:induction false} FlagTotals(xs: seq<Recorded>)
    requires xs != [] && SameKey(xs)
    ensures After(xs).Some?
    ensures After(xs).value.flags ==
            if xs[0].key.proto == TCP then
              FlagCounts(W32(FlaggedOf(xs, 0x01)), W32(FlaggedOf(xs, 0x02)), W32(FlaggedOf(xs, 0x04)),
                         W32(FlaggedOf(xs, 0x08)), W32(FlaggedOf(xs, 0x10)), W32(FlaggedOf(xs, 0x20)),
                         W32(FlaggedOf(xs, 0x40)), W32(FlaggedOf(xs, 0x80)))
            else NO_FLAGS
  {
    hide W32, W16, W64, Add32, Add64, LongerOf, ShorterOf, One, Elapsed;
    if |xs| > 1 {
      FlagTotals(Most(xs));
    } else {
      assert Most(xs) == [];
    }
    Unwrapped32(0);
    NextFlag(xs, 0x01);
    NextFlag(xs, 0x02);
    NextFlag(xs, 0x04);
    NextFlag(xs, 0x08);
    NextFlag(xs, 0x10);
    NextFlag(xs, 0x20);
    NextFlag(xs, 0x40);
    NextFlag(xs, 0x80);
  }

  // ---- length extremes ----

  function MaxOver(ls: seq<u32>): u32 {
    if ls == [] then 0 else LongerOf(Last(ls), MaxOver(Most(ls)))
  }

  function MinOver(ls: seq<u32>): u32 {
    if ls == [] then 0 else ShorterOf(Last(ls), MinOver(Most(ls)))
  }

  /** The index after the latest zero, or 0 when there is none. */
  function AfterLatestZero(ls: seq<u32>): (i: nat)
    ensures i <= |ls|
    ensures i > 0 ==> ls[i - 1] == 0
    ensures forall j :: i <= j < |ls| ==> ls[j] > 0
  {
    if ls == [] then 0 else if Last(ls) == 0 then |ls| else AfterLatestZero(Most(ls))
  }

  /** The running maximum is the maximum. */
  lemma {:induction false} MaxOverIsMax(ls: seq<u32>)
    ensures forall i :: 0 <= i < |ls| ==> ls[i] <= MaxOver(ls)
    ensures ls != [] ==> exists i :: 0 <= i < |ls| && ls[i] == MaxOver(ls)
  {
    if ls == [] {
    } else {
      MaxOverIsMax(Most(ls));
      if |ls| > 1 && MaxOver(ls) != Last(ls) {
        var i :| 0 <= i < |Most(ls)| && Most(ls)[i] == MaxOver(Most(ls));
        assert ls[i] == MaxOver(ls);
      } else {
        assert ls[|ls| - 1] == MaxOver(ls);
      }
    }
  }

  /** The running minimum is the minimum of what came after the latest zero, and 0 if nothing did. */
  lemma {:induction false} MinOverIsRecentMin(ls: seq<u32>)
    ensures AfterLatestZero(ls) == |ls| ==> MinOver(ls) == 0
    ensures forall i :: AfterLatestZero(ls) <= i < |ls| ==> 0 < MinOver(ls) <= ls[i]
    ensures AfterLatestZero(ls) < |ls| ==> exists i :: AfterLatestZero(ls) <= i < |ls| && ls[i] == MinOver(ls)
  {
    if ls == [] {
    } else {
      var most := Most(ls);
      MinOverIsRecentMin(most);
      if Last(ls) != 0 && AfterLatestZero(most) < |most| && MinOver(ls) != Last(ls) {
        var i :| AfterLatestZero(most) <= i < |most| && most[i] == MinOver(most);
        assert ls[i] == MinOver(ls);
      } else if Last(ls) != 0 {
        assert ls[|ls| - 1] == MinOver(ls);
      }
    }
  }

  /** The running minimum is the true minimum if and only if no value is zero or the last one is. */
  lemma {:induction false} MinOverIsTrueMinWhen(ls: seq<u32>)
    requires ls != []
    ensures (forall i :: 0 <= i < |ls| ==> MinOver(ls) <= ls[i]) && (exists i :: 0 <= i < |ls| && ls[i] == MinOver(ls))
            <==> (forall i :: 0 <= i < |ls| ==> ls[i] > 0) || Last(ls) == 0
  {
    MinOverIsRecentMin(ls);
    var z := AfterLatestZero(ls);
    if z == |ls| {
      assert ls[|ls| - 1] == MinOver(ls);
    } else if z > 0 {
      assert ls[z - 1] == 0;
    }
  }

  lemma {:induction false} NextExtremes(xs: seq<Recorded>, forward: bool)
    requires xs != []
    ensures var next, most := LengthsOf(xs, forward), LengthsOf(Most(xs), forward);
            if LastGoes(xs, forward) then
              && MaxOver(next) == LongerOf(Last(xs).what.payload, MaxOver(most))
              && MinOver(next) == ShorterOf(Last(xs).what.payload, MinOver(most))
            else next == most
  {
    if LastGoes(xs, forward) {
      assert Most(LengthsOf(xs, forward)) == LengthsOf(Most(xs), forward);
    }
  }

  /** The extremes kept for each direction. */
  lemma {:induction false} SideExtremes(xs: seq<Recorded>, forward: bool)
    requires xs != []
    ensures After(xs).Some?
    ensures var s := SideOf(After(xs).value, forward);
            s.lengthMax == MaxOver(LengthsOf(xs, forward)) && s.lengthMin == MinOver(LengthsOf(xs, forward))
  {
    hide W32, W64, W16, Add32, Add64, CountFlags, Elapsed, LongerOf, ShorterOf;
    if |xs| > 1 {
      SideExtremes(Most(xs), forward);
    } else {
      assert Most(xs) == [] && LengthsOf(Most(xs), forward) == [];
    }
    NextExtremes(xs, forward);
  }

  lemma {:induction false} NoExtremes()
    ensures MaxOver([]) == 0 && MinOver([]) == 0
  {
  }

  lemma {:induction false} ExtremesFit(ls: seq<u32>, bound: u32)
    requires bound > 0 && forall i :: 0 <= i < |ls| ==> ls[i] < bound
    ensures MaxOver(ls) < bound && MinOver(ls) < bound
  {
    hide MaxOver, MinOver;
    if ls == [] {
      NoExtremes();
    } else {
      MaxOverIsMax(ls);
      MinOverIsRecentMin(ls);
      var z := AfterLatestZero(ls);
      if z < |ls| {
        assert MinOver(ls) <= ls[z] < bound;
      }
    }
  }

  /** The extremes kept for the whole flow, for payloads that fit the u16 fields. */
  lemma {:induction false} Extremes(xs: seq<Recorded>)
    requires xs != [] && forall i :: 0 <= i < |xs| ==> xs[i].what.payload < 0x1_0000
    ensures After(xs).Some?
    ensures After(xs).value.maxLength == MaxOver(Lengths(xs)) && After(xs).value.minLength == MinOver(Lengths(xs))
  {
    hide W32, W64, W16, Add32, Add64, CountFlags, Elapsed;
    ExtremesFit(Lengths(xs), 0x1_0000);
    Unwrapped16(MaxOver(Lengths(xs)));
    Unwrapped16(MinOver(Lengths(xs)));
    assert Most(Lengths(xs)) == Lengths(Most(xs));
    if |xs| == 1 {
      assert Most(xs) == [] && Lengths(Most(xs)) == [];
    } else {
      Extremes(Most(xs));
    }
  }

  // ---- established flows ----

  /** A flow counts as established exactly when its first recorded packet is more than five seconds old. */
  lemma {:induction false} EstablishedExactlyWhen(xs: seq<Recorded>, now: u64)
    requires SameKey(xs) && Monotone(xs) && (xs != [] ==> Last(xs).time <= now)
    ensures Established(After(xs), now) <==> xs != [] && now - xs[0].time > 5_000_000_000
  {
    hide Step;
    if xs != [] {
      Totals(xs);
    }
  }
}
