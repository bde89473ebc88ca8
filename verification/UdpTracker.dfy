/** The per-source UDP tracker, check_udp_flood, over every sequence of UDP packets. Its timestamp moves on
    every packet that is not dropped for its rate, so its behaviour is a matter of gaps, not of windows. */
module UdpTracker {
  import opened Machine
  import opened Histories
  import opened Packets

  const SAMPLE: int := 100_000_000
  const BURST: u32 := 200
  const MAX_DNS_QUERY: u16 := 512
  const MAX_NTP: u16 := 1024

  datatype UdpInfo = UdpInfo(lastUpdate: u64, packetCount: u32, byteCount: u32)

  /** A UDP packet: its 5-tuple, total length, configured rate, and whether its flow counted as established. */
  datatype UdpProbe = UdpProbe(flow: FlowKey, size: u16, rate: u32, established: bool)

  type UdpSeen = Seen<u32, UdpProbe>

  datatype UdpResult = UdpResult(info: UdpInfo, verdict: Verdict, rateDropped: bool)

  /** Established flows get ten times the rate, as a u32 product. */
  function Threshold(p: UdpProbe): (r: u32)
    ensures !p.established ==> r == p.rate
    ensures p.established && 10 * p.rate < TWO32 ==> r == 10 * p.rate
  {
    if p.established then W32(p.rate * 10) else p.rate
  }

  /** Packets per second of `count` packets over `gap` nanoseconds, rounded down; the product is a u64. */
  function PacketsPerSecond(count: u32, gap: nat): nat
    requires gap > 0
  {
    W64(Nano(count)) / gap
  }

  predicate Oversized(p: UdpProbe) {
    || (p.flow.dstPort == DNS_PORT && p.size > MAX_DNS_QUERY)
    || ((p.flow.dstPort == NTP_PORT || p.flow.srcPort == NTP_PORT) && p.size > MAX_NTP)
  }

  predicate Floods(count: u32, gap: u64, p: UdpProbe) {
    gap > SAMPLE && PacketsPerSecond(count, gap) > Threshold(p) && count > BURST
  }

  function Step(u: Option<UdpInfo>, x: UdpSeen): (r: UdpResult)
    ensures r.verdict != Tx
    ensures r.rateDropped ==> r.verdict == Drop
  {
    match u
    case None => UdpResult(UdpInfo(x.time, 1, x.what.size), Pass, false)
    case Some(i) =>
      var gap := Elapsed(x.time, i.lastUpdate);
      if gap >= SECOND then UdpResult(UdpInfo(x.time, 1, x.what.size), Pass, false)
      else
        var n := Add32(i.packetCount, 1);
        var bytes := Add32(i.byteCount, x.what.size);
        if Floods(n, gap, x.what) then UdpResult(UdpInfo(i.lastUpdate, n, bytes), Drop, true)
        else UdpResult(UdpInfo(x.time, n, bytes), if Oversized(x.what) then Drop else Pass, false)
  }

  function After(xs: seq<UdpSeen>): Option<UdpInfo> {
    if xs == [] then None else Some(Step(After(Most(xs)), Last(xs)).info)
  }

  lemma {:induction false} AfterSnoc(xs: seq<UdpSeen>, x: UdpSeen)
    ensures After(xs + [x]) == Some(Step(After(xs), x).info)
  {
    assert Most(xs + [x]) == xs;
  }

  function Outcome(xs: seq<UdpSeen>): UdpResult
    requires xs != []
  {
    Step(After(Most(xs)), Last(xs))
  }

  // ---- what the run says ----

  /** The index of the last packet that was not dropped for its rate. */
  function LastKept(xs: seq<UdpSeen>): (i: nat)
    requires xs != []
    ensures i < |xs|
  {
    if |xs| == 1 || !Outcome(xs).rateDropped then |xs| - 1 else LastKept(Most(xs))
  }

  /** The index of the packet that last reset the counters: the first one, or the latest that came
      a second or more after the last packet not dropped for its rate. */
  function LastReset(xs: seq<UdpSeen>): (i: nat)
    requires xs != []
    ensures i < |xs|
  {
    if |xs| == 1 || Last(xs).time - xs[LastKept(Most(xs))].time >= 1_000_000_000 then |xs| - 1 else LastReset(Most(xs))
  }

  function Bytes(xs: seq<UdpSeen>, lo: nat): nat {
    if |xs| <= lo then 0 else Bytes(Most(xs), lo) + Last(xs).what.size
  }

  /** One step on counters that stand for a number of packets and bytes. */
  lemma {:induction false} StepCounts(i: UdpInfo, x: UdpSeen, packets: nat, bytes: nat)
    requires i.packetCount == W32(packets) && i.byteCount == W32(bytes) && i.lastUpdate <= x.time
    ensures x.time - i.lastUpdate >= SECOND ==>
              Step(Some(i), x) == UdpResult(UdpInfo(x.time, 1, x.what.size), Pass, false)
    ensures x.time - i.lastUpdate < SECOND ==>
              var r := Step(Some(i), x);
              && r.info.packetCount == W32(packets + 1) && r.info.byteCount == W32(bytes + x.what.size)
              && r.info.lastUpdate == (if r.rateDropped then i.lastUpdate else x.time)
              && (r.rateDropped <==> Floods(W32(packets + 1), x.time - i.lastUpdate, x.what))
              && (r.verdict == Pass <==> !r.rateDropped && !Oversized(x.what))
  {
    hide Floods, Oversized;
    Unwrapped32(1);
    Unwrapped32(x.what.size);
    WrapAdd32(packets, 1);
    WrapAdd32(bytes, x.what.size);
  }

  lemma {:induction false} FirstStep(xs: seq<UdpSeen>)
    requires |xs| == 1
    ensures Outcome(xs) == UdpResult(UdpInfo(xs[0].time, 1, xs[0].what.size), Pass, false)
    ensures After(xs) == Some(Outcome(xs).info) && Bytes(xs, 0) == xs[0].what.size
  {
    assert Most(xs) == [] && Bytes(Most(xs), 0) == 0;
  }

  /** The timestamp is that of the last packet not dropped for its rate; the counters are the number of
      packets and their bytes since the last reset, modulo 2^32. */
  lemma {:induction false} CountersAreExact(xs: seq<UdpSeen>)
    requires xs != [] && Monotone(xs)
    ensures After(xs) == Some(UdpInfo(xs[LastKept(xs)].time, W32(|xs| - LastReset(xs)), W32(Bytes(xs, LastReset(xs)))))
  {
    hide Floods, W32, Step;
    Unwrapped32(1);
    Unwrapped32(Last(xs).what.size);
    if |xs| == 1 {
      FirstStep(xs);
    } else {
      var most := Most(xs);
      CountersAreExact(most);
      StepCounts(After(most).value, Last(xs), |most| - LastReset(most), Bytes(most, LastReset(most)));
      assert Bytes(most, |xs| - 1) == 0;
    }
  }

  lemma {:induction false} Quotient(product: nat, gap: nat)
    requires gap > 0
    ensures product / gap * gap <= product < (product / gap + 1) * gap
  {
  }

  lemma {:induction false} Times(a: int, b: int, gap: nat)
    requires a <= b
    ensures a * gap <= b * gap
  {
  }

  lemma {:induction false} FloorTest(product: nat, gap: nat, threshold: nat)
    requires gap > 0
    ensures product / gap > threshold <==> product >= (threshold + 1) * gap
  {
    var q := product / gap;
    Quotient(product, gap);
    if q > threshold {
      Times(threshold + 1, q, gap);
    } else {
      Times(q + 1, threshold + 1, gap);
    }
  }

  /** More than `threshold` packets for each second of the gap, without a division. */
  predicate Exceeds(count: nat, gap: nat, threshold: u32) {
    count * 1_000_000_000 >= (threshold + 1) * gap
  }

  /** The rate computed without overflow: 10^9 times a u32 count fits a u64, and comparing the floored
      quotient with a threshold is comparing the product with (threshold + 1) * gap. */
  lemma {:induction false} RateTest(count: u32, gap: nat, threshold: u32)
    requires gap > 0
    ensures Nano(count) < 0x1_0000_0000_0000_0000
    ensures PacketsPerSecond(count, gap) > threshold <==> Exceeds(count, gap, threshold)
  {
    Unwrapped64(Nano(count));
    FloorTest(Nano(count), gap, threshold);
  }

  lemma {:induction false} FloodTest(count: u32, gap: u64, p: UdpProbe)
    ensures Floods(count, gap, p) <==> gap > SAMPLE && count > BURST && Exceeds(count, gap, Threshold(p))
  {
    hide PacketsPerSecond, Threshold;
    if gap > SAMPLE {
      RateTest(count, gap, Threshold(p));
    }
  }

  /** The last packet comes strictly between 100 ms and 1 s after the last one before it that was not dropped for its
      rate, and with `count` packets since the reset it is above the 200th and exceeds its threshold over that gap. */
  predicate TooFastAt(xs: seq<UdpSeen>, count: nat)
    requires xs != []
  {
    && |xs| > 1
    && var gap, p := Last(xs).time - xs[LastKept(Most(xs))].time, Last(xs).what;
    && 100_000_000 < gap < 1_000_000_000 && count > 200
    && Exceeds(count, gap, if p.established then W32(p.rate * 10) else p.rate)
  }

  /** The packets since the last reset are counted modulo 2^32. */
  predicate TooFast(xs: seq<UdpSeen>)
    requires xs != []
  {
    TooFastAt(xs, W32(|xs| - LastReset(xs)))
  }

  /** Exactly which packets are dropped for their rate. */
  lemma {:induction false} RateDroppedExactlyWhen(xs: seq<UdpSeen>)
    requires xs != [] && Monotone(xs)
    ensures Outcome(xs).rateDropped <==> TooFast(xs)
  {
    hide Floods, W32, Exceeds, Step;
    if |xs| == 1 {
      FirstStep(xs);
    } else {
      var most := Most(xs);
      hide LastKept, Bytes;
      CountersAreExact(most);
      var gap := Last(xs).time - xs[LastKept(most)].time;
      StepCounts(After(most).value, Last(xs), |most| - LastReset(most), Bytes(most, LastReset(most)));
      if gap < SECOND {
        FloodTest(W32(|xs| - LastReset(xs)), gap, Last(xs).what);
      }
    }
  }

  /** Before the counter wraps, it is the plain number of packets since the reset. */
  lemma {:induction false} RateDroppedUnwrapped(xs: seq<UdpSeen>)
    requires xs != [] && Monotone(xs) && |xs| - LastReset(xs) < TWO32
    ensures Outcome(xs).rateDropped <==> TooFastAt(xs, |xs| - LastReset(xs))
  {
    hide TooFastAt, Outcome, LastReset, W32;
    RateDroppedExactlyWhen(xs);
    Unwrapped32(|xs| - LastReset(xs));
  }

  /** No two neighbours are more than 100 ms apart. */
  predicate Steady(xs: seq<UdpSeen>) {
    forall i :: 0 < i < |xs| ==> xs[i].time - xs[i - 1].time <= 100_000_000
  }

  /** However many packets come and whatever the rate is: while no two neighbours are more than 100 ms apart,
      none is ever dropped for its rate. */
  lemma {:induction false} SteadyTrafficIsNeverRateDropped(xs: seq<UdpSeen>)
    requires xs != [] && Monotone(xs) && Steady(xs)
    ensures !Outcome(xs).rateDropped && LastKept(xs) == |xs| - 1 && LastReset(xs) == 0
  {
    hide Outcome, Exceeds, Threshold, W32;
    if |xs| == 1 {
    } else {
      SteadyTrafficIsNeverRateDropped(Most(xs));
    }
    RateDroppedExactlyWhen(xs);
  }

  /** The first packet of a source and the first after a second's silence always pass; every other packet
      passes unless it is too fast, more than 512 bytes to port 53, or more than 1024 bytes to or from port 123. */
  lemma {:induction false} PassesExactlyWhen(xs: seq<UdpSeen>)
    requires xs != [] && Monotone(xs)
    ensures Outcome(xs).verdict == Pass <==>
              || LastReset(xs) == |xs| - 1
              || (&& !TooFast(xs)
                  && var p := Last(xs).what;
                  && !(p.flow.dstPort == 53 && p.size > 512)
                  && !((p.flow.dstPort == 123 || p.flow.srcPort == 123) && p.size > 1024))
  {
    hide Floods, W32, Step, TooFast;
    RateDroppedExactlyWhen(xs);
    if |xs| == 1 {
      FirstStep(xs);
    } else {
      var most := Most(xs);
      hide LastKept, Bytes;
      CountersAreExact(most);
      StepCounts(After(most).value, Last(xs), |most| - LastReset(most), Bytes(most, LastReset(most)));
    }
  }
}
