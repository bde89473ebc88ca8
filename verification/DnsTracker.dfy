/** The per-source DNS tracker, check_dns_amplification, over every sequence of packets from or to port 53. */
module DnsTracker {
  import opened Machine
  import opened Histories
  import opened Packets

  const MAX_RESPONSE: u32 := 512

  datatype DnsInfo = DnsInfo(lastUpdate: u64, packetCount: u32, totalSize: u32)

  /** A UDP packet from or to port 53: its 5-tuple, its total length, the configured rate, and whether
      its flow counted as established at that time. */
  datatype DnsProbe = DnsProbe(flow: FlowKey, size: u16, rate: u32, established: bool)

  type DnsSeen = Seen<u32, DnsProbe>

  datatype DnsResult = DnsResult(info: DnsInfo, verdict: Verdict)

  /** Established flows get five times the rate, as a u32 product. */
  function Threshold(p: DnsProbe): (r: u32)
    ensures !p.established ==> r == p.rate
    ensures p.established && 5 * p.rate < TWO32 ==> r == 5 * p.rate
  {
    if p.established then W32(p.rate * 5) else p.rate
  }

  /** A response (source port 53) above 512 bytes. */
  predicate Oversized(p: DnsProbe) {
    p.flow.srcPort == DNS_PORT && p.size > MAX_RESPONSE
  }

  function Step(d: Option<DnsInfo>, x: DnsSeen): (r: DnsResult)
    ensures r.verdict != Tx
  {
    match d
    case None => DnsResult(DnsInfo(x.time, 1, x.what.size), Pass)
    case Some(i) =>
      if Elapsed(x.time, i.lastUpdate) >= SECOND then DnsResult(DnsInfo(x.time, 1, x.what.size), Pass)
      else
        var n := Add32(i.packetCount, 1);
        DnsResult(DnsInfo(i.lastUpdate, n, Add32(i.totalSize, x.what.size)),
                  if n > Threshold(x.what) || Oversized(x.what) then Drop else Pass)
  }

  function After(xs: seq<DnsSeen>): Option<DnsInfo> {
    if xs == [] then None else Some(Step(After(Most(xs)), Last(xs)).info)
  }

  lemma {:induction false} AfterSnoc(xs: seq<DnsSeen>, x: DnsSeen)
    ensures After(xs + [x]) == Some(Step(After(xs), x).info)
  {
    assert Most(xs + [x]) == xs;
  }

  predicate Passes(xs: seq<DnsSeen>) {
    xs != [] && Step(After(Most(xs)), Last(xs)).verdict == Pass
  }

  /** How many of the packets from index `lo` on are let through. */
  function Passed(xs: seq<DnsSeen>, lo: nat): nat {
    CountFrom(xs, lo, Passes)
  }

  function Bytes(xs: seq<DnsSeen>, lo: nat): nat {
    if |xs| <= lo then 0 else Bytes(Most(xs), lo) + Last(xs).what.size
  }

  /** One step on counters that stand for a number of packets and bytes. */
  lemma {:induction false} StepCounts(i: DnsInfo, x: DnsSeen, packets: nat, bytes: nat)
    requires i.packetCount == W32(packets) && i.totalSize == W32(bytes) && i.lastUpdate <= x.time
    ensures x.time >= i.lastUpdate + SECOND ==> Step(Some(i), x) == DnsResult(DnsInfo(x.time, 1, x.what.size), Pass)
    ensures x.time < i.lastUpdate + SECOND ==>
              Step(Some(i), x).info == DnsInfo(i.lastUpdate, W32(packets + 1), W32(bytes + x.what.size))
    ensures x.time < i.lastUpdate + SECOND ==>
              (Step(Some(i), x).verdict == Pass <==> W32(packets + 1) <= Threshold(x.what) && !Oversized(x.what))
  {
    hide Threshold, Oversized;
    Unwrapped32(1);
    Unwrapped32(x.what.size);
    WrapAdd32(packets, 1);
    WrapAdd32(bytes, x.what.size);
  }

  lemma {:induction false} FirstStep(xs: seq<DnsSeen>)
    requires |xs| == 1
    ensures After(xs) == Some(DnsInfo(xs[0].time, 1, xs[0].what.size)) && Passes(xs) && Bytes(xs, 0) == xs[0].what.size
  {
    assert Most(xs) == [];
  }

  /** The counters are the number of packets and their bytes since the current window opened. */
  lemma {:induction false} CountersAreExact(xs: seq<DnsSeen>)
    requires xs != [] && Monotone(xs)
    ensures var w := WindowStart(xs);
            After(xs) == Some(DnsInfo(xs[w].time, W32(|xs| - w), W32(Bytes(xs, w))))
  {
    hide W32, Step, Threshold, Oversized;
    if |xs| > 1 {
      var v := WindowStart(Most(xs));
      CountersAreExact(Most(xs));
      StepCounts(After(Most(xs)).value, Last(xs), |Most(xs)| - v, Bytes(Most(xs), v));
      assert Bytes(Most(xs), |xs| - 1) == 0;
    } else {
      FirstStep(xs);
    }
    Unwrapped32(1);
    Unwrapped32(Last(xs).what.size);
  }

  /** Exactly which packets pass: the first of a window, whatever it is, and the later ones whose number in the
      window, counted modulo 2^32, is within the rate, or five times the rate on an established flow, and that are
      not responses of more than 512 bytes. */
  lemma {:induction false} PassesExactlyWhen(xs: seq<DnsSeen>)
    requires xs != [] && Monotone(xs)
    ensures var w := WindowStart(xs);
            var p := Last(xs).what;
            Passes(xs) <==>
              || w == |xs| - 1
              || (&& W32(|xs| - w) <= (if p.established then W32(p.rate * 5) else p.rate)
                  && !(p.flow.srcPort == 53 && p.size > 512))
  {
    hide W32, Step, Bytes;
    if |xs| == 1 {
      FirstStep(xs);
    } else {
      var v := WindowStart(Most(xs));
      CountersAreExact(Most(xs));
      StepCounts(After(Most(xs)).value, Last(xs), |Most(xs)| - v, Bytes(Most(xs), v));
    }
  }

  /** Before the counter wraps, it is the plain number of packets of the window. */
  lemma {:induction false} PassesUnwrapped(xs: seq<DnsSeen>)
    requires xs != [] && Monotone(xs) && |xs| - WindowStart(xs) < TWO32
    ensures var w := WindowStart(xs);
            Passes(xs) <==> w == |xs| - 1 || (|xs| - w <= Threshold(Last(xs).what) && !Oversized(Last(xs).what))
  {
    hide Passes, WindowStart, W32;
    PassesExactlyWhen(xs);
    Unwrapped32(|xs| - WindowStart(xs));
  }

  /** No window met so far holds 2^32 packets or more. */
  predicate WindowsFit(xs: seq<DnsSeen>) {
    xs == [] || (WindowsFit(Most(xs)) && |xs| - WindowStart(xs) < TWO32)
  }

  predicate ThresholdsAtMost(xs: seq<DnsSeen>, lo: nat, k: nat) {
    forall i :: lo <= i < |xs| ==> Threshold(xs[i].what) <= k
  }

  /** From any index of a window to a later packet of the same window, at most max(1, k) packets pass. */
  lemma {:induction false} PassedInWindow(xs: seq<DnsSeen>, lo: nat, k: nat)
    requires lo < |xs| && WindowStart(xs) <= lo && Monotone(xs) && WindowsFit(xs) && ThresholdsAtMost(xs, lo, k)
    ensures Passed(xs, lo) <= |xs| - WindowStart(xs) && Passed(xs, lo) <= Max(1, k)
  {
    PassesUnwrapped(xs);
    if lo == |xs| - 1 {
      assert Passed(Most(xs), lo) == 0;
    } else {
      PassedInWindow(Most(xs), lo, k);
    }
  }

  lemma {:induction false} PrefixesFit(xs: seq<DnsSeen>, n: nat)
    requires n <= |xs| && WindowsFit(xs)
    ensures WindowsFit(xs[..n])
  {
    if n == |xs| {
      assert xs[..n] == xs;
    } else {
      PrefixesFit(Most(xs), n);
      assert Most(xs)[..n] == xs[..n];
    }
  }

  /** In any span of one second at most 2 * max(1, k) DNS packets of a source get through, when no threshold
      in force exceeds k. `xs` ends with the last packet of the span, index `lo` is its first. */
  lemma {:induction false} PassedInAnySecond(xs: seq<DnsSeen>, lo: nat, k: nat)
    requires lo < |xs| && Monotone(xs) && WindowsFit(xs) && ThresholdsAtMost(xs, lo, k)
    requires Last(xs).time - xs[lo].time <= SECOND
    ensures Passed(xs, lo) <= 2 * Max(1, k)
  {
    var w := WindowStart(xs);
    if w <= lo {
      PassedInWindow(xs, lo, k);
    } else {
      TwoWindows(xs, lo);
      CountSplit(xs, lo, w, Passes);
      PassedInWindow(xs, w, k);
      PrefixesFit(xs, w);
      PassedInWindow(xs[..w], lo, k);
    }
  }

  /** The bound in terms of the configured rate: five times it in general, the rate itself
      where no flow of the source counts as established. */
  lemma {:induction false} PassedAtFixedRate(xs: seq<DnsSeen>, lo: nat, rate: u32)
    requires lo < |xs| && Monotone(xs) && WindowsFit(xs) && Last(xs).time - xs[lo].time <= SECOND
    requires forall i :: lo <= i < |xs| ==> xs[i].what.rate == rate
    ensures 5 * rate < TWO32 ==> Passed(xs, lo) <= 2 * Max(1, 5 * rate)
    ensures (forall i :: lo <= i < |xs| ==> !xs[i].what.established) ==> Passed(xs, lo) <= 2 * Max(1, rate)
  {
    hide W32;
    if 5 * rate < TWO32 {
      Unwrapped32(rate * 5);
      PassedInAnySecond(xs, lo, 5 * rate);
    }
    if forall i :: lo <= i < |xs| ==> !xs[i].what.established {
      PassedInAnySecond(xs, lo, rate);
    }
  }
}
