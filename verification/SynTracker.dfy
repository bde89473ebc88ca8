/** The per-source SYN tracker, check_syn_flood, over every sequence of SYN and SYN-ACK packets. */
module SynTracker {
  import opened Machine
  import opened Histories
  import opened Packets

  datatype SynInfo = SynInfo(lastUpdate: u64, synCount: u32, synAckCount: u32)

  /** A TCP packet with the SYN flag: whether ACK is set too, and the configured rate at that time. */
  datatype SynProbe = SynProbe(ack: bool, rate: u32)

  type SynSeen = Seen<u32, SynProbe>

  datatype SynResult = SynResult(info: SynInfo, verdict: Verdict)

  function Step(s: Option<SynInfo>, x: SynSeen): (r: SynResult)
    ensures r.verdict != Tx
    ensures x.what.ack ==> r.verdict == Pass
  {
    var opening := if x.what.ack then SynInfo(x.time, 0, 1) else SynInfo(x.time, 1, 0);
    match s
    case None => SynResult(opening, Pass)
    case Some(i) =>
      if Elapsed(x.time, i.lastUpdate) >= SECOND then SynResult(opening, Pass)
      else if x.what.ack then SynResult(i.(synAckCount := Add32(i.synAckCount, 1)), Pass)
      else
        var n := Add32(i.synCount, 1);
        var flood := n > x.what.rate && n > W32(i.synAckCount * 10);
        SynResult(i.(synCount := n), if flood then Drop else Pass)
  }

  function After(xs: seq<SynSeen>): Option<SynInfo> {
    if xs == [] then None else Some(Step(After(Most(xs)), Last(xs)).info)
  }

  lemma {:induction false} AfterSnoc(xs: seq<SynSeen>, x: SynSeen)
    ensures After(xs + [x]) == Some(Step(After(xs), x).info)
  {
    assert Most(xs + [x]) == xs;
  }

  /** Whether the last of the packets is dropped. */
  predicate Drops(xs: seq<SynSeen>) {
    xs != [] && Step(After(Most(xs)), Last(xs)).verdict == Drop
  }

  /** Whether the last of the packets is a SYN without ACK that is let through. */
  predicate PassesSyn(xs: seq<SynSeen>) {
    xs != [] && !Last(xs).what.ack && !Drops(xs)
  }

  /** The packets from index `lo` on: SYNs without ACK, SYN-ACKs, and SYNs without ACK let through. */
  function Syns(xs: seq<SynSeen>, lo: nat): nat {
    if |xs| <= lo then 0 else Syns(Most(xs), lo) + if Last(xs).what.ack then 0 else 1
  }

  function SynAcks(xs: seq<SynSeen>, lo: nat): nat {
    if |xs| <= lo then 0 else SynAcks(Most(xs), lo) + if Last(xs).what.ack then 1 else 0
  }

  function SynsPassed(xs: seq<SynSeen>, lo: nat): nat {
    CountFrom(xs, lo, PassesSyn)
  }

  /** The two counters are the numbers of SYNs and SYN-ACKs since the current window opened. */
  lemma {:induction false} CountersAreExact(xs: seq<SynSeen>)
    requires xs != [] && Monotone(xs)
    ensures var w := WindowStart(xs);
            After(xs) == Some(SynInfo(xs[w].time, W32(Syns(xs, w)), W32(SynAcks(xs, w))))
  {
    var w := WindowStart(xs);
    hide W32, Add32;
    Unwrapped32(0);
    Unwrapped32(1);
    if |xs| > 1 {
      var v := WindowStart(Most(xs));
      CountersAreExact(Most(xs));
      WrapAdd32(Syns(Most(xs), v), 1);
      WrapAdd32(SynAcks(Most(xs), v), 1);
    } else {
      assert Most(xs) == [];
    }
    if w == |xs| - 1 {
      assert Syns(Most(xs), w) == 0 && SynAcks(Most(xs), w) == 0;
    }
  }

  /** The current window counts within what the u32 counters and the u32 product hold. */
  predicate WindowFits(xs: seq<SynSeen>)
    requires xs != []
  {
    Syns(xs, WindowStart(xs)) < TWO32 && 10 * SynAcks(xs, WindowStart(xs)) < TWO32
  }

  lemma {:induction false} CountsGrow(xs: seq<SynSeen>, lo: nat)
    ensures SynsPassed(xs, lo) <= Syns(xs, lo)
    ensures xs != [] ==> Syns(Most(xs), lo) <= Syns(xs, lo) && SynAcks(Most(xs), lo) <= SynAcks(xs, lo)
  {
    if xs == [] {
    } else {
      CountsGrow(Most(xs), lo);
    }
  }

  lemma {:induction false} Twice(a: int, b: int)
    requires W32(a) == W32(b)
    ensures W32(2 * a) == W32(2 * b)
  {
    hide W32, Add32;
    WrapAdd32(a, a);
    WrapAdd32(b, b);
  }

  lemma {:induction false} TimesTen(a: int)
    ensures W32(W32(a) * 10) == W32(10 * a)
  {
    var r: int := W32(a);
    hide W32, Add32;
    Unwrapped32(r);
    Twice(a, r);
    Twice(2 * a, 2 * r);
    Twice(4 * a, 4 * r);
    WrapAdd32(8 * a, 2 * a);
    WrapAdd32(8 * r, 2 * r);
  }

  /** The test of a later SYN. */
  lemma {:induction false} FloodTest(i: SynInfo, x: SynSeen, syns: nat, acks: nat)
    requires i.synCount == W32(syns) && i.synAckCount == W32(acks)
    requires !x.what.ack && i.lastUpdate <= x.time < i.lastUpdate + SECOND
    ensures Step(Some(i), x).verdict == Drop <==> W32(syns + 1) > x.what.rate && W32(syns + 1) > W32(10 * acks)
  {
    hide W32;
    Unwrapped32(1);
    WrapAdd32(syns, 1);
    TimesTen(acks);
  }

  /** Exactly which packets are dropped: SYNs without ACK that do not open a window and bring the SYNs of their window
      above both the configured rate and ten times the SYN-ACKs of the window, all modulo 2^32. */
  lemma {:induction false} DroppedExactlyWhen(xs: seq<SynSeen>)
    requires xs != [] && Monotone(xs)
    ensures var w := WindowStart(xs);
            Drops(xs) <==> && !Last(xs).what.ack && w < |xs| - 1
                           && W32(Syns(xs, w)) > Last(xs).what.rate && W32(Syns(xs, w)) > W32(10 * SynAcks(xs, w))
  {
    hide W32;
    if |xs| == 1 || Last(xs).what.ack {
    } else {
      var v := WindowStart(Most(xs));
      CountersAreExact(Most(xs));
      if WindowStart(xs) == v {
        FloodTest(After(Most(xs)).value, Last(xs), Syns(Most(xs), v), SynAcks(Most(xs), v));
      }
    }
  }

  /** Before the counters wrap, they are the plain numbers of the window. */
  lemma {:induction false} DroppedUnwrapped(xs: seq<SynSeen>)
    requires xs != [] && Monotone(xs) && WindowFits(xs)
    ensures var w := WindowStart(xs);
            Drops(xs) <==> && !Last(xs).what.ack && w < |xs| - 1
                           && Syns(xs, w) > Last(xs).what.rate && Syns(xs, w) > 10 * SynAcks(xs, w)
  {
    hide W32, Drops, WindowStart, Syns, SynAcks;
    DroppedExactlyWhen(xs);
    Unwrapped32(Syns(xs, WindowStart(xs)));
    Unwrapped32(10 * SynAcks(xs, WindowStart(xs)));
  }

  lemma {:induction false} SynsFrom(xs: seq<SynSeen>, lo: nat, mid: nat)
    requires lo <= mid
    ensures SynsPassed(xs, mid) <= Syns(xs, lo)
  {
    if |xs| <= lo {
    } else {
      SynsFrom(Most(xs), lo, mid);
    }
  }

  /** From any index of a window to a later packet of the same window, at most max(1, rate, 10 * SYN-ACKs of the
      window) SYNs are let through. */
  lemma {:induction false} PassedInWindow(xs: seq<SynSeen>, lo: nat, rate: u32)
    requires lo < |xs| && WindowStart(xs) <= lo && Monotone(xs) && WindowFits(xs)
    requires forall i :: lo <= i < |xs| ==> xs[i].what.rate <= rate
    ensures SynsPassed(xs, lo) <= Max(1, Max(rate, 10 * SynAcks(xs, WindowStart(xs))))
  {
    var w := WindowStart(xs);
    CountsGrow(xs, w);
    SynsFrom(xs, w, lo);
    if lo == |xs| - 1 {
      assert SynsPassed(Most(xs), lo) == 0;
    } else {
      PassedInWindow(Most(xs), lo, rate);
      DroppedUnwrapped(xs);
    }
  }

  /** Every window met so far counts within what the u32 counters hold, and has at most `acks` SYN-ACKs. */
  predicate WindowsFit(xs: seq<SynSeen>, acks: nat) {
    xs == [] || (WindowsFit(Most(xs), acks) && WindowFits(xs) && SynAcks(xs, WindowStart(xs)) <= acks)
  }

  lemma {:induction false} PrefixesFit(xs: seq<SynSeen>, acks: nat, n: nat)
    requires n <= |xs| && WindowsFit(xs, acks)
    ensures WindowsFit(xs[..n], acks)
  {
    if n == |xs| {
      assert xs[..n] == xs;
    } else {
      PrefixesFit(Most(xs), acks, n);
      assert Most(xs)[..n] == xs[..n];
    }
  }

  /** In any span of one second at most 2 * max(1, rate, 10 * acks) SYNs of a source get through, when no window has
      more than `acks` SYN-ACKs. `xs` ends with the last packet of the span, index `lo` is its first. */
  lemma {:induction false} PassedInAnySecond(xs: seq<SynSeen>, lo: nat, rate: u32, acks: nat)
    requires lo < |xs| && Monotone(xs) && WindowsFit(xs, acks)
    requires Last(xs).time - xs[lo].time <= SECOND && forall i :: lo <= i < |xs| ==> xs[i].what.rate <= rate
    ensures SynsPassed(xs, lo) <= 2 * Max(1, Max(rate, 10 * acks))
  {
    hide WindowFits, WindowStart, Syns, SynAcks, PassesSyn;
    var w := WindowStart(xs);
    if w <= lo {
      PassedInWindow(xs, lo, rate);
    } else {
      TwoWindows(xs, lo);
      CountSplit(xs, lo, w, PassesSyn);
      PassedInWindow(xs, w, rate);
      PrefixesFit(xs, acks, w);
      PassedInWindow(xs[..w], lo, rate);
    }
  }
}
