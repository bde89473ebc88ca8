/** The SYN bounds for whole runs of the program, frame by frame. */
module SynRuns {
  import opened Machine
  import opened Histories
  import opened Packets
  import opened XdpProgram
  import opened Passages
  import AttackLog
  import Chain
  import DnsTracker
  import Flows
  import RuleMatch
  import Runs
  import SynTracker
  import UdpTracker

  /** A connection request of a source: TCP with SYN and without ACK, and a complete header. */
  predicate IsSyn(f: Frame, source: u32) {
    && f.Ipv4? && f.ip.saddr == source && f.segment.TcpSegment? && f.segment.tcp.Some?
    && Bit(f.segment.tcp.value.flags, SYN) && !Bit(f.segment.tcp.value.flags, ACK)
  }

  function SynsFrom(source: u32): Frame -> bool {
    f => IsSyn(f, source)
  }

  function SynsOf(source: u32): seq<Event> -> seq<SynTracker.SynSeen> {
    es => Of(Run(es).past.syns, source)
  }

  function RateAtMost(rate: u32): SynTracker.SynProbe -> bool {
    (p: SynTracker.SynProbe) => p.rate <= rate
  }

  function ClockOfSyn(): Clock -> u64 {
    (c: Clock) => c.transport
  }

  lemma {:induction false} CheckSynFloodAdds(env: Env, w: World, ip: IpHeader, h: TcpHeader, now: u64,
                                             source: u32, rate: u32)
    requires Lookup(w.maps.syns, source) == SynTracker.After(Of(w.past.syns, source))
    requires GetConfig(env).synFloodRate <= rate
    ensures var o := CheckSynFlood(env, w, ip, h, now);
            var counts := IsSyn(Ipv4(0, ip, TcpSegment(Some(h))), source) && o.verdict == Pass;
            Adds(Of(w.past.syns, source), Of(o.world.past.syns, source), now, RateAtMost(rate), counts,
                 SynTracker.PassesSyn)
  {
    hide SynTracker.Step, SynTracker.After, Bit, Adds, Of, GetConfig;
    var o := CheckSynFlood(env, w, ip, h, now);
    var before, counts := Of(w.past.syns, source), IsSyn(Ipv4(0, ip, TcpSegment(Some(h))), source) && o.verdict == Pass;
    if Bit(h.flags, SYN) {
      var x := Last(o.world.past.syns);
      assert Most(before + [x]) == before && Last(before + [x]) == x;
      AddsInput(w.past.syns, x, source, RateAtMost(rate), counts, SynTracker.PassesSyn);
    } else {
      AddsNothing(before, now, RateAtMost(rate), SynTracker.PassesSyn);
    }
  }

  lemma {:induction false} OthersKeepSyns(env: Env, w: World, ip: IpHeader, s: Segment, c: Clock)
    ensures var v := HandleFragment(env, w, ip, c.frag).world;
            v.past.syns == w.past.syns && v.maps.syns == w.maps.syns
    ensures var v := EarlyFilter(env, w, ip, Protocol(s), c.early).world;
            v.past.syns == w.past.syns && v.maps.syns == w.maps.syns
    ensures !(s.TcpSegment? && s.tcp.Some?) ==> CheckTransport(env, w, ip, s, c).world.past.syns == w.past.syns
  {
    Chain.FilterTouches(env, w, ip, Protocol(s), c);
    hide HandleFragment, EarlyFilter, DnsTracker.Step, UdpTracker.Step, IsEstablished, AttackLog.Append;
  }

  /** The SYN history of a source through one frame. */
  lemma {:induction false} FrameAdds(env: Env, w: World, frame: Frame, c: Clock, source: u32, rate: u32)
    requires Lookup(w.maps.syns, source) == SynTracker.After(Of(w.past.syns, source))
    requires GetConfig(env).synFloodRate <= rate
    ensures var o := Process(env, w, frame, c);
            Adds(Of(w.past.syns, source), Of(o.world.past.syns, source), c.transport, RateAtMost(rate),
                 IsSyn(frame, source) && o.verdict == Pass, SynTracker.PassesSyn)
  {
    hide HandleFragment, CheckGeoip, EarlyFilter, CheckDns, CheckUdp, CheckSynFlood, SynTracker.After, Flows.Step,
         PacketOf, FlowOf, RuleMatch.ApplyRule, Adds, RateAtMost, GetConfig, SynTracker.PassesSyn, Of, Bit;
    var o := Process(env, w, frame, c);
    var before, counts := Of(w.past.syns, source), IsSyn(frame, source) && o.verdict == Pass;
    if counts || o.world.past.syns != w.past.syns {
      var ip, s := frame.ip, frame.segment;
      var w1 := HandleFragment(env, CountFrame(w, frame.wireLength), ip, c.frag).world;
      var w2 := EarlyFilter(env, w1, ip, Protocol(s), c.early).world;
      OthersKeepSyns(env, CountFrame(w, frame.wireLength), ip, s, c);
      OthersKeepSyns(env, w1, ip, s, c);
      OthersKeepSyns(env, w2, ip, s, c);
      var d := CheckSynFlood(env, w2, ip, s.tcp.value, c.transport);
      CheckSynFloodAdds(env, w2, ip, s.tcp.value, c.transport, source, rate);
      AddsLater(before, Of(d.world.past.syns, source), c.transport, RateAtMost(rate),
                IsSyn(frame, source) && d.verdict == Pass, counts, SynTracker.PassesSyn);
    } else {
      AddsNothing(before, c.transport, RateAtMost(rate), SynTracker.PassesSyn);
    }
  }

  ghost predicate RatesAtMost(es: seq<Event>, lo: nat, rate: u32) {
    forall i :: lo <= i < |es| ==> GetConfig(es[i].env).synFloodRate <= rate
  }

  lemma {:induction false} EventAddsSyn(es: seq<Event>, source: u32, rate: u32)
    requires ClocksOrdered(es) && es != [] && GetConfig(Last(es).env).synFloodRate <= rate
    ensures EventAdds(es, SynsFrom(source), SynsOf(source), ClockOfSyn(), RateAtMost(rate), SynTracker.PassesSyn)
  {
    hide Process, Run, Runs.CountersKept, Runs.RelaxedIsBacked, Adds, RateAtMost, SynTracker.PassesSyn, LastVerdict,
         GetConfig, IsSyn;
    Runs.PrefixOrdered(es, |es| - 1);
    Runs.RunKeeps(Most(es));
    FrameAdds(Last(es).env, Run(Most(es)), Last(es).frame, Last(es).clock, source, rate);
    Runs.RunSnoc(es);
  }

  /** The SYNs of a source that the program passes are among those its SYN check passes. */
  lemma {:induction false} SynsPassedAreChecked(es: seq<Event>, lo: nat, source: u32, rate: u32)
    requires ClocksOrdered(es) && lo < |es| && RatesAtMost(es, lo, rate)
    ensures var n, xs := |SynsOf(source)(es[..lo])|, SynsOf(source)(es);
            && FramesPassed(es, lo, SynsFrom(source)) <= SynTracker.SynsPassed(xs, n)
            && Covered(xs, n, es[lo].clock.transport, Last(es).clock.transport, RateAtMost(rate))
            && Monotone(xs)
  {
    hide SynsFrom, EventAdds, SynTracker.PassesSyn, FramesPassed, Covered, GetConfig, Run, Runs.CountersKept,
         Runs.RelaxedIsBacked;
    forall m | lo < m <= |es|
      ensures EventAdds(es[..m], SynsFrom(source), SynsOf(source), ClockOfSyn(), RateAtMost(rate), SynTracker.PassesSyn)
    {
      Runs.PrefixOrdered(es, m);
      EventAddsSyn(es[..m], source, rate);
    }
    PassedAreLetThrough(es, lo, SynsFrom(source), SynsOf(source), ClockOfSyn(), RateAtMost(rate), SynTracker.PassesSyn);
    Runs.RunKeeps(es);
    OfMonotone(Run(es).past.syns, source);
  }

  /** In any part of a run that meets only one SYN window of a source, at most max(1, rate, 10 * SYN-ACKs of the window)
      of its SYNs get past the whole program, when the configured rate stays at or below `rate` in that part. */
  lemma {:induction false} SynFramesInWindow(es: seq<Event>, lo: nat, source: u32, rate: u32)
    requires ClocksOrdered(es) && lo < |es| && RatesAtMost(es, lo, rate)
    requires SynsOf(source)(es) != [] && SynTracker.WindowFits(SynsOf(source)(es))
    requires WindowStart(SynsOf(source)(es)) <= |SynsOf(source)(es[..lo])|
    ensures var xs := SynsOf(source)(es);
            FramesPassed(es, lo, SynsFrom(source)) <= Max(1, Max(rate, 10 * SynTracker.SynAcks(xs, WindowStart(xs))))
  {
    hide SynsOf, SynsFrom, FramesPassed, SynTracker.PassesSyn, WindowStart, SynTracker.WindowFits, RatesAtMost,
         ClocksOrdered;
    var n, xs := |SynsOf(source)(es[..lo])|, SynsOf(source)(es);
    SynsPassedAreChecked(es, lo, source, rate);
    if n < |xs| {
      SynTracker.PassedInWindow(xs, n, rate);
    }
  }

  /** In any second of any run, at most 2 * max(1, rate, 10 * acks) SYNs of a source get past the whole program, when
      none of its windows has more than `acks` SYN-ACKs. */
  lemma {:induction false} SynFramesInAnySecond(es: seq<Event>, lo: nat, source: u32, rate: u32, acks: nat)
    requires ClocksOrdered(es) && lo < |es| && RatesAtMost(es, lo, rate)
    requires Last(es).clock.transport - es[lo].clock.transport <= SECOND
    requires SynTracker.WindowsFit(SynsOf(source)(es), acks)
    ensures FramesPassed(es, lo, SynsFrom(source)) <= 2 * Max(1, Max(rate, 10 * acks))
  {
    hide SynsOf, SynsFrom, FramesPassed, SynTracker.PassesSyn, SynTracker.WindowsFit, RatesAtMost, ClocksOrdered;
    var n, xs := |SynsOf(source)(es[..lo])|, SynsOf(source)(es);
    SynsPassedAreChecked(es, lo, source, rate);
    if n < |xs| {
      SynTracker.PassedInAnySecond(xs, n, rate, acks);
    }
  }
}
