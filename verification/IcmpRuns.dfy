/** The ICMP rate bound for whole runs of the program, frame by frame. */
module IcmpRuns {
  import opened Machine
  import opened Histories
  import opened Packets
  import opened XdpProgram
  import opened Passages
  import Chain
  import DnsTracker
  import Flows
  import RuleMatch
  import Runs
  import SynTracker
  import TokenBucket
  import UdpTracker

  /** An ICMP packet of a source that is not broadcast; broadcast ones skip the bucket. */
  predicate IsPing(f: Frame, source: u32) {
    f.Ipv4? && f.ip.saddr == source && f.segment.IcmpSegment? && f.ip.daddr != BROADCAST
  }

  function PingsFrom(source: u32): Frame -> bool {
    f => IsPing(f, source)
  }

  function IcmpOf(source: u32): seq<Event> -> seq<TokenBucket.IcmpSeen> {
    es => Of(Run(es).past.icmp, source)
  }

  function RateAtMost(rate: u32): u32 -> bool {
    r => r <= rate
  }

  function ClockOfBucket(): Clock -> u64 {
    (c: Clock) => c.early
  }

  lemma {:induction false} EarlyFilterAdds(env: Env, w: World, ip: IpHeader, s: Segment, now: u64,
                                           source: u32, rate: u32)
    requires Lookup(w.maps.buckets, source) == TokenBucket.After(Of(w.past.icmp, source))
    requires GetConfig(env).icmpFloodRate <= rate
    ensures var o := EarlyFilter(env, w, ip, Protocol(s), now);
            var counts := IsPing(Ipv4(0, ip, s), source) && o.verdict == Pass;
            Adds(Of(w.past.icmp, source), Of(o.world.past.icmp, source), now, RateAtMost(rate), counts,
                 TokenBucket.Admits)
  {
    hide TokenBucket.Step, TokenBucket.After, Adds, Of, GetConfig;
    var o := EarlyFilter(env, w, ip, Protocol(s), now);
    var before, counts := Of(w.past.icmp, source), IsPing(Ipv4(0, ip, s), source) && o.verdict == Pass;
    if ip.saddr != 0 && ip.daddr != 0 && ip.daddr != BROADCAST && ip.ttl != 0 && Protocol(s) == ICMP {
      var x := Last(o.world.past.icmp);
      assert Most(before + [x]) == before && Last(before + [x]) == x;
      AddsInput(w.past.icmp, x, source, RateAtMost(rate), counts, TokenBucket.Admits);
    } else {
      AddsNothing(before, now, RateAtMost(rate), TokenBucket.Admits);
    }
  }

  lemma {:induction false} OthersKeepIcmp(env: Env, w: World, ip: IpHeader, s: Segment, c: Clock)
    ensures var v := HandleFragment(env, w, ip, c.frag).world;
            v.past.icmp == w.past.icmp && v.maps.buckets == w.maps.buckets
    ensures CheckTransport(env, w, ip, s, c).world.past.icmp == w.past.icmp
  {
    Chain.FilterTouches(env, w, ip, Protocol(s), c);
    hide HandleFragment, EarlyFilter, SynTracker.Step, DnsTracker.Step, UdpTracker.Step, IsEstablished, Bit;
  }

  /** The ICMP history of a source through one frame. */
  lemma {:induction false} FrameAdds(env: Env, w: World, frame: Frame, c: Clock, source: u32, rate: u32)
    requires Lookup(w.maps.buckets, source) == TokenBucket.After(Of(w.past.icmp, source))
    requires GetConfig(env).icmpFloodRate <= rate
    ensures var o := Process(env, w, frame, c);
            Adds(Of(w.past.icmp, source), Of(o.world.past.icmp, source), c.early, RateAtMost(rate),
                 IsPing(frame, source) && o.verdict == Pass, TokenBucket.Admits)
  {
    hide HandleFragment, CheckGeoip, EarlyFilter, CheckTransport, TokenBucket.After, Flows.Step, PacketOf, FlowOf,
         RuleMatch.ApplyRule, Adds, RateAtMost, GetConfig, TokenBucket.Admits, Of;
    var o := Process(env, w, frame, c);
    var before, counts := Of(w.past.icmp, source), IsPing(frame, source) && o.verdict == Pass;
    if counts || o.world.past.icmp != w.past.icmp {
      var ip, s := frame.ip, frame.segment;
      var w1 := HandleFragment(env, CountFrame(w, frame.wireLength), ip, c.frag).world;
      var d := EarlyFilter(env, w1, ip, Protocol(s), c.early);
      OthersKeepIcmp(env, CountFrame(w, frame.wireLength), ip, s, c);
      OthersKeepIcmp(env, d.world, ip, s, c);
      EarlyFilterAdds(env, w1, ip, s, c.early, source, rate);
      AddsLater(before, Of(d.world.past.icmp, source), c.early, RateAtMost(rate),
                IsPing(frame, source) && d.verdict == Pass, counts, TokenBucket.Admits);
    } else {
      AddsNothing(before, c.early, RateAtMost(rate), TokenBucket.Admits);
    }
  }

  ghost predicate RatesAtMost(es: seq<Event>, lo: nat, rate: u32) {
    forall i :: lo <= i < |es| ==> GetConfig(es[i].env).icmpFloodRate <= rate
  }

  lemma {:induction false} EventAddsIcmp(es: seq<Event>, source: u32, rate: u32)
    requires ClocksOrdered(es) && es != [] && GetConfig(Last(es).env).icmpFloodRate <= rate
    ensures EventAdds(es, PingsFrom(source), IcmpOf(source), ClockOfBucket(), RateAtMost(rate), TokenBucket.Admits)
  {
    hide Process, Run, Runs.CountersKept, Runs.RelaxedIsBacked, Adds, RateAtMost, TokenBucket.Admits, LastVerdict,
         GetConfig, IsPing;
    Runs.PrefixOrdered(es, |es| - 1);
    Runs.RunKeeps(Most(es));
    FrameAdds(Last(es).env, Run(Most(es)), Last(es).frame, Last(es).clock, source, rate);
    Runs.RunSnoc(es);
  }

  /** The ICMP packets of a source that the program passes are among those its bucket admits. */
  lemma {:induction false} PingsPassedAreAdmitted(es: seq<Event>, lo: nat, source: u32, rate: u32)
    requires ClocksOrdered(es) && lo < |es| && RatesAtMost(es, lo, rate)
    ensures var n, xs := |IcmpOf(source)(es[..lo])|, IcmpOf(source)(es);
            && FramesPassed(es, lo, PingsFrom(source)) <= TokenBucket.Admitted(xs, n)
            && Covered(xs, n, es[lo].clock.early, Last(es).clock.early, RateAtMost(rate))
  {
    hide IcmpOf, PingsFrom, EventAdds, TokenBucket.Admits, FramesPassed, Covered, GetConfig;
    forall m | lo < m <= |es|
      ensures EventAdds(es[..m], PingsFrom(source), IcmpOf(source), ClockOfBucket(), RateAtMost(rate),
                        TokenBucket.Admits)
    {
      Runs.PrefixOrdered(es, m);
      EventAddsIcmp(es[..m], source, rate);
    }
    PassedAreLetThrough(es, lo, PingsFrom(source), IcmpOf(source), ClockOfBucket(), RateAtMost(rate),
                        TokenBucket.Admits);
  }

  /** In any `d` nanoseconds of any run during which the ICMP rate stays at or below R, whatever it was before, at most
      1 + R + floor(R * d / 10^9) ICMP packets of a source that are not broadcast get past the whole program. */
  lemma {:induction false} PingsInInterval(es: seq<Event>, lo: nat, source: u32, rate: u32, d: nat)
    requires ClocksOrdered(es) && lo < |es| && RatesAtMost(es, lo, rate)
    requires Last(es).clock.early - es[lo].clock.early <= d
    ensures FramesPassed(es, lo, PingsFrom(source)) <= 1 + rate + PerSecond(rate * d)
  {
    hide Run, FramesPassed, Runs.CountersKept, Runs.RelaxedIsBacked, PerSecond, TokenBucket.Refill, RatesAtMost,
         TokenBucket.Admits;
    var n, xs := |IcmpOf(source)(es[..lo])|, IcmpOf(source)(es);
    PingsPassedAreAdmitted(es, lo, source, rate);
    Runs.RunKeeps(es);
    OfMonotone(Run(es).past.icmp, source);
    TokenBucket.Scale(rate, 0, d);
    if n < |xs| {
      TokenBucket.AdmittedInInterval(xs, n, rate, d);
    }
  }
}
