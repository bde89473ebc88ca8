/** The DNS bound for whole runs of the program, frame by frame. */
module DnsRuns {
  import opened Machine
  import opened Histories
  import opened Packets
  import opened XdpProgram
  import opened Passages
  import AttackLog
  import Chain
  import DnsTracker
  import Flows
  import RuleMatch
  import Runs
  import SynTracker
  import UdpTracker

  /** A DNS packet of a source: UDP from or to port 53 with a complete header. */
  predicate IsDns(f: Frame, source: u32) {
    && f.Ipv4? && f.ip.saddr == source && f.segment.UdpSegment? && f.segment.udp.Some?
    && (f.segment.udp.value.source == DNS_PORT || f.segment.udp.value.dest == DNS_PORT)
  }

  function DnsFrom(source: u32): Frame -> bool {
    f => IsDns(f, source)
  }

  function DnsOf(source: u32): seq<Event> -> seq<DnsTracker.DnsSeen> {
    es => Of(Run(es).past.dns, source)
  }

  function RateAtMost(rate: u32): DnsTracker.DnsProbe -> bool {
    (p: DnsTracker.DnsProbe) => p.rate <= rate
  }

  function ClockOfDns(): Clock -> u64 {
    (c: Clock) => c.transport
  }

  lemma {:induction false} CheckDnsAdds(env: Env, w: World, ip: IpHeader, h: UdpHeader, now: u64,
                                        source: u32, rate: u32)
    requires Lookup(w.maps.dns, source) == DnsTracker.After(Of(w.past.dns, source))
    requires GetConfig(env).dnsAmpRate <= rate
    ensures var o := CheckDns(env, w, ip, h, now);
            var counts := IsDns(Ipv4(0, ip, UdpSegment(Some(h))), source) && o.verdict == Pass;
            Adds(Of(w.past.dns, source), Of(o.world.past.dns, source), now, RateAtMost(rate), counts, DnsTracker.Passes)
  {
    hide DnsTracker.Step, DnsTracker.After, IsEstablished, Adds, Of, GetConfig;
    var o := CheckDns(env, w, ip, h, now);
    var before, counts := Of(w.past.dns, source), IsDns(Ipv4(0, ip, UdpSegment(Some(h))), source) && o.verdict == Pass;
    if h.source == DNS_PORT || h.dest == DNS_PORT {
      var x := Last(o.world.past.dns);
      assert Most(before + [x]) == before && Last(before + [x]) == x;
      AddsInput(w.past.dns, x, source, RateAtMost(rate), counts, DnsTracker.Passes);
    } else {
      AddsNothing(before, now, RateAtMost(rate), DnsTracker.Passes);
    }
  }

  lemma {:induction false} OthersKeepDns(env: Env, w: World, ip: IpHeader, s: Segment, c: Clock)
    ensures var v := HandleFragment(env, w, ip, c.frag).world;
            v.past.dns == w.past.dns && v.maps.dns == w.maps.dns
    ensures var v := EarlyFilter(env, w, ip, Protocol(s), c.early).world;
            v.past.dns == w.past.dns && v.maps.dns == w.maps.dns
    ensures !(s.UdpSegment? && s.udp.Some?) ==> CheckTransport(env, w, ip, s, c).world.past.dns == w.past.dns
  {
    Chain.FilterTouches(env, w, ip, Protocol(s), c);
    hide HandleFragment, EarlyFilter, SynTracker.Step, Bit;
  }

  lemma {:induction false} UdpKeepsDns(env: Env, w: World, ip: IpHeader, h: UdpHeader, c: Clock)
    ensures CheckUdp(env, w, ip, h, c.udp, c.log).world.past.dns == w.past.dns
  {
    hide UdpTracker.Step, IsEstablished, AttackLog.Append;
  }

  /** The DNS history of a source through one frame. */
  lemma {:induction false} FrameAdds(env: Env, w: World, frame: Frame, c: Clock, source: u32, rate: u32)
    requires Lookup(w.maps.dns, source) == DnsTracker.After(Of(w.past.dns, source))
    requires GetConfig(env).dnsAmpRate <= rate
    ensures var o := Process(env, w, frame, c);
            Adds(Of(w.past.dns, source), Of(o.world.past.dns, source), c.transport, RateAtMost(rate),
                 IsDns(frame, source) && o.verdict == Pass, DnsTracker.Passes)
  {
    hide HandleFragment, CheckGeoip, EarlyFilter, CheckDns, CheckUdp, CheckSynFlood, DnsTracker.After, Flows.Step,
         PacketOf, FlowOf, RuleMatch.ApplyRule, Adds, RateAtMost, GetConfig, DnsTracker.Passes, Of;
    var o := Process(env, w, frame, c);
    var before, counts := Of(w.past.dns, source), IsDns(frame, source) && o.verdict == Pass;
    if counts || o.world.past.dns != w.past.dns {
      var ip, s := frame.ip, frame.segment;
      var w1 := HandleFragment(env, CountFrame(w, frame.wireLength), ip, c.frag).world;
      var w2 := EarlyFilter(env, w1, ip, Protocol(s), c.early).world;
      OthersKeepDns(env, CountFrame(w, frame.wireLength), ip, s, c);
      OthersKeepDns(env, w1, ip, s, c);
      OthersKeepDns(env, w2, ip, s, c);
      var h := s.udp.value;
      var d := CheckDns(env, w2, ip, h, c.transport);
      CheckDnsAdds(env, w2, ip, h, c.transport, source, rate);
      UdpKeepsDns(env, d.world, ip, h, c);
      AddsLater(before, Of(d.world.past.dns, source), c.transport, RateAtMost(rate),
                IsDns(frame, source) && d.verdict == Pass, counts, DnsTracker.Passes);
    } else {
      AddsNothing(before, c.transport, RateAtMost(rate), DnsTracker.Passes);
    }
  }

  ghost predicate RatesAtMost(es: seq<Event>, lo: nat, rate: u32) {
    forall i :: lo <= i < |es| ==> GetConfig(es[i].env).dnsAmpRate <= rate
  }

  lemma {:induction false} EventAddsDns(es: seq<Event>, source: u32, rate: u32)
    requires ClocksOrdered(es) && es != [] && GetConfig(Last(es).env).dnsAmpRate <= rate
    ensures EventAdds(es, DnsFrom(source), DnsOf(source), ClockOfDns(), RateAtMost(rate), DnsTracker.Passes)
  {
    hide Process, Run, Runs.CountersKept, Runs.RelaxedIsBacked, Adds, RateAtMost, DnsTracker.Passes, LastVerdict,
         GetConfig, IsDns;
    Runs.PrefixOrdered(es, |es| - 1);
    Runs.RunKeeps(Most(es));
    FrameAdds(Last(es).env, Run(Most(es)), Last(es).frame, Last(es).clock, source, rate);
    Runs.RunSnoc(es);
  }

  /** The DNS packets of a source that the program passes are among those its DNS check passes. */
  lemma {:induction false} DnsPassedIsChecked(es: seq<Event>, lo: nat, source: u32, rate: u32)
    requires ClocksOrdered(es) && lo < |es| && RatesAtMost(es, lo, rate)
    ensures var n, xs := |DnsOf(source)(es[..lo])|, DnsOf(source)(es);
            && FramesPassed(es, lo, DnsFrom(source)) <= DnsTracker.Passed(xs, n)
            && Covered(xs, n, es[lo].clock.transport, Last(es).clock.transport, RateAtMost(rate))
  {
    hide DnsOf, DnsFrom, EventAdds, DnsTracker.Passes, FramesPassed, Covered, GetConfig;
    forall m | lo < m <= |es|
      ensures EventAdds(es[..m], DnsFrom(source), DnsOf(source), ClockOfDns(), RateAtMost(rate), DnsTracker.Passes)
    {
      Runs.PrefixOrdered(es, m);
      EventAddsDns(es[..m], source, rate);
    }
    PassedAreLetThrough(es, lo, DnsFrom(source), DnsOf(source), ClockOfDns(), RateAtMost(rate), DnsTracker.Passes);
  }

  /** In any second of any run, at most 2 * max(1, 5 * rate) DNS packets of a source get past the whole program when the
      configured rate stays at or below `rate`; at most 2 * max(1, rate) if none of its flows counts as established. */
  lemma {:induction false} DnsFramesInAnySecond(es: seq<Event>, lo: nat, source: u32, rate: u32)
    requires ClocksOrdered(es) && lo < |es| && RatesAtMost(es, lo, rate)
    requires Last(es).clock.transport - es[lo].clock.transport <= SECOND
    requires DnsTracker.WindowsFit(DnsOf(source)(es))
    ensures 5 * rate < TWO32 ==> FramesPassed(es, lo, DnsFrom(source)) <= 2 * Max(1, 5 * rate)
    ensures (forall x :: x in DnsOf(source)(es) ==> !x.what.established) ==>
              FramesPassed(es, lo, DnsFrom(source)) <= 2 * Max(1, rate)
  {
    hide Run, DnsTracker.WindowsFit, FramesPassed, Runs.CountersKept, Runs.RelaxedIsBacked, W32, DnsTracker.Passes;
    var n, xs := |DnsOf(source)(es[..lo])|, DnsOf(source)(es);
    DnsPassedIsChecked(es, lo, source, rate);
    Runs.RunKeeps(es);
    OfMonotone(Run(es).past.dns, source);
    if n < |xs| {
      if 5 * rate < TWO32 {
        forall i | n <= i < |xs| ensures DnsTracker.Threshold(xs[i].what) <= 5 * rate {
          Unwrapped32(xs[i].what.rate * 5);
        }
        DnsTracker.PassedInAnySecond(xs, n, 5 * rate);
      }
      if forall x :: x in xs ==> !x.what.established {
        forall i | n <= i < |xs| ensures DnsTracker.Threshold(xs[i].what) <= rate {
          assert xs[i] in xs;
        }
        DnsTracker.PassedInAnySecond(xs, n, rate);
      }
    }
  }
}
