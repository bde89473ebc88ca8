/** Where every counted frame went. */
module Ledger {
  import opened Machine
  import opened Histories
  import opened Packets
  import opened XdpProgram
  import Chain
  import Flows
  import Runs

  /** The sum of the packet counters of all flow records. */
  ghost function SumPackets(m: map<FlowKey, Flows.Flow>): nat {
    if m == map[] then 0
    else
      var k :| k in m;
      m[k].packets + SumPackets(m - {k})
  }

  lemma {:induction false} SumPick(m: map<FlowKey, Flows.Flow>, k: FlowKey)
    requires k in m
    ensures SumPackets(m) == m[k].packets + SumPackets(m - {k})
    decreases |m|
  {
    var j :| j in m && SumPackets(m) == m[j].packets + SumPackets(m - {j});
    if j != k {
      SumPick(m - {j}, k);
      SumPick(m - {k}, j);
      assert m - {j} - {k} == m - {k} - {j};
    }
  }

  lemma {:induction false} SumUpdate(m: map<FlowKey, Flows.Flow>, k: FlowKey, f: Flows.Flow)
    ensures SumPackets(m[k := f]) == SumPackets(m) + f.packets - if k in m then m[k].packets else 0
  {
    SumPick(m[k := f], k);
    if k in m {
      SumPick(m, k);
      assert m[k := f] - {k} == m - {k};
    } else {
      assert m[k := f] - {k} == m;
    }
  }

  /** The flow records account for the recorded packets: exactly while no flow has 2^32 of them,
      and up to multiples of 2^32 always. */
  ghost predicate Balanced(flows: map<FlowKey, Flows.Flow>, recorded: seq<Flows.Recorded>) {
    && (|recorded| - SumPackets(flows)) % 0x1_0000_0000 == 0
    && ((forall k: FlowKey :: |Of(recorded, k)| < TWO32) ==> SumPackets(flows) == |recorded|)
  }

  /** Recording a packet adds one to the counter of its flow, or wraps it. */
  lemma {:induction false} OneMore(flows: map<FlowKey, Flows.Flow>, recorded: seq<Flows.Recorded>, t: u64,
                                   x: Flows.Recorded)
    requires Keeps(flows, recorded, t, Flows.After)
    ensures var before := if x.key in flows then flows[x.key].packets else 0;
            var after := Flows.Step(Lookup(flows, x.key), x).packets;
            && (after == before + 1 || after == before + 1 - TWO32)
            && (|Of(recorded, x.key)| + 1 < TWO32 ==> after == before + 1)
  {
    var xs := Of(recorded, x.key);
    OfMonotone(recorded, x.key);
    Runs.OfSameKey(recorded, x.key);
    if xs != [] {
      Flows.Totals(xs);
      if |xs| < TWO32 {
        Unwrapped32(|xs|);
      }
    }
    hide W32, W64, W16, Flows.UpdateLengths, Flows.CountFlags;
    assert Lookup(flows, x.key) == Flows.After(xs);
  }

  lemma {:induction false} OffByMultiples(n: nat, sum: nat, next: int)
    requires (n - sum) % 0x1_0000_0000 == 0 && (next == sum + 1 || next == sum + 1 - TWO32)
    ensures (n + 1 - next) % 0x1_0000_0000 == 0
  {
  }

  lemma {:induction false} StaysBalanced(flows: map<FlowKey, Flows.Flow>, recorded: seq<Flows.Recorded>, t: u64,
                                         x: Flows.Recorded)
    requires Keeps(flows, recorded, t, Flows.After) && t <= x.time && Balanced(flows, recorded)
    ensures Balanced(flows[x.key := Flows.Step(Lookup(flows, x.key), x)], recorded + [x])
  {
    hide Flows.Step, SumPackets;
    var flow := Flows.Step(Lookup(flows, x.key), x);
    SumUpdate(flows, x.key, flow);
    OneMore(flows, recorded, t, x);
    OffByMultiples(|recorded|, SumPackets(flows), SumPackets(flows[x.key := flow]));
    if forall k: FlowKey :: |Of(recorded + [x], k)| < TWO32 {
      forall k: FlowKey ensures |Of(recorded, k)| < TWO32 {
        OfSnoc(recorded, x, k);
      }
      OfSnoc(recorded, x, x.key);
    }
  }

  lemma {:induction false} FrameAccounts(env: Env, w: World, frame: Frame, c: Clock)
    ensures var p := Process(env, w, frame, c).world.past;
            p.frames - |p.recorded| - p.returned == w.past.frames - |w.past.recorded| - w.past.returned
    ensures Process(env, w, frame, c).world.past.frames ==
            w.past.frames + if frame.ShortIpv4? || frame.Ipv4? then 1 else 0
  {
    hide HandleFragment, CheckGeoip, EarlyFilter, CheckTransport, Flows.Step, PacketOf, FlowOf;
    match frame
    case Ipv4(length, ip, s) =>
      var o1 := HandleFragment(env, CountFrame(w, length), ip, c.frag);
      var o2 := EarlyFilter(env, o1.world, ip, Protocol(s), c.early);
      Chain.FilterTouches(env, CountFrame(w, length), ip, Protocol(s), c);
      Chain.FilterTouches(env, o1.world, ip, Protocol(s), c);
      Chain.TransportTouches(env, o2.world, ip, s, c);
    case _ =>
  }

  lemma {:induction false} FrameBalanced(env: Env, w: World, frame: Frame, c: Clock, t: u64)
    requires Runs.TrackersKept(w, t) && t <= c.record && Balanced(w.maps.flows, w.past.recorded)
    ensures var v := Process(env, w, frame, c).world; Balanced(v.maps.flows, v.past.recorded)
  {
    hide Process, Balanced, Flows.Step, Chain.FirstObjection, Chain.Opinions;
    Chain.VerdictIsFirstObjection(env, w, frame, c);
    if Chain.Records(env, w, frame, c) {
      var x := Seen(FlowOf(frame.ip, frame.segment), c.record, PacketOf(env, frame.ip, frame.segment));
      StaysBalanced(w.maps.flows, w.past.recorded, t, x);
    }
  }

  lemma {:induction false} EmptyBalanced()
    ensures Balanced(map[], [])
  {
  }

  lemma {:induction false} RunBalanced(es: seq<Event>)
    requires ClocksOrdered(es)
    ensures Balanced(Run(es).maps.flows, Run(es).past.recorded)
    ensures |Run(es).past.recorded| + Run(es).past.returned == Run(es).past.frames
  {
    hide Process, Balanced, Runs.TrackersKept, Runs.CountersKept, Runs.RelaxedIsBacked;
    if es != [] {
      var w, e := Run(Most(es)), Last(es);
      RunBalanced(Most(es));
      Runs.RunKeeps(Most(es));
      FrameAccounts(e.env, w, e.frame, e.clock);
      FrameBalanced(e.env, w, e.frame, e.clock, if Most(es) == [] then 0 else Last(Most(es)).clock.record);
    } else {
      EmptyBalanced();
    }
  }

  /** The packets in all flow records and the IPv4 frames returned before the recording stage are the frames
      counted in total_packets: modulo 2^32 always, exactly while nothing has wrapped. */
  lemma {:induction false} PacketLedger(es: seq<Event>)
    requires ClocksOrdered(es)
    ensures var w := Run(es);
            && (w.maps.totalPackets - SumPackets(w.maps.flows) - w.past.returned) % 0x1_0000_0000 == 0
            && (w.past.frames < 0x1_0000_0000_0000_0000 && (forall k: FlowKey :: |Of(w.past.recorded, k)| < TWO32) ==>
                  SumPackets(w.maps.flows) + w.past.returned == w.maps.totalPackets)
  {
    hide Run, SumPackets, Runs.TrackersKept, Runs.RelaxedIsBacked;
    RunBalanced(es);
    Runs.RunKeeps(es);
  }
}
