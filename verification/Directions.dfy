/** Which way the packets of a flow went, told from the host address and the addresses of the frames. */
module Directions {
  import opened Machine
  import opened Histories
  import opened Packets
  import opened XdpProgram
  import Chain
  import Chronicle
  import Flows
  import Runs

  /** The host address in force during a run; zero where none is configured. */
  ghost predicate HostIs(es: seq<Event>, host: u32) {
    forall i :: 0 <= i < |es| ==> (match es[i].env.hostIp case Some(h) => h case None => 0) == host
  }

  ghost predicate Directed(xs: seq<Flows.Recorded>, host: u32) {
    forall x :: x in xs ==> x.what.hostIp == host && (x.what.inbound <==> x.key.dstIp == host)
  }

  lemma {:induction false} InputDirected(env: Env, ip: IpHeader, s: Segment, now: u64, host: u32)
    requires (match env.hostIp case Some(h) => h case None => 0) == host
    ensures Directed(Chronicle.RecordInput(env, ip, s, now), host)
  {
  }

  lemma {:induction false} RecordedDirected(es: seq<Event>, host: u32)
    requires HostIs(es, host)
    ensures Directed(Run(es).past.recorded, host)
  {
    hide Process, Chronicle.RecordInput, Chain.Records;
    if es == [] {
    } else {
      RecordedDirected(Most(es), host);
      Chronicle.RecordedTold(Last(es).env, Run(Most(es)), Last(es).frame, Last(es).clock);
      if Last(es).frame.Ipv4? {
        InputDirected(Last(es).env, Last(es).frame.ip, Last(es).frame.segment, Last(es).clock.record, host);
      }
    }
  }

  lemma {:induction false} AllInward(xs: seq<Flows.Recorded>)
    requires forall i :: 0 <= i < |xs| ==> xs[i].what.inbound
    ensures Flows.PacketsOf(xs, true) == |xs| && Flows.PacketsOf(xs, false) == 0 && Flows.BytesOf(xs, false) == 0
  {
    if xs == [] {
    } else {
      AllInward(Most(xs));
    }
  }

  lemma {:induction false} AllOutward(xs: seq<Flows.Recorded>)
    requires xs != [] && forall i :: 0 <= i < |xs| ==> !xs[i].what.inbound
    ensures Flows.PacketsOf(xs, true) == 1 && Flows.PacketsOf(xs, false) == |xs| - 1
    ensures Flows.BytesOf(xs, true) == xs[0].what.payload
  {
    if |xs| == 1 {
      assert Most(xs) == [];
      assert Flows.PacketsOf(Most(xs), true) == 0 && Flows.PacketsOf(Most(xs), false) == 0;
      assert Flows.BytesOf(Most(xs), true) == 0;
    } else {
      AllOutward(Most(xs));
    }
  }

  /** The record of a flow under a given direction of its packets. */
  lemma {:induction false} FlowGoes(xs: seq<Flows.Recorded>, inward: bool)
    requires xs != [] && Flows.SameKey(xs) && Monotone(xs)
    requires forall i :: 0 <= i < |xs| ==> (xs[i].what.inbound <==> inward)
    ensures Flows.After(xs).Some?
    ensures var f := Flows.After(xs).value;
            if inward then
              && f.direction == 0 && f.fwd.packets == f.packets && f.fwd.bytes == f.bytes
              && f.bwd.packets == 0 && f.bwd.bytes == 0
            else
              && f.direction == 1 && f.fwd.packets == 1 && f.fwd.bytes == xs[0].what.payload
              && f.bwd.packets == W32(|xs| - 1)
  {
    hide W32, W64, Flows.After;
    Flows.Totals(xs);
    Flows.SideTotals(xs, true);
    Flows.SideTotals(xs, false);
    Unwrapped32(0);
    Unwrapped32(1);
    Unwrapped64(0);
    Unwrapped64(xs[0].what.payload);
    if inward {
      AllInward(xs);
    } else {
      AllOutward(xs);
    }
  }

  /** In every run under one host address: a flow to the host has all its packets forward; of any other flow exactly the
      first packet is forward, and it is marked as going out. */
  lemma {:induction false} FlowDirection(es: seq<Event>, key: FlowKey, host: u32)
    requires ClocksOrdered(es) && HostIs(es, host) && key in Run(es).maps.flows
    ensures var f, xs := Run(es).maps.flows[key], Of(Run(es).past.recorded, key);
            && xs != [] && f.hostIp == host
            && if key.dstIp == host then
                 && f.direction == 0 && f.fwd.packets == f.packets && f.fwd.bytes == f.bytes
                 && f.bwd.packets == 0 && f.bwd.bytes == 0
               else
                 && f.direction == 1 && f.fwd.packets == 1 && f.fwd.bytes == xs[0].what.payload
                 && f.bwd.packets == W32(|xs| - 1)
  {
    hide Run, Flows.Step, W32, Runs.CountersKept, Runs.RelaxedIsBacked, HostIs;
    Runs.RunKeeps(es);
    RecordedDirected(es, host);
    var recorded := Run(es).past.recorded;
    var xs := Of(recorded, key);
    OfMonotone(recorded, key);
    Runs.OfSameKey(recorded, key);
    assert Lookup(Run(es).maps.flows, key) == Flows.After(xs);
    forall i | 0 <= i < |xs| ensures xs[i].what.hostIp == host && (xs[i].what.inbound <==> key.dstIp == host) {
      OfMember(recorded, key, xs[i]);
    }
    Flows.Totals(xs);
    FlowGoes(xs, key.dstIp == host);
  }
}
