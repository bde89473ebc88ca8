/** Runs of the program in which something one would expect of it fails. */
module Counterexamples {
  import opened Machine
  import opened Histories
  import opened Packets
  import opened XdpProgram
  import AttackLog
  import AttackRuns
  import Chain
  import Flows
  import Records
  import Runs
  import UdpTracker

  /** Every limit zero, no rules and no geo data. */
  const STRICT := Env(Some(Config(0, 0, 0, 0, 0)), map[], map[], map[], None)

  function At(t: u64): Clock {
    Clock(t, t, t, t, t, t)
  }

  // ---- a minimum that is none ----

  /** A TCP packet with a number of payload bytes and the ACK flag alone. */
  function Data(payload: u8): Frame {
    Ipv4(54 + payload, IpHeader(1, 2, 64, 5, 40 + payload, 0), TcpSegment(Some(TcpHeader(1000, 2000, 5, 0x10))))
  }

  const DATA_FLOW := FlowKey(1, 2, 1000, 2000, TCP)

  lemma {:induction false} DataMeetsNoObjection(w: World, payload: u8, t: u64)
    ensures var ip, s := Data(payload).ip, Data(payload).segment;
            && HandleFragment(STRICT, w, ip, t) == EarlyFilter(STRICT, w, ip, TCP, t) == Outcome(w, Pass)
            && CheckGeoip(STRICT, ip.saddr) == Pass
            && CheckTransport(STRICT, w, ip, s, At(t)) == Outcome(w, Pass)
            && Parsed(s) == Some(Ports(1000, 2000, 20, 0x10))
  {
  }

  lemma {:induction false} DataIsRecorded(w: World, payload: u8, t: u64)
    ensures var x := Seen(DATA_FLOW, t, Flows.Packet(payload, 40, false, 0, 0x10));
            Process(STRICT, w, Data(payload), At(t)).world.past.recorded == w.past.recorded + [x]
  {
    hide HandleFragment, EarlyFilter, CheckGeoip, CheckTransport, Flows.Step;
    DataMeetsNoObjection(CountFrame(w, 54 + payload), payload, t);
  }

  lemma {:induction false} BothAreOfTheFlow()
    ensures Of([EMPTY_PACKET, FULL_PACKET], DATA_FLOW) == [EMPTY_PACKET, FULL_PACKET]
  {
    OfSnoc([], EMPTY_PACKET, DATA_FLOW);
    OfSnoc([] + [EMPTY_PACKET], FULL_PACKET, DATA_FLOW);
    assert [] + [EMPTY_PACKET] + [FULL_PACKET] == [EMPTY_PACKET, FULL_PACKET];
  }

  function EmptyThenFull(): seq<Event> {
    [Event(STRICT, Data(0), At(1)), Event(STRICT, Data(100), At(2))]
  }

  /** The two packets as recorded. */
  const EMPTY_PACKET: Flows.Recorded := Seen(DATA_FLOW, 1, Flows.Packet(0, 40, false, 0, 0x10))
  const FULL_PACKET: Flows.Recorded := Seen(DATA_FLOW, 2, Flows.Packet(100, 40, false, 0, 0x10))

  lemma {:induction false} BothAreRecorded()
    ensures ClocksOrdered(EmptyThenFull()) && Run(EmptyThenFull()).past.recorded == [EMPTY_PACKET, FULL_PACKET]
  {
    var es := EmptyThenFull();
    var one := Most(es);
    assert one == [Event(STRICT, Data(0), At(1))] && Most(one) == [];
    hide Process, Data;
    DataIsRecorded(Run([]), 0, 1);
    DataIsRecorded(Run(one), 100, 2);
    assert [] + [EMPTY_PACKET] + [FULL_PACKET] == [EMPTY_PACKET, FULL_PACKET];
  }

  lemma {:induction false} FlowOfTwo(x: Flows.Recorded, y: Flows.Recorded)
    requires x.what.payload == 0 && 0 < y.what.payload < 0x1_0000
    ensures Flows.After([x, y]).Some?
    ensures Flows.After([x, y]).value.packets == 2 && Flows.After([x, y]).value.minLength == y.what.payload
  {
    assert Most([x, y]) == [x] && Most([x]) == [];
    assert Flows.After([x]) == Some(Flows.NewFlow(x));
    Unwrapped16(y.what.payload);
  }

  /** Two packets of a flow, the first one empty: the smallest length on record is 100, and yet one of the two
      packets has no payload. */
  lemma {:induction false} MinimumIsNot()
    ensures ClocksOrdered(EmptyThenFull())
    ensures var w := Run(EmptyThenFull());
            && DATA_FLOW in w.maps.flows && w.maps.flows[DATA_FLOW].packets == 2
            && w.maps.flows[DATA_FLOW].minLength == 100
            && exists x :: x in Of(w.past.recorded, DATA_FLOW) && x.what.payload == 0
  {
    hide Run, Runs.CountersKept, Runs.RelaxedIsBacked, Flows.After, Of, ClocksOrdered, EmptyThenFull;
    BothAreRecorded();
    BothAreOfTheFlow();
    Runs.RunKeeps(EmptyThenFull());
    assert Lookup(Run(EmptyThenFull()).maps.flows, DATA_FLOW) == Flows.After([EMPTY_PACKET, FULL_PACKET]);
    FlowOfTwo(EMPTY_PACKET, FULL_PACKET);
    assert EMPTY_PACKET in [EMPTY_PACKET, FULL_PACKET];
  }

  // ---- an attack nobody reads about ----

  /** A UDP packet with 8 bytes of payload. */
  const DATAGRAM := Ipv4(50, IpHeader(1, 2, 64, 5, 36, 0), UdpSegment(Some(UdpHeader(1000, 2000))))

  function Sent(t: u64): Event {
    Event(STRICT, DATAGRAM, At(t))
  }

  /** Many of them at once. */
  function Burst(n: nat): seq<Event> {
    seq(n, i => Sent(1))
  }

  /** And another one 150 milliseconds later. */
  function Flood(): seq<Event> {
    Burst(200) + [Sent(150_000_001)]
  }

  lemma {:induction false} DatagramIsJudged(w: World, t: u64)
    ensures AttackRuns.MeetsUdpCheck(STRICT, w, DATAGRAM, At(t))
    ensures var x := AttackRuns.ProbeOf(STRICT, w, DATAGRAM.ip, DATAGRAM.segment.udp.value, t);
            && Process(STRICT, w, DATAGRAM, At(t)).world.past.udps == w.past.udps + [x]
            && x.key == 1 && x.time == t && x.what.rate == 0
  {
    AttackRuns.FrameIsJudged(STRICT, w, DATAGRAM, At(t));
    hide Process;
  }

  /** One more datagram, and what the history of its source then holds. */
  lemma {:induction false} OneMoreDatagram(es: seq<Event>, t: u64)
    ensures var longer := es + [Sent(t)];
            var before, after := Of(Run(es).past.udps, 1), Of(Run(longer).past.udps, 1);
            && Most(longer) == es && AttackRuns.MeetsUdpCheck(STRICT, Run(es), DATAGRAM, At(t))
            && after != [] && Most(after) == before && Last(after).time == t
            && Last(after).what.rate == 0
  {
    hide Process, AttackRuns.MeetsUdpCheck, AttackRuns.ProbeOf, Of;
    var longer, w := es + [Sent(t)], Run(es);
    assert Most(longer) == es;
    Runs.RunSnoc(longer);
    hide Run;
    DatagramIsJudged(w, t);
    var x := AttackRuns.ProbeOf(STRICT, w, DATAGRAM.ip, DATAGRAM.segment.udp.value, t);
    OfSnoc(w.past.udps, x, 1);
    assert Most(Of(w.past.udps, 1) + [x]) == Of(w.past.udps, 1);
  }

  lemma {:induction false} NothingSent()
    ensures Of(Run(Burst(0)).past.udps, 1) == []
  {
    assert Burst(0) == [];
  }

  lemma {:induction false} BurstHistory(n: nat)
    ensures var xs := Of(Run(Burst(n)).past.udps, 1);
            |xs| == n && forall i :: 0 <= i < n ==> xs[i].time == 1
  {
    hide Of, AttackRuns.MeetsUdpCheck, Sent, Process;
    if n == 0 {
      NothingSent();
    } else {
      hide Run;
      BurstHistory(n - 1);
      OneMoreDatagram(Burst(n - 1), 1);
      assert Burst(n) == Burst(n - 1) + [Sent(1)];
    }
  }

  lemma {:induction false} SentAt(t: u64)
    ensures Sent(t).clock == At(t) && Sent(t).env == STRICT && Sent(t).frame == DATAGRAM
  {
  }

  lemma {:induction false} InOrder(es: seq<Event>)
    requires forall i :: 0 <= i < |es| ==> es[i] == Sent(1) || (i == |es| - 1 && es[i] == Sent(150_000_001))
    ensures ClocksOrdered(es) && forall i :: 0 <= i < |es| ==> es[i].clock.log > 0
  {
    hide Sent;
    SentAt(1);
    SentAt(150_000_001);
  }

  lemma {:induction false} OnlySourceOne(n: nat)
    ensures var attacks := AttackRuns.AttacksOf(Burst(n)); attacks != [] ==> exists a :: a in attacks && a.srcIp == 1
  {
    hide AttackRuns.IsAttack, Sent;
    if n == 0 {
    } else {
      OnlySourceOne(n - 1);
      assert Most(Burst(n)) == Burst(n - 1);
      SentAt(1);
      assert AttackRuns.AttackOf(DATAGRAM.ip, At(1)).srcIp == 1;
    }
  }

  /** None of the burst is an attack. */
  lemma {:induction false} NoAttacks(n: nat)
    ensures AttackRuns.AttacksOf(Burst(n)) == []
  {
    hide Run, Of, Sent, AttackRuns.AttacksOf, ClocksOrdered;
    BurstHistory(n);
    InOrder(Burst(n));
    AttackRuns.SteadySourceIsNeverLogged(Burst(n), 1);
    AttackRuns.LoggedExactlyAttacks(Burst(n));
    OnlySourceOne(n);
  }

  lemma {:induction false} NoReset(xs: seq<UdpTracker.UdpSeen>)
    requires |xs| > 1 && Last(xs).time - xs[UdpTracker.LastKept(Most(xs))].time < SECOND
    ensures UdpTracker.LastReset(xs) == UdpTracker.LastReset(Most(xs))
  {
    hide UdpTracker.LastKept;
  }

  lemma {:induction false} EnoughToExceed()
    ensures UdpTracker.Exceeds(201, 150_000_000, 0)
  {
  }

  lemma {:induction false} FloodTooFast(xs: seq<UdpTracker.UdpSeen>)
    requires |xs| == 201 && Last(xs).time == 150_000_001 && Last(xs).what.rate == 0
    requires forall i :: 0 <= i < 200 ==> xs[i].time == 1
    ensures UdpTracker.TooFast(xs)
  {
    hide UdpTracker.LastKept, UdpTracker.LastReset, UdpTracker.Outcome, UdpTracker.Exceeds;
    UdpTracker.SteadyTrafficIsNeverRateDropped(Most(xs));
    NoReset(xs);
    Unwrapped32(201);
    EnoughToExceed();
  }

  /** The last datagram is an attack. */
  lemma {:induction false} LastIsAttack()
    ensures AttackRuns.IsAttack(Flood())
  {
    hide Run, Of, AttackRuns.MeetsUdpCheck, Burst, Sent, UdpTracker.LastKept,
         UdpTracker.LastReset;
    BurstHistory(200);
    OneMoreDatagram(Burst(200), 150_000_001);
    SentAt(150_000_001);
    FloodTooFast(Of(Run(Flood()).past.udps, 1));
  }

  /** A run that logs an attack, of which the reader of the attack array finds nothing, whatever the count says. */
  lemma {:induction false} AttackIsNotRead()
    ensures ClocksOrdered(Flood())
    ensures Run(Flood()).past.attacks == [AttackLog.Attack(150_000_001, 1, UDP, 1, 36)]
    ensures var log := Run(Flood()).maps.log; log.count == 1 && AttackLog.LiveOnes(log.slots[1..]) == []
  {
    hide Run, AttackRuns.IsAttack, AttackLog.LiveOnes, Sent, ClocksOrdered;
    InOrder(Flood());
    SentAt(150_000_001);
    LastIsAttack();
    NoAttacks(200);
    assert Most(Flood()) == Burst(200);
    AttackRuns.LoggedExactlyAttacks(Flood());
    Records.ReaderSeesAttacks(Flood());
  }
}
