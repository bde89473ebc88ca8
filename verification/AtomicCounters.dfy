/** The counters that several CPUs update atomically and re-read later, inside one window that nobody resets.
    Each packet first adds one to the counter of its source and later compares a fresh reading of the counter
    with its threshold; between the two any number of other packets may do either. */
module AtomicCounters {
  import opened Machine
  import opened Packets
  import DnsTracker
  import SynTracker

  /** The numbers from 1 to b. */
  ghost function OneTo(b: nat): (r: set<nat>)
    ensures |r| == b && forall i: nat :: i in r <==> 1 <= i <= b
  {
    if b == 0 then {} else OneTo(b - 1) + {b}
  }

  lemma {:induction false} SubsetSize(a: set<nat>, b: set<nat>)
    requires a <= b
    ensures |a| <= |b|
    decreases a
  {
    if a == {} {
    } else {
      var x :| x in a;
      SubsetSize(a - {x}, b - {x});
    }
  }

  lemma {:induction false} TicketsAtMost(tickets: set<nat>, b: nat)
    requires forall t :: t in tickets ==> 1 <= t <= b
    ensures |tickets| <= b
  {
    SubsetSize(tickets, OneTo(b));
  }

  // ---- the DNS test ----

  /** A packet between its addition and its reading: the number of its addition, and its threshold. */
  datatype DnsPending = DnsPending(ticket: nat, threshold: u32)

  /** The shared counter, the packets under way on each CPU, and what happened since the window opened:
      the additions so far, the tickets of the packets that passed, and how many packets passed. */
  datatype DnsState = DnsState(count: u32, pending: map<nat, DnsPending>, added: nat, passed: set<nat>, passes: nat)

  datatype DnsAction = DnsAdd(cpu: nat, threshold: u32) | DnsRead(cpu: nat)

  /** The packet that opens a window sets the counter to one and passes untested. */
  const DNS_OPENED := DnsState(1, map[], 1, {1}, 1)

  function DnsDo(s: DnsState, a: DnsAction): DnsState {
    match a
    case DnsAdd(cpu, threshold) =>
      if cpu in s.pending then s
      else s.(count := Add32(s.count, 1), added := s.added + 1,
              pending := s.pending[cpu := DnsPending(s.added + 1, threshold)])
    case DnsRead(cpu) =>
      if cpu !in s.pending then s
      else
        var p := s.pending[cpu];
        var done := s.(pending := s.pending - {cpu});
        if s.count > p.threshold then done
        else done.(passed := s.passed + {p.ticket}, passes := s.passes + 1)
  }

  /** Any interleaving: an action of a CPU that is not ready for it changes nothing. */
  function DnsExec(actions: seq<DnsAction>): DnsState {
    if actions == [] then DNS_OPENED else DnsDo(DnsExec(actions[..|actions| - 1]), actions[|actions| - 1])
  }

  ghost predicate DnsInv(s: DnsState, k: u32) {
    && s.count == s.added
    && s.passes == |s.passed|
    && (forall c :: c in s.pending ==>
          && 1 <= s.pending[c].ticket <= s.added && s.pending[c].ticket !in s.passed
          && s.pending[c].threshold <= k)
    && (forall c, d :: c in s.pending && d in s.pending && c != d ==> s.pending[c].ticket != s.pending[d].ticket)
    && (forall t :: t in s.passed ==> 1 <= t <= s.added && (t == 1 || t <= k))
  }

  lemma {:induction false} DnsAddInv(s: DnsState, cpu: nat, threshold: u32, k: u32)
    requires DnsInv(s, k) && s.added + 1 < TWO32 && threshold <= k && cpu !in s.pending
    ensures DnsInv(DnsDo(s, DnsAdd(cpu, threshold)), k)
  {
    assert s.added + 1 !in s.passed;
  }

  lemma {:induction false} DnsReadInv(s: DnsState, cpu: nat, k: u32)
    requires DnsInv(s, k) && cpu in s.pending
    ensures DnsInv(DnsDo(s, DnsRead(cpu)), k)
  {
    var r := DnsDo(s, DnsRead(cpu));
    forall c | c in r.pending ensures r.pending[c].ticket !in r.passed {
      assert s.pending[c].ticket != s.pending[cpu].ticket;
    }
  }

  lemma {:induction false} DnsStepInv(s: DnsState, a: DnsAction, k: u32)
    requires DnsInv(s, k) && DnsDo(s, a).added < TWO32 && (a.DnsAdd? ==> a.threshold <= k)
    ensures DnsInv(DnsDo(s, a), k)
  {
    hide DnsInv;
    match a
    case DnsAdd(cpu, threshold) =>
      if cpu !in s.pending {
        DnsAddInv(s, cpu, threshold, k);
      }
    case DnsRead(cpu) =>
      if cpu in s.pending {
        DnsReadInv(s, cpu, k);
      }
  }

  lemma {:induction false} DnsOpenedInv(k: u32)
    ensures DnsInv(DNS_OPENED, k)
  {
  }

  lemma {:induction false} DnsExecInv(actions: seq<DnsAction>, k: u32)
    requires forall i :: 0 <= i < |actions| && actions[i].DnsAdd? ==> actions[i].threshold <= k
    requires DnsExec(actions).added < TWO32
    ensures DnsInv(DnsExec(actions), k)
  {
    hide DnsInv;
    if actions != [] {
      var most := actions[..|actions| - 1];
      DnsExecInv(most, k);
      DnsStepInv(DnsExec(most), actions[|actions| - 1], k);
    } else {
      DnsOpenedInv(k);
    }
  }

  /** However the CPUs interleave, at most max(1, k) packets of a window pass the count test when no threshold exceeds
      k: every packet that passes has read at least its own ticket, and no two have the same. */
  lemma {:induction false} DnsPassesAtMost(actions: seq<DnsAction>, k: u32)
    requires forall i :: 0 <= i < |actions| && actions[i].DnsAdd? ==> actions[i].threshold <= k
    requires DnsExec(actions).added < TWO32
    ensures DnsExec(actions).passes <= Max(1, k)
  {
    DnsExecInv(actions, k);
    TicketsAtMost(DnsExec(actions).passed, Max(1, k));
  }

  // ---- the SYN test ----

  /** A SYN between its addition and its verdict: counted; over the rate; over the rate with one operand
      of the second comparison read, in either order. */
  datatype SynPending =
    | SynCounted(ticket: nat, rate: u32)
    | SynOver(ticket: nat)
    | SynOverLeft(ticket: nat, syns: u32)
    | SynOverRight(ticket: nat, limit: u32)

  datatype SynState = SynState(syns: u32, acks: u32, pending: map<nat, SynPending>,
                               addedSyns: nat, addedAcks: nat, passed: set<nat>, passes: nat)

  datatype SynAction = AckAdd | SynAdd(cpu: nat, rate: u32) | SynTest(cpu: nat) | SynRead(cpu: nat) | AckRead(cpu: nat)

  /** A window opened by a SYN, which passes untested, or by a SYN-ACK. */
  function SynOpened(bySyn: bool): SynState {
    if bySyn then SynState(1, 0, map[], 1, 0, {1}, 1) else SynState(0, 1, map[], 0, 1, {}, 0)
  }

  function SynVerdict(s: SynState, cpu: nat, drop: bool): SynState
    requires cpu in s.pending
  {
    var done := s.(pending := s.pending - {cpu});
    if drop then done else done.(passed := s.passed + {s.pending[cpu].ticket}, passes := s.passes + 1)
  }

  function SynDo(s: SynState, a: SynAction): SynState {
    match a
    case AckAdd => s.(acks := Add32(s.acks, 1), addedAcks := s.addedAcks + 1)
    case SynAdd(cpu, rate) =>
      if cpu in s.pending then s
      else s.(syns := Add32(s.syns, 1), addedSyns := s.addedSyns + 1,
              pending := s.pending[cpu := SynCounted(s.addedSyns + 1, rate)])
    case SynTest(cpu) =>
      if cpu !in s.pending || !s.pending[cpu].SynCounted? then s
      else if s.syns > s.pending[cpu].rate then s.(pending := s.pending[cpu := SynOver(s.pending[cpu].ticket)])
      else SynVerdict(s, cpu, false)
    case SynRead(cpu) =>
      if cpu !in s.pending then s
      else
        (match s.pending[cpu]
         case SynOver(t) => s.(pending := s.pending[cpu := SynOverLeft(t, s.syns)])
         case SynOverRight(_, limit) => SynVerdict(s, cpu, s.syns > limit)
         case _ => s)
    case AckRead(cpu) =>
      if cpu !in s.pending then s
      else
        var limit := W32(s.acks * 10);
        match s.pending[cpu]
        case SynOver(t) => s.(pending := s.pending[cpu := SynOverRight(t, limit)])
        case SynOverLeft(_, syns) => SynVerdict(s, cpu, syns > limit)
        case _ => s
  }

  function SynExec(bySyn: bool, actions: seq<SynAction>): SynState {
    if actions == [] then SynOpened(bySyn)
    else SynDo(SynExec(bySyn, actions[..|actions| - 1]), actions[|actions| - 1])
  }

  ghost predicate SynPendingOk(s: SynState, p: SynPending, rate: u32) {
    && 1 <= p.ticket <= s.addedSyns && p.ticket !in s.passed
    && (p.SynCounted? ==> p.rate <= rate)
    && (p.SynOverLeft? ==> p.ticket <= p.syns)
    && (p.SynOverRight? ==> p.limit <= 10 * s.addedAcks)
  }

  ghost predicate SynInv(s: SynState, rate: u32) {
    && s.syns == s.addedSyns && s.acks == s.addedAcks
    && s.passes == |s.passed|
    && (forall c :: c in s.pending ==> SynPendingOk(s, s.pending[c], rate))
    && (forall c, d :: c in s.pending && d in s.pending && c != d ==> s.pending[c].ticket != s.pending[d].ticket)
    && (forall t :: t in s.passed ==> 1 <= t <= s.addedSyns && (t == 1 || t <= rate || t <= 10 * s.addedAcks))
  }

  ghost predicate SynFits(s: SynState) {
    s.addedSyns < TWO32 && 10 * s.addedAcks < TWO32
  }

  lemma {:induction false} SynVerdictInv(s: SynState, cpu: nat, drop: bool, rate: u32)
    requires SynInv(s, rate) && cpu in s.pending
    requires drop || s.pending[cpu].ticket <= rate || s.pending[cpu].ticket <= 10 * s.addedAcks
    ensures SynInv(SynVerdict(s, cpu, drop), rate)
  {
    var r := SynVerdict(s, cpu, drop);
    forall c | c in r.pending ensures SynPendingOk(r, r.pending[c], rate) {
      assert s.pending[c].ticket != s.pending[cpu].ticket;
    }
  }

  lemma {:induction false} SynMoveInv(s: SynState, cpu: nat, p: SynPending, rate: u32)
    requires SynInv(s, rate) && cpu in s.pending && p.ticket == s.pending[cpu].ticket && SynPendingOk(s, p, rate)
    ensures SynInv(s.(pending := s.pending[cpu := p]), rate)
  {
  }

  lemma {:induction false} SynAddInv(s: SynState, a: SynAction, rate: u32)
    requires SynInv(s, rate) && SynFits(SynDo(s, a)) && (a.AckAdd? || (a.SynAdd? && a.rate <= rate))
    ensures SynInv(SynDo(s, a), rate)
  {
    if a.SynAdd? && a.cpu !in s.pending {
      var r := SynDo(s, a);
      assert s.addedSyns + 1 !in s.passed;
      forall c | c in r.pending ensures SynPendingOk(r, r.pending[c], rate) {
      }
    }
  }

  lemma {:induction false} SynCountsAre(s: SynState, rate: u32)
    requires SynInv(s, rate)
    ensures s.syns == s.addedSyns && s.acks == s.addedAcks
  {
  }

  lemma {:induction false} SynStepInv(s: SynState, a: SynAction, rate: u32)
    requires SynInv(s, rate) && SynFits(SynDo(s, a)) && (a.SynAdd? ==> a.rate <= rate)
    ensures SynInv(SynDo(s, a), rate)
  {
    if a.AckAdd? || a.SynAdd? {
      SynAddInv(s, a, rate);
    } else if a.cpu in s.pending {
      var p := s.pending[a.cpu];
      assert SynPendingOk(s, p, rate);
      var limit := W32(s.acks * 10);
      Unwrapped32(s.acks * 10);
      hide W32, SynVerdict, SynInv;
      if a.SynTest? && p.SynCounted? {
        SynMoveInv(s, a.cpu, SynOver(p.ticket), rate);
        if s.syns <= p.rate {
          SynCountsAre(s, rate);
          SynVerdictInv(s, a.cpu, false, rate);
        }
      } else if p.SynOver? {
        SynCountsAre(s, rate);
        SynMoveInv(s, a.cpu, SynOverLeft(p.ticket, s.syns), rate);
        SynMoveInv(s, a.cpu, SynOverRight(p.ticket, limit), rate);
      } else if a.SynRead? && p.SynOverRight? {
        SynCountsAre(s, rate);
        SynVerdictInv(s, a.cpu, s.syns > p.limit, rate);
      } else if a.AckRead? && p.SynOverLeft? {
        SynCountsAre(s, rate);
        SynVerdictInv(s, a.cpu, p.syns > limit, rate);
      }
    }
  }

  lemma {:induction false} SynOpenedInv(bySyn: bool, rate: u32)
    ensures SynInv(SynOpened(bySyn), rate)
  {
  }

  lemma {:induction false} SynExecInv(bySyn: bool, actions: seq<SynAction>, rate: u32)
    requires forall i :: 0 <= i < |actions| && actions[i].SynAdd? ==> actions[i].rate <= rate
    requires SynFits(SynExec(bySyn, actions))
    ensures SynInv(SynExec(bySyn, actions), rate)
  {
    hide SynInv, W32;
    if actions != [] {
      var most := actions[..|actions| - 1];
      SynExecInv(bySyn, most, rate);
      SynStepInv(SynExec(bySyn, most), actions[|actions| - 1], rate);
    } else {
      SynOpenedInv(bySyn, rate);
    }
  }

  /** However the CPUs interleave, at most max(1, rate, 10 * SYN-ACKs) SYNs of a window are let through, and at most
      max(1, rate) when the window has no SYN-ACK. */
  lemma {:induction false} SynPassesAtMost(bySyn: bool, actions: seq<SynAction>, rate: u32)
    requires forall i :: 0 <= i < |actions| && actions[i].SynAdd? ==> actions[i].rate <= rate
    requires SynFits(SynExec(bySyn, actions))
    ensures SynExec(bySyn, actions).passes <= Max(1, Max(rate, 10 * SynExec(bySyn, actions).addedAcks))
  {
    SynExecInv(bySyn, actions, rate);
    TicketsAtMost(SynExec(bySyn, actions).passed, Max(1, Max(rate, 10 * SynExec(bySyn, actions).addedAcks)));
  }

  // ---- the sequential trackers ----

  /** When a packet's two steps come together they are the later-packet step of the sequential DNS tracker. */
  lemma {:induction false} DnsStepsTogether(s: DnsState, cpu: nat, i: DnsTracker.DnsInfo, x: DnsTracker.DnsSeen)
    requires cpu !in s.pending && i.packetCount == s.count
    requires i.lastUpdate <= x.time < i.lastUpdate + SECOND && !DnsTracker.Oversized(x.what)
    ensures var r := DnsDo(DnsDo(s, DnsAdd(cpu, DnsTracker.Threshold(x.what))), DnsRead(cpu));
            var t := DnsTracker.Step(Some(i), x);
            && r.count == t.info.packetCount && r.pending == s.pending
            && (r.passes == s.passes + 1 <==> t.verdict == Pass) && (r.passes == s.passes <==> t.verdict == Drop)
  {
    hide DnsTracker.Threshold, DnsTracker.Oversized;
    var added := DnsDo(s, DnsAdd(cpu, DnsTracker.Threshold(x.what)));
    assert added.pending - {cpu} == s.pending;
  }

  /** Likewise the steps of a SYN, and of a SYN-ACK, and the sequential SYN tracker. */
  lemma {:induction false} SynStepsTogether(s: SynState, cpu: nat, i: SynTracker.SynInfo, x: SynTracker.SynSeen)
    requires cpu !in s.pending && i.synCount == s.syns && i.synAckCount == s.acks
    requires i.lastUpdate <= x.time < i.lastUpdate + SECOND
    ensures var t := SynTracker.Step(Some(i), x);
            if x.what.ack then
              SynDo(s, AckAdd) == s.(acks := t.info.synAckCount, addedAcks := s.addedAcks + 1)
            else
              var r := SynDo(SynDo(SynDo(SynDo(s, SynAdd(cpu, x.what.rate)), SynTest(cpu)), SynRead(cpu)),
                             AckRead(cpu));
              && r.syns == t.info.synCount && r.acks == s.acks && r.pending == s.pending
              && (r.passes == s.passes + 1 <==> t.verdict == Pass) && (r.passes == s.passes <==> t.verdict == Drop)
  {
    hide W32;
    if !x.what.ack {
      var added := SynDo(s, SynAdd(cpu, x.what.rate));
      var tested := SynDo(added, SynTest(cpu));
      if cpu in tested.pending {
        var over := SynDo(tested, SynRead(cpu));
        assert over.pending - {cpu} == s.pending;
      } else {
        assert added.pending - {cpu} == s.pending;
      }
    }
  }
}
