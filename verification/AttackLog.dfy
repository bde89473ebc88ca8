/** The attack array and its counter: the writer in the packet filter and the reader in user space. */
module AttackLog {
  import opened Machine
  import opened Histories

  const MAX_ATTACKS: nat := 1000

  /** struct attack_info; its attack_type string is never filled in. */
  datatype Attack = Attack(timestamp: u64, srcIp: u32, protocol: u8, packets: u32, bytes: u64)

  const ZEROED := Attack(0, 0, 0, 0, 0)

  /** attack_info_array and attack_count. */
  datatype Log = Log(slots: Slots, count: u32)

  type Slots = s: seq<Attack> | |s| == MAX_ATTACKS witness Zeroes(MAX_ATTACKS)

  /** Slots never written to. */
  function Zeroes(n: nat): (r: seq<Attack>)
    ensures |r| == n && forall i :: 0 <= i < n ==> r[i] == ZEROED
  {
    seq(n, i requires 0 <= i < n => ZEROED)
  }

  function EmptyLog(): Log {
    Log(Zeroes(MAX_ATTACKS), 0)
  }

  /** The slot update_attack_info writes to: the next free one, or the last one when there is none. */
  function Slot(count: u32): nat {
    if count >= MAX_ATTACKS then MAX_ATTACKS - 1 else count
  }

  function Append(l: Log, a: Attack): Log {
    Log(l.slots[Slot(l.count) := a], Slot(l.count) + 1)
  }

  /** The log after the records `xs`. */
  function Written(xs: seq<Attack>): Log {
    if xs == [] then EmptyLog() else Append(Written(Most(xs)), Last(xs))
  }

  predicate Live(a: Attack) {
    a.packets > 0 && a.timestamp > 0
  }

  function LiveOnes(xs: seq<Attack>): seq<Attack> {
    if xs == [] then [] else LiveOnes(Most(xs)) + if Live(Last(xs)) then [Last(xs)] else []
  }

  /** bpf_map_get_next_key on an array map of MAX_ATTACKS entries: the successor, the first key
      for a key out of range, and nothing after the last. */
  function NextKey(key: u32): Option<u32> {
    if key >= MAX_ATTACKS then Some(0) else if key == MAX_ATTACKS - 1 then None else Some(key + 1)
  }

  /** get_attack_info: collects the live records in the slots after the first into a fresh buffer of
      MAX_ATTACKS entries. The scan starts from the successor of key 0, so slot 0 is never read. */
  method GetAttackInfo(slots: array<Attack>) returns (attacks: array<Attack>, found: nat)
    requires slots.Length == MAX_ATTACKS
    ensures fresh(attacks) && attacks.Length == MAX_ATTACKS && found < MAX_ATTACKS
    ensures attacks[..found] == LiveOnes(slots[1..])
    ensures forall i :: found <= i < MAX_ATTACKS ==> attacks[i] == ZEROED
  {
    attacks := new Attack[MAX_ATTACKS](i => ZEROED);
    found := 0;
    var key: u32 := 0;
    var next := NextKey(key);
    while next.Some?
      invariant key < MAX_ATTACKS && next == NextKey(key) && found <= key
      invariant attacks[..found] == LiveOnes(slots[1..key + 1])
      invariant forall i :: found <= i < MAX_ATTACKS ==> attacks[i] == ZEROED
      decreases MAX_ATTACKS - key
    {
      var attack := slots[next.value];
      assert Most(slots[1..next.value + 1]) == slots[1..key + 1];
      if attack.packets > 0 && attack.timestamp > 0 {
        attacks[found] := attack;
        found := found + 1;
        if found >= MAX_ATTACKS {
          break;
        }
      }
      key := next.value;
      next := NextKey(key);
    }
    assert slots[1..key + 1] == slots[1..];
  }

  /** What the slots hold after `xs`: the records in order while they fit; after that the first 999
      and the newest, everything between them having been overwritten in the last slot. */
  lemma {:induction false} WrittenSlots(xs: seq<Attack>)
    ensures Written(xs).count == Min(|xs|, 1000)
    ensures |xs| <= 1000 ==>
              Written(xs).slots == xs + Zeroes(1000 - |xs|)
    ensures |xs| > 1000 ==> Written(xs).slots == xs[..999] + [Last(xs)]
  {
    if xs == [] {
    } else {
      WrittenSlots(Most(xs));
    }
  }

  lemma {:induction false} LiveOnesOfZeroed(n: nat)
    ensures LiveOnes(Zeroes(n)) == []
  {
    var zs := Zeroes(n);
    if n == 0 {
    } else {
      assert Most(zs) == Zeroes(n - 1);
      LiveOnesOfZeroed(n - 1);
    }
  }

  lemma {:induction false} MostOfConcat(xs: seq<Attack>, ys: seq<Attack>)
    requires ys != []
    ensures Most(xs + ys) == xs + Most(ys) && Last(xs + ys) == Last(ys)
  {
  }

  lemma {:induction false} LiveOnesConcat(xs: seq<Attack>, ys: seq<Attack>)
    ensures LiveOnes(xs + ys) == LiveOnes(xs) + LiveOnes(ys)
  {
    if ys == [] {
      assert xs + ys == xs;
    } else {
      hide Live;
      LiveOnesConcat(xs, Most(ys));
      MostOfConcat(xs, ys);
      hide Most, Last;
    }
  }

  lemma {:induction false} LastIsLive(xs: seq<Attack>)
    requires xs != [] && Live(Last(xs))
    ensures LiveOnes(xs) == LiveOnes(Most(xs)) + [Last(xs)]
  {
  }

  lemma {:induction false} AllLive(xs: seq<Attack>)
    requires forall i :: 0 <= i < |xs| ==> Live(xs[i])
    ensures LiveOnes(xs) == xs
  {
    if xs == [] {
    } else {
      hide LiveOnes, Live;
      AllLive(Most(xs));
      LastIsLive(xs);
      hide Most, Last;
      MostAndLast(xs);
    }
  }

  /** The live records are those with a packet count and a timestamp. */
  lemma {:induction false} LiveOnesAre(xs: seq<Attack>, a: Attack)
    ensures a in LiveOnes(xs) <==> a in xs && a.packets > 0 && a.timestamp > 0
  {
    if xs == [] {
    } else {
      LiveOnesAre(Most(xs), a);
      MostAndLast(xs);
    }
  }

  /** What the reader returns after the writer logged `xs`: everything but the first record while they fit,
      then records 2 to 999 and the newest. */
  lemma {:induction false} ReaderReturns(xs: seq<Attack>)
    requires forall i :: 0 <= i < |xs| ==> Live(xs[i])
    ensures LiveOnes(Written(xs).slots[1..]) ==
            if xs == [] then []
            else if |xs| <= 1000 then xs[1..]
            else xs[1..999] + [Last(xs)]
  {
    WrittenSlots(xs);
    var slots := Written(xs).slots;
    if |xs| > MAX_ATTACKS {
      assert slots[1..] == xs[1..MAX_ATTACKS - 1] + [Last(xs)];
      AllLive(slots[1..]);
    } else if xs == [] {
      assert slots[1..] == Zeroes(MAX_ATTACKS - 1);
      LiveOnesOfZeroed(MAX_ATTACKS - 1);
    } else {
      var rest := Zeroes(MAX_ATTACKS - |xs|);
      assert slots[1..] == xs[1..] + rest;
      LiveOnesConcat(xs[1..], rest);
      LiveOnesOfZeroed(|rest|);
      AllLive(xs[1..]);
    }
  }

  /** The reader returns all that was logged only while nothing was: any record at all costs the first one. */
  lemma {:induction false} ReaderCompleteExactlyWhen(xs: seq<Attack>)
    requires forall i :: 0 <= i < |xs| ==> Live(xs[i])
    ensures LiveOnes(Written(xs).slots[1..]) == xs <==> xs == []
    ensures |LiveOnes(Written(xs).slots[1..])| == Written(xs).count <==> xs == []
  {
    WrittenSlots(xs);
    ReaderReturns(xs);
  }
}
