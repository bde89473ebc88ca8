/** The per-source fragment tracker, handle_fragment, over every sequence of fragments. */
module Fragments {
  import opened Machine
  import opened Histories
  import opened Packets

  const TIMEOUT: int := 30_000_000_000
  const MORE_FRAGMENTS: nat := 0x2000
  const SMALLEST: u16 := 16

  datatype FragInfo = FragInfo(lastUpdate: u64, fragCount: u32)

  /** A fragment: its offset in units of eight bytes, the more-fragments bit, the length of its
      payload, and the configured limit at that time. */
  datatype FragProbe = FragProbe(offset: u16, more: bool, payload: u16, limit: u32)

  type FragSeen = Seen<u32, FragProbe>

  datatype FragResult = FragResult(info: FragInfo, verdict: Verdict)

  predicate IsFragment(ip: IpHeader) {
    Bit(ip.fragOff, MORE_FRAGMENTS) || ip.fragOff % 0x2000 > 0
  }

  /** Anything in the low fourteen bits: the more-fragments bit or the offset (section 3.1 of RFC 791). */
  lemma {:induction false} FragmentBits(ip: IpHeader)
    ensures IsFragment(ip) <==> ip.fragOff % 0x4000 != 0
  {
  }

  function Probe(env: Env, ip: IpHeader): FragProbe {
    FragProbe(ip.fragOff % 0x2000, Bit(ip.fragOff, MORE_FRAGMENTS), W16(ip.totLen - ip.ihl * 4),
              GetConfig(env).maxFrags)
  }

  /** A second fragment that starts at byte 8, or a fragment with more to come and fewer than 16 bytes. */
  predicate Malformed(p: FragProbe) {
    p.offset == 1 || (p.more && p.payload < SMALLEST)
  }

  function Step(f: Option<FragInfo>, x: FragSeen): (r: FragResult)
    ensures r.verdict != Tx
  {
    match f
    case None => FragResult(FragInfo(x.time, 1), if Malformed(x.what) then Drop else Pass)
    case Some(i) =>
      var n := if Elapsed(x.time, i.lastUpdate) > TIMEOUT then 1 else Add32(i.fragCount, 1);
      FragResult(FragInfo(x.time, n), if n > x.what.limit || Malformed(x.what) then Drop else Pass)
  }

  function After(xs: seq<FragSeen>): Option<FragInfo> {
    if xs == [] then None else Some(Step(After(Most(xs)), Last(xs)).info)
  }

  lemma {:induction false} AfterSnoc(xs: seq<FragSeen>, x: FragSeen)
    ensures After(xs + [x]) == Some(Step(After(xs), x).info)
  {
    assert Most(xs + [x]) == xs;
  }

  predicate Passes(xs: seq<FragSeen>)
    requires xs != []
  {
    Step(After(Most(xs)), Last(xs)).verdict == Pass
  }

  /** The index of the first fragment of the current burst: no two neighbours of a burst, dropped or not,
      are more than 30 s apart. */
  function BurstStart(xs: seq<FragSeen>): (i: nat)
    requires xs != []
    ensures i < |xs|
  {
    if |xs| == 1 || Last(xs).time - Last(Most(xs)).time > 30_000_000_000 then |xs| - 1 else BurstStart(Most(xs))
  }

  /** The counter is the number of fragments of the current burst. */
  lemma {:induction false} CounterIsExact(xs: seq<FragSeen>)
    requires xs != [] && Monotone(xs)
    ensures After(xs) == Some(FragInfo(Last(xs).time, W32(|xs| - BurstStart(xs))))
  {
    hide W32, Add32, Malformed;
    Unwrapped32(1);
    if |xs| > 1 {
      CounterIsExact(Most(xs));
      WrapAdd32(|Most(xs)| - BurstStart(Most(xs)), 1);
    } else {
      assert Most(xs) == [];
    }
  }

  /** Exactly which fragments pass: those that neither start at byte 8 nor have more to come and fewer than 16 bytes,
      and whose number in their burst, counted modulo 2^32, is within the limit. Only the very first fragment of a
      source escapes the limit. */
  lemma {:induction false} PassesExactlyWhen(xs: seq<FragSeen>)
    requires xs != [] && Monotone(xs)
    ensures var p := Last(xs).what;
            Passes(xs) <==> && p.offset != 1 && !(p.more && p.payload < 16)
                            && (|xs| == 1 || W32(|xs| - BurstStart(xs)) <= p.limit)
  {
    hide W32;
    CounterIsExact(xs);
    if |xs| == 1 {
    } else {
      CounterIsExact(Most(xs));
    }
  }

  /** Before the counter wraps, it is the plain number of fragments of the burst. */
  lemma {:induction false} PassesUnwrapped(xs: seq<FragSeen>)
    requires xs != [] && Monotone(xs) && |xs| - BurstStart(xs) < TWO32
    ensures Passes(xs) <==> !Malformed(Last(xs).what) && (|xs| == 1 || |xs| - BurstStart(xs) <= Last(xs).what.limit)
  {
    hide BurstStart, Passes;
    PassesExactlyWhen(xs);
    Unwrapped32(|xs| - BurstStart(xs));
  }
}
