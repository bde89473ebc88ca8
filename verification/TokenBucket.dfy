/** The per-source ICMP token bucket of early_filter, over every sequence of arrivals. */
module TokenBucket {
  import opened Machine
  import opened Histories
  import opened Packets

  datatype Bucket = Bucket(lastUpdate: u64, tokens: u32)

  /** An ICMP packet at the bucket of its source, with the configured rate at that time. */
  type IcmpSeen = Seen<u32, u32>

  datatype BucketResult = BucketResult(bucket: Bucket, verdict: Verdict)

  /** The tokens after `product` = elapsed * rate: u64 product, flooring division, u32 truncation, cap. */
  function Grown(tokens: u32, product: nat, rate: u32): u32 {
    var sum := W32(tokens + PerSecond(W64(product)));
    if sum > rate then rate else sum
  }

  function Refill(b: Bucket, now: u64, rate: u32): u32 {
    Grown(b.tokens, Elapsed(now, b.lastUpdate) * rate, rate)
  }

  function Step(b: Option<Bucket>, x: IcmpSeen): (r: BucketResult)
    ensures r.verdict != Tx
  {
    match b
    case None => BucketResult(Bucket(x.time, x.what), Pass)
    case Some(b) =>
      var tokens := Refill(b, x.time, x.what);
      if tokens >= 1 then BucketResult(Bucket(x.time, tokens - 1), Pass)
      else BucketResult(b, Drop)
  }

  /** The map entry of a source after its arrivals `xs`. */
  function After(xs: seq<IcmpSeen>): Option<Bucket> {
    if xs == [] then None else Some(Step(After(Most(xs)), Last(xs)).bucket)
  }

  lemma {:induction false} AfterSnoc(xs: seq<IcmpSeen>, x: IcmpSeen)
    ensures After(xs + [x]) == Some(Step(After(xs), x).bucket)
  {
    assert Most(xs + [x]) == xs;
  }

  /** Whether the last of the arrivals is let through. */
  predicate Admits(xs: seq<IcmpSeen>) {
    xs != [] && Step(After(Most(xs)), Last(xs)).verdict == Pass
  }

  /** How many of the arrivals from index `lo` on are let through. */
  function Admitted(xs: seq<IcmpSeen>, lo: nat): nat {
    CountFrom(xs, lo, Admits)
  }

  predicate FixedRate(xs: seq<IcmpSeen>, rate: u32) {
    forall i :: 0 <= i < |xs| ==> xs[i].what == rate
  }

  // ---- the rate bound ----

  /** Wrapping the product and truncating the sum can only lose tokens. */
  lemma {:induction false} GrownAtMost(tokens: u32, product: nat, rate: u32)
    ensures Grown(tokens, product, rate) <= rate
    ensures Nano(Grown(tokens, product, rate)) <= Nano(tokens) + product
  {
  }

  lemma {:induction false} RefillAtMost(b: Bucket, now: u64, rate: u32)
    requires b.lastUpdate <= now
    ensures Refill(b, now, rate) <= rate
    ensures Nano(Refill(b, now, rate)) <= Nano(b.tokens) + (now - b.lastUpdate) * rate
  {
    hide Grown;
    GrownAtMost(b.tokens, Elapsed(now, b.lastUpdate) * rate, rate);
  }

  lemma {:induction false} Scale(rate: nat, a: int, b: int)
    requires a <= b
    ensures rate * a <= rate * b
  {
  }

  lemma {:induction false} Spread(rate: int, a: int, b: int, c: int)
    ensures rate * (c - a) == rate * (b - a) + (c - b) * rate
  {
  }

  /** What is stored and what was let through fits the capacity, the free first packet and the time passed. */
  ghost predicate Funded(tokens: int, admitted: int, rate: u32, elapsed: int) {
    Nano(tokens + admitted - 1 - rate) <= rate * elapsed
  }

  lemma {:induction false} StaysFunded(b: Bucket, x: IcmpSeen, rate: u32, since: u64, admitted: nat)
    requires since <= b.lastUpdate <= x.time && x.what <= rate
    requires Funded(b.tokens, admitted, rate, b.lastUpdate - since)
    ensures Funded(Refill(b, x.time, x.what) - 1, admitted + 1, rate, x.time - since)
  {
    hide Refill;
    RefillAtMost(b, x.time, x.what);
    Scale(x.time - b.lastUpdate, x.what, rate);
    Spread(rate, since, b.lastUpdate, x.time);
  }

  lemma {:induction false} FirstIsFunded(tokens: u32, rate: u32, elapsed: nat)
    requires tokens <= rate
    ensures Funded(tokens, 1, rate, elapsed)
  {
    assert rate * elapsed >= 0;
  }

  predicate RatesAtMost(xs: seq<IcmpSeen>, lo: nat, rate: u32) {
    forall i :: lo <= i < |xs| ==> xs[i].what <= rate
  }

  lemma {:induction false} TokensAfter(xs: seq<IcmpSeen>)
    requires xs != [] && Admits(xs)
    ensures After(xs).Some? && After(xs).value.tokens <= Last(xs).what && After(xs).value.lastUpdate == Last(xs).time
    ensures After(Most(xs)).Some? ==>
              After(xs).value.tokens == Refill(After(Most(xs)).value, Last(xs).time, Last(xs).what) - 1
  {
    hide Grown;
    var b := After(Most(xs));
    if b.Some? {
      GrownAtMost(b.value.tokens, Elapsed(Last(xs).time, b.value.lastUpdate) * Last(xs).what, Last(xs).what);
    }
  }

  lemma {:induction false} Paid(xs: seq<IcmpSeen>, lo: nat, rate: u32)
    requires lo < |xs| && RatesAtMost(xs, lo, rate) && Monotone(xs) && Admitted(xs, lo) >= 1
    ensures After(xs).Some? && xs[lo].time <= After(xs).value.lastUpdate <= Last(xs).time
    ensures Funded(After(xs).value.tokens, Admitted(xs, lo), rate, After(xs).value.lastUpdate - xs[lo].time)
  {
    hide Refill, Funded;
    var most := Most(xs);
    if Admits(xs) {
      TokensAfter(xs);
    }
    if Admitted(most, lo) == 0 {
      FirstIsFunded(After(xs).value.tokens, rate, Last(xs).time - xs[lo].time);
    } else {
      Paid(most, lo, rate);
      StaysFunded(After(most).value, Last(xs), rate, xs[lo].time, Admitted(most, lo));
    }
  }

  lemma {:induction false} WholeTokens(tokens: int, nano: nat)
    requires Nano(tokens) <= nano
    ensures tokens <= PerSecond(nano)
  {
  }

  /** In any interval of `d` nanoseconds during which the rate stays at or below R, a source gets at most
      1 + R + floor(R * d / 10^9) ICMP packets past its bucket, whatever the rate was before. `xs` ends with the last
      arrival of the interval, index `lo` is its first. */
  lemma {:induction false} AdmittedInInterval(xs: seq<IcmpSeen>, lo: nat, rate: u32, d: nat)
    requires lo < |xs| && RatesAtMost(xs, lo, rate) && Monotone(xs)
    requires Last(xs).time - xs[lo].time <= d
    ensures Admitted(xs, lo) <= 1 + rate + PerSecond(rate * d)
  {
    hide Refill, Step, After, Admitted;
    if Admitted(xs, lo) >= 1 {
      Paid(xs, lo, rate);
      var spent := After(xs).value.lastUpdate - xs[lo].time;
      Scale(rate, spent, d);
      Scale(rate, 0, spent);
      WholeTokens(Admitted(xs, lo) - 1 - rate, rate * d);
    } else {
      Scale(rate, 0, d);
    }
  }

  // ---- refinement of the exact bucket ----

  lemma {:induction false} StoredTokens(xs: seq<IcmpSeen>, rate: u32)
    requires xs != [] && FixedRate(xs, rate) && Monotone(xs)
    ensures After(xs).value.tokens <= rate && After(xs).value.lastUpdate <= Last(xs).time
  {
    if |xs| == 1 {
    } else {
      StoredTokens(Most(xs), rate);
      RefillAtMost(After(Most(xs)).value, Last(xs).time, rate);
    }
  }

  /** A bucket that keeps its level in billionths of a token, so nothing is lost to flooring. */
  datatype Exact = Exact(lastUpdate: u64, nano: nat)

  function ExactGrown(nano: nat, product: nat, rate: u32): nat {
    Min(Nano(rate), nano + product)
  }

  function ExactLevel(e: Exact, now: u64, rate: u32): nat {
    ExactGrown(e.nano, Elapsed(now, e.lastUpdate) * rate, rate)
  }

  function ExactAfter(xs: seq<IcmpSeen>): Option<Exact> {
    if xs == [] then None
    else
      var x := Last(xs);
      match ExactAfter(Most(xs))
      case None => Some(Exact(x.time, Nano(x.what)))
      case Some(e) =>
        var level := ExactLevel(e, x.time, x.what);
        Some(Exact(x.time, if level >= SECOND then level - SECOND else level))
  }

  predicate ExactAdmits(xs: seq<IcmpSeen>)
    requires xs != []
  {
    match ExactAfter(Most(xs))
    case None => true
    case Some(e) => ExactLevel(e, Last(xs).time, Last(xs).what) >= SECOND
  }

  function ExactAdmitted(xs: seq<IcmpSeen>): nat {
    if xs == [] then 0 else ExactAdmitted(Most(xs)) + if ExactAdmits(xs) then 1 else 0
  }

  /** What the integer bucket could be worth at `now` if nothing were floored away. */
  function Worth(b: Bucket, now: u64, rate: u32): int {
    Min(Nano(rate), Nano(b.tokens) + (now - b.lastUpdate) * rate)
  }

  lemma {:induction false} BothGrow(tokens: nat, level: int, cap: nat, before: int, gain: nat)
    requires Min(cap, Nano(tokens) + before) <= level
    ensures Min(cap, Nano(tokens) + before + gain) <= Min(cap, level + gain)
  {
  }

  lemma {:induction false} WorthGrowsAlike(b: Bucket, e: Exact, now: u64, rate: u32, lead: nat)
    requires b.lastUpdate <= e.lastUpdate <= now
    requires Worth(b, e.lastUpdate, rate) <= e.nano + Nano(lead)
    ensures Worth(b, now, rate) <= ExactLevel(e, now, rate) + Nano(lead)
  {
    Spread(rate, b.lastUpdate, e.lastUpdate, now);
    Scale(rate, 0, now - e.lastUpdate);
    assert (now - e.lastUpdate) * rate == rate * (now - e.lastUpdate);
    BothGrow(b.tokens, e.nano + Nano(lead), Nano(rate), (e.lastUpdate - b.lastUpdate) * rate,
             (now - e.lastUpdate) * rate);
  }

  lemma {:induction false} RefillCostsWorth(b: Bucket, now: u64, rate: u32)
    requires b.lastUpdate <= now
    ensures Nano(Refill(b, now, rate)) <= Worth(b, now, rate)
    ensures Refill(b, now, rate) >= 1 ==>
              Worth(Bucket(now, Refill(b, now, rate) - 1), now, rate) <= Worth(b, now, rate) - Nano(1)
  {
    hide Refill;
    RefillAtMost(b, now, rate);
  }

  lemma {:induction false} FullIsWorthAll(now: u64, rate: u32)
    ensures Worth(Bucket(now, rate), now, rate) == Nano(rate)
  {
  }

  /** The exact bucket's lead in admissions makes up for any level it is short of. */
  lemma {:induction false} LeadCoversLevel(xs: seq<IcmpSeen>, rate: u32)
    requires xs != [] && FixedRate(xs, rate) && Monotone(xs)
    ensures ExactAfter(xs).Some? && ExactAfter(xs).value.lastUpdate == Last(xs).time
    ensures Admitted(xs, 0) <= ExactAdmitted(xs)
    ensures Worth(After(xs).value, Last(xs).time, rate)
            <= ExactAfter(xs).value.nano + Nano(ExactAdmitted(xs) - Admitted(xs, 0))
  {
    hide Refill, ExactLevel, Worth;
    StoredTokens(xs, rate);
    if |xs| > 1 {
      var most, now := Most(xs), Last(xs).time;
      LeadCoversLevel(most, rate);
      StoredTokens(most, rate);
      var b, e := After(most).value, ExactAfter(most).value;
      var lead := ExactAdmitted(most) - Admitted(most, 0);
      WorthGrowsAlike(b, e, now, rate, lead);
      RefillCostsWorth(b, now, rate);
    } else {
      assert Most(xs) == [] && Admitted(Most(xs), 0) == 0;
      FullIsWorthAll(Last(xs).time, rate);
      assert ExactAfter(Most(xs)) == None && After(Most(xs)) == None;
    }
  }

  /** At every point of every arrival sequence the integer bucket has let through no more than the exact one. */
  lemma {:induction false} NeverAheadOfExact(xs: seq<IcmpSeen>, rate: u32)
    requires FixedRate(xs, rate) && Monotone(xs)
    ensures Admitted(xs, 0) <= ExactAdmitted(xs)
  {
    if xs != [] {
      LeadCoversLevel(xs, rate);
    }
  }

  /** The refill when nothing wraps, for a known product of the time passed and the rate: the exact number of whole
      tokens. */
  lemma {:induction false} RefillUnwrapped(b: Bucket, now: u64, rate: u32, product: nat)
    requires b.lastUpdate <= now && (now - b.lastUpdate) * rate == product < 0x1_0000_0000_0000_0000
    requires b.tokens + PerSecond(product) < TWO32
    ensures Refill(b, now, rate) == Min(rate, b.tokens + PerSecond(product))
  {
    hide W64, W32, PerSecond;
    Unwrapped64(product);
    Unwrapped32(b.tokens + PerSecond(product));
  }

  /** A packet that comes at least 1/R seconds after the last one let through is let through, if nothing wraps. */
  lemma {:induction false} AdmittedAfterGap(b: Bucket, x: IcmpSeen, product: nat)
    requires b.lastUpdate <= x.time && (x.time - b.lastUpdate) * x.what == product
    requires SECOND <= product < 0x1_0000_0000_0000_0000 && b.tokens + PerSecond(product) < TWO32
    ensures Step(Some(b), x).verdict == Pass
  {
    hide Refill;
    RefillUnwrapped(b, x.time, x.what, product);
  }

  lemma {:induction false} ExactLevelIs(e: Exact, now: u64, rate: u32, product: nat)
    requires e.lastUpdate <= now && (now - e.lastUpdate) * rate == product
    ensures ExactLevel(e, now, rate) == Min(Nano(rate), e.nano + product)
  {
  }

  lemma {:induction false} AfterOneMore(xs: seq<IcmpSeen>, x: IcmpSeen)
    ensures After(xs + [x]) == Some(Step(After(xs), x).bucket)
    ensures Admits(xs + [x]) <==> Step(After(xs), x).verdict == Pass
    ensures ExactAfter(xs).Some? ==>
              var level := ExactLevel(ExactAfter(xs).value, x.time, x.what);
              && (ExactAdmits(xs + [x]) <==> level >= SECOND)
              && ExactAfter(xs + [x]) == Some(Exact(x.time, if level >= SECOND then level - SECOND else level))
  {
    assert Most(xs + [x]) == xs && Last(xs + [x]) == x;
  }

  lemma {:induction false} FirstArrival(x: IcmpSeen)
    ensures After([x]) == Some(Bucket(x.time, x.what)) && ExactAfter([x]) == Some(Exact(x.time, Nano(x.what)))
  {
    assert Most([x]) == [];
  }

  /** The two buckets do not let through the same packets: of these arrivals at rate 2 the last one passes
      only the integer bucket, the one before it only the exact bucket. */
  lemma {:induction false} DifferentPackets()
    ensures var xs := [Seen(7, 0, 2), Seen(7, 0, 2), Seen(7, 0, 2), Seen(7, 700_000_000, 2), Seen(7, 1_100_000_000, 2)];
            var ys := xs + [Seen(7, 1_200_000_000, 2)];
            !Admits(xs) && ExactAdmits(xs) && Admits(ys) && !ExactAdmits(ys)
  {
    hide Refill, ExactLevel, After, ExactAfter, Admits, ExactAdmits;
    var x0: IcmpSeen := Seen(7, 0, 2);
    var x3, x4, x5 := Seen(7, 700_000_000, 2), Seen(7, 1_100_000_000, 2), Seen(7, 1_200_000_000, 2);
    FirstArrival(x0);
    RefillUnwrapped(Bucket(0, 2), 0, 2, 0);
    ExactLevelIs(Exact(0, Nano(2)), 0, 2, 0);
    AfterOneMore([x0], x0);
    RefillUnwrapped(Bucket(0, 1), 0, 2, 0);
    ExactLevelIs(Exact(0, Nano(1)), 0, 2, 0);
    AfterOneMore([x0] + [x0], x0);
    var y3 := [x0] + [x0] + [x0];
    assert After(y3) == Some(Bucket(0, 0)) && ExactAfter(y3) == Some(Exact(0, 0));
    RefillUnwrapped(Bucket(0, 0), 700_000_000, 2, 1_400_000_000);
    ExactLevelIs(Exact(0, 0), 700_000_000, 2, 1_400_000_000);
    RefillUnwrapped(Bucket(700_000_000, 0), 1_100_000_000, 2, 800_000_000);
    ExactLevelIs(Exact(700_000_000, 400_000_000), 1_100_000_000, 2, 800_000_000);
    RefillUnwrapped(Bucket(700_000_000, 0), 1_200_000_000, 2, 1_000_000_000);
    ExactLevelIs(Exact(1_100_000_000, 200_000_000), 1_200_000_000, 2, 200_000_000);
    AfterOneMore(y3, x3);
    AfterOneMore(y3 + [x3], x4);
    AfterOneMore(y3 + [x3] + [x4], x5);
    assert y3 + [x3] + [x4] == [x0, x0, x0, x3, x4];
  }

  // ---- which packets get in ----

  /** Tokens on hand: what was left, and one for each whole 10^9 of `product`, the time passed times the rate, with the
      product modulo 2^64 and the sum modulo 2^32, up to the rate. */
  function OnHand(left: u32, product: int, rate: u32): u32 {
    var sum := (left + product % 0x1_0000_0000_0000_0000 / 1_000_000_000) % 0x1_0000_0000;
    if sum > rate then rate else sum
  }

  /** The level of the bucket for the last arrival, told from the arrivals: what was left after the last one
      let in, and what has accrued since. */
  function Level(xs: seq<IcmpSeen>): u32
    requires |xs| > 1
    decreases |xs|, 0
  {
    OnHand(Left(Most(xs)), (Last(xs).time - xs[LastIn(Most(xs))].time) * Last(xs).what, Last(xs).what)
  }

  /** The first arrival is let in for free, every other one for a token. */
  predicate LetIn(xs: seq<IcmpSeen>)
    requires xs != []
    decreases |xs|, 1
  {
    |xs| == 1 || Level(xs) >= 1
  }

  function LastIn(xs: seq<IcmpSeen>): (i: nat)
    requires xs != []
    ensures i < |xs|
    decreases |xs|, 2
  {
    if LetIn(xs) then |xs| - 1 else LastIn(Most(xs))
  }

  /** The first arrival leaves a full bucket. */
  function Left(xs: seq<IcmpSeen>): u32
    requires xs != []
    decreases |xs|, 2
  {
    if |xs| == 1 then xs[0].what else if LetIn(xs) then Level(xs) - 1 else Left(Most(xs))
  }

  lemma {:induction false} RefillIsOnHand(b: Bucket, now: u64, rate: u32)
    requires b.lastUpdate <= now
    ensures Refill(b, now, rate) == OnHand(b.tokens, (now - b.lastUpdate) * rate, rate)
  {
  }

  lemma {:induction false} FirstGetsIn(xs: seq<IcmpSeen>)
    requires |xs| == 1
    ensures Admits(xs) && After(xs) == Some(Bucket(xs[0].time, xs[0].what))
  {
    assert Most(xs) == [];
  }

  /** Exactly which packets get in: the first of a source, and those for which the level is at least one token; the
      entry of the source says when the last one got in and what it left. */
  lemma {:induction false} AdmitsExactlyWhen(xs: seq<IcmpSeen>)
    requires xs != [] && Monotone(xs)
    ensures Admits(xs) <==> |xs| == 1 || Level(xs) >= 1
    ensures After(xs) == Some(Bucket(xs[LastIn(xs)].time, Left(xs)))
  {
    hide Refill, OnHand;
    if |xs| == 1 {
      FirstGetsIn(xs);
    } else {
      AdmitsExactlyWhen(Most(xs));
      RefillIsOnHand(After(Most(xs)).value, Last(xs).time, Last(xs).what);
    }
  }

  lemma {:induction false} ShortProduct(gap: nat, rate: nat)
    requires gap < SECOND
    ensures 0 <= gap * rate <= Nano(rate) && PerSecond(gap * rate) <= rate
  {
    Scale(rate, 0, gap);
    Scale(rate, gap, SECOND);
    assert gap * rate == rate * gap;
  }

  lemma {:induction false} ShortGap(b: Bucket, now: u64, rate: u32)
    requires b.lastUpdate <= now < b.lastUpdate + SECOND && b.tokens <= rate < 0x8000_0000
    ensures Refill(b, now, rate) >= b.tokens
  {
    hide Refill, PerSecond;
    ShortProduct(now - b.lastUpdate, rate);
    RefillUnwrapped(b, now, rate, (now - b.lastUpdate) * rate);
  }

  /** A source that starts afresh gets its first 1 + R packets in, however fast they come, if all come within a second
      and the rate R is below 2^31; so the bound on a burst is attained. */
  lemma {:induction false} FreshBurstGetsIn(xs: seq<IcmpSeen>, rate: u32)
    requires xs != [] && |xs| <= 1 + rate && rate < 0x8000_0000 && FixedRate(xs, rate) && Monotone(xs)
    requires Last(xs).time - xs[0].time < SECOND
    ensures Admits(xs) && Admitted(xs, 0) == |xs|
    ensures After(xs).Some? && After(xs).value.tokens >= rate + 1 - |xs| && After(xs).value.lastUpdate == Last(xs).time
  {
    hide Refill;
    StoredTokens(xs, rate);
    if |xs| == 1 {
      FirstGetsIn(xs);
      assert Admitted(Most(xs), 0) == 0;
    } else {
      FreshBurstGetsIn(Most(xs), rate);
      StoredTokens(Most(xs), rate);
      ShortGap(After(Most(xs)).value, Last(xs).time, rate);
    }
  }
}
