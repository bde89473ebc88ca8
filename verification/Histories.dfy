/** What one check of the filter has seen during a run: the keyed, timed inputs it was given, in order.
    The program keeps only a few counters; these lists say what the counters are supposed to be about. */
module Histories {
  import opened Machine

  /** One input of a check: the map key it was filed under, the clock reading, and the rest of the input. */
  datatype Seen<+K, +A> = Seen(key: K, time: u64, what: A)

  function Most<T>(xs: seq<T>): seq<T>
    requires xs != []
  {
    xs[..|xs| - 1]
  }

  function Last<T>(xs: seq<T>): T
    requires xs != []
  {
    xs[|xs| - 1]
  }

  lemma {:induction false} MostAndLast<T>(xs: seq<T>)
    requires xs != []
    ensures xs == Most(xs) + [Last(xs)]
  {
  }

  ghost predicate Monotone<K, A>(xs: seq<Seen<K, A>>) {
    forall i, j :: 0 <= i <= j < |xs| ==> xs[i].time <= xs[j].time
  }

  /** The inputs filed under one key, in order. */
  function Of<K(==), A>(xs: seq<Seen<K, A>>, key: K): (r: seq<Seen<K, A>>) {
    if xs == [] then []
    else if Last(xs).key == key then Of(Most(xs), key) + [Last(xs)]
    else Of(Most(xs), key)
  }

  lemma {:induction false} OfSnoc<K, A>(xs: seq<Seen<K, A>>, x: Seen<K, A>, key: K)
    ensures Of(xs + [x], key) == if x.key == key then Of(xs, key) + [x] else Of(xs, key)
  {
    assert Most(xs + [x]) == xs;
  }

  lemma {:induction false} OfMember<K, A>(xs: seq<Seen<K, A>>, key: K, x: Seen<K, A>)
    ensures x in Of(xs, key) <==> x in xs && x.key == key
  {
    if xs == [] {
    } else {
      OfMember(Most(xs), key, x);
      assert xs == Most(xs) + [Last(xs)];
    }
  }

  lemma {:induction false} MonotoneSnoc<K, A>(xs: seq<Seen<K, A>>, x: Seen<K, A>)
    requires Monotone(xs)
    requires forall y :: y in xs ==> y.time <= x.time
    ensures Monotone(xs + [x])
  {
    var ys := xs + [x];
    forall i, j | 0 <= i <= j < |ys| ensures ys[i].time <= ys[j].time {
      if j == |xs| && i < |xs| {
        assert xs[i] in xs;
      }
    }
  }

  lemma {:induction false} OfMonotone<K, A>(xs: seq<Seen<K, A>>, key: K)
    requires Monotone(xs)
    ensures Monotone(Of(xs, key))
  {
    if xs == [] {
    } else {
      OfMonotone(Most(xs), key);
      if Last(xs).key == key {
        var before := Of(Most(xs), key);
        forall y | y in before ensures y.time <= Last(xs).time {
          OfMember(Most(xs), key, y);
          assert y in Most(xs);
        }
        MonotoneSnoc(before, Last(xs));
      }
    }
  }

  /** The index of the input that opened the current window: the first input opens one, and so does every
      input at least a second after the opening of the window before it. */
  function WindowStart<K, A>(xs: seq<Seen<K, A>>): (start: nat)
    requires xs != []
    ensures start < |xs|
  {
    if |xs| == 1 then 0
    else
      var start := WindowStart(Most(xs));
      if Last(xs).time - xs[start].time >= 1_000_000_000 then |xs| - 1 else start
  }

  /** Two windows never open within a second of each other, and every input of the open window lies
      less than a second after its opening. */
  lemma {:induction false} WindowIsShort<K, A>(xs: seq<Seen<K, A>>)
    requires xs != [] && Monotone(xs)
    ensures forall i :: WindowStart(xs) <= i < |xs| ==> 0 <= xs[i].time - xs[WindowStart(xs)].time < SECOND
    ensures |xs| > 1 && WindowStart(xs) == |xs| - 1 ==> xs[|xs| - 1].time - xs[WindowStart(Most(xs))].time >= SECOND
  {
    if |xs| == 1 {
    } else {
      WindowIsShort(Most(xs));
    }
  }

  /** An input before the current window lies strictly before its opening. */
  lemma {:induction false} BeforeTheWindow<K, A>(xs: seq<Seen<K, A>>, lo: nat)
    requires Monotone(xs) && lo < |xs| && lo < WindowStart(xs)
    ensures xs[lo].time < xs[WindowStart(xs)].time
  {
    if WindowStart(xs) < |xs| - 1 {
      BeforeTheWindow(Most(xs), lo);
    } else {
      WindowIsShort(xs);
      WindowIsShort(Most(xs));
      if lo < WindowStart(Most(xs)) {
        BeforeTheWindow(Most(xs), lo);
      }
    }
  }

  /** Within one second there are inputs of two windows at most: the window before the current one
      was still open at its opening only if nothing older than a second is left out. */
  lemma {:induction false} TwoWindows<K, A>(xs: seq<Seen<K, A>>, lo: nat)
    requires lo < |xs| && Monotone(xs) && Last(xs).time - xs[lo].time <= SECOND && lo < WindowStart(xs)
    ensures WindowStart(xs[..WindowStart(xs)]) <= lo
  {
    var w := WindowStart(xs);
    if w < |xs| - 1 {
      TwoWindows(Most(xs), lo);
      assert Most(xs)[..w] == xs[..w];
    } else {
      var before := xs[..w];
      assert before == Most(xs);
      WindowIsShort(xs);
      WindowIsShort(before);
      if lo < WindowStart(before) {
        BeforeTheWindow(before, lo);
      }
    }
  }

  /** How many inputs from index `lo` on are of a kind, judged with all the inputs before them. */
  function CountFrom<T>(xs: seq<T>, lo: nat, kind: seq<T> -> bool): nat {
    if |xs| <= lo then 0 else CountFrom(Most(xs), lo, kind) + if kind(xs) then 1 else 0
  }

  lemma {:induction false} CountSplit<T>(xs: seq<T>, lo: nat, mid: nat, kind: seq<T> -> bool)
    requires lo <= mid <= |xs|
    ensures CountFrom(xs, lo, kind) == CountFrom(xs[..mid], lo, kind) + CountFrom(xs, mid, kind)
  {
    if mid == |xs| {
      assert xs[..mid] == xs;
    } else {
      CountSplit(Most(xs), lo, mid, kind);
      assert Most(xs)[..mid] == xs[..mid];
    }
  }

  /** In order, and nothing later than `t`. */
  ghost predicate UpTo<K, A>(xs: seq<Seen<K, A>>, t: u64) {
    Monotone(xs) && forall x :: x in xs ==> x.time <= t
  }

  /** The map `m` holds, for every key, what the inputs filed under that key make of an absent entry;
      the inputs are in order and none is later than `t`. */
  ghost predicate Keeps<K(!new), A, I>(m: map<K, I>, xs: seq<Seen<K, A>>, t: u64, after: seq<Seen<K, A>> -> Option<I>) {
    UpTo(xs, t) && forall k: K :: Lookup(m, k) == after(Of(xs, k))
  }

  lemma {:induction false} UpToNext<K, A>(xs: seq<Seen<K, A>>, t: u64, x: Seen<K, A>)
    requires UpTo(xs, t) && t <= x.time
    ensures UpTo(xs + [x], x.time)
  {
    MonotoneSnoc(xs, x);
  }

  lemma {:induction false} KeepsNext<K(!new), A, I>(
    m: map<K, I>, xs: seq<Seen<K, A>>, t: u64, after: seq<Seen<K, A>> -> Option<I>, x: Seen<K, A>, entry: I)
    requires Keeps(m, xs, t, after) && t <= x.time && after(Of(xs, x.key) + [x]) == Some(entry)
    ensures Keeps(m[x.key := entry], xs + [x], x.time, after)
  {
    UpToNext(xs, t, x);
    forall k: K ensures Lookup(m[x.key := entry], k) == after(Of(xs + [x], k)) {
      OfSnoc(xs, x, k);
    }
  }

  lemma {:induction false} KeepsLater<K(!new), A, I>(
    m: map<K, I>, xs: seq<Seen<K, A>>, t: u64, after: seq<Seen<K, A>> -> Option<I>, later: u64)
    requires Keeps(m, xs, t, after) && t <= later
    ensures Keeps(m, xs, later, after)
  {
  }
}
