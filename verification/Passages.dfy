/** From what a check lets through to what the whole program passes: the bridge between a tracker's bound
    and a bound on frames. */
module Passages {
  import opened Machine
  import opened Histories
  import opened Packets
  import opened XdpProgram

  /** How many of the frames of a kind the program passes from event `lo` on. */
  function FramesPassed(es: seq<Event>, lo: nat, kind: Frame -> bool): nat {
    if |es| <= lo then 0
    else FramesPassed(Most(es), lo, kind) + if kind(Last(es).frame) && LastVerdict(es) == Pass then 1 else 0
  }

  /** What one frame adds to a check's history of a source: nothing, and then it is no frame that counts, or one input
      at a time and within a limit, which the check lets through if the frame counts. */
  ghost predicate Adds<A>(before: seq<Seen<u32, A>>, after: seq<Seen<u32, A>>, time: u64, limit: A -> bool,
                          counts: bool, lets: seq<Seen<u32, A>> -> bool) {
    || (after == before && !counts)
    || (&& after != [] && Most(after) == before && Last(after).time == time && limit(Last(after).what)
        && (counts ==> lets(after)))
  }

  lemma {:induction false} AddsNothing<A>(xs: seq<Seen<u32, A>>, time: u64, limit: A -> bool,
                                          lets: seq<Seen<u32, A>> -> bool)
    ensures Adds(xs, xs, time, limit, false, lets)
  {
  }

  lemma {:induction false} AddsInput<A>(xs: seq<Seen<u32, A>>, x: Seen<u32, A>, source: u32, limit: A -> bool,
                                        counts: bool, lets: seq<Seen<u32, A>> -> bool)
    requires counts ==> x.key == source && lets(Of(xs, source) + [x])
    requires limit(x.what)
    ensures Adds(Of(xs, source), Of(xs + [x], source), x.time, limit, counts, lets)
  {
    OfSnoc(xs, x, source);
    assert Most(Of(xs, source) + [x]) == Of(xs, source);
  }

  /** A later objection does not undo what was added. */
  lemma {:induction false} AddsLater<A>(before: seq<Seen<u32, A>>, after: seq<Seen<u32, A>>, time: u64,
                                        limit: A -> bool, early: bool, counts: bool, lets: seq<Seen<u32, A>> -> bool)
    requires Adds(before, after, time, limit, early, lets) && (counts ==> early)
    ensures Adds(before, after, time, limit, counts, lets)
  {
  }

  /** The inputs from index `n` on lie between two times and within a limit. */
  ghost predicate Covered<A>(xs: seq<Seen<u32, A>>, n: nat, from: u64, to: u64, limit: A -> bool) {
    n <= |xs| && forall i :: n <= i < |xs| ==> from <= xs[i].time <= to && limit(xs[i].what)
  }

  lemma {:induction false} AddsToCovered<A>(before: seq<Seen<u32, A>>, after: seq<Seen<u32, A>>, time: u64,
                                            limit: A -> bool, counts: bool, lets: seq<Seen<u32, A>> -> bool,
                                            n: nat, from: u64, to: u64)
    requires Adds(before, after, time, limit, counts, lets)
    requires Covered(before, n, from, to, limit) && from <= time && to <= time
    ensures Covered(after, n, from, time, limit)
    ensures CountFrom(after, n, lets) >= CountFrom(before, n, lets) + if counts then 1 else 0
  {
    if after != before {
      MostAndLast(after);
    }
  }

  /** What the last event of a run adds to a check's history. */
  ghost predicate EventAdds<A>(es: seq<Event>, kind: Frame -> bool, history: seq<Event> -> seq<Seen<u32, A>>,
                               time: Clock -> u64, limit: A -> bool, lets: seq<Seen<u32, A>> -> bool)
    requires es != []
  {
    Adds(history(Most(es)), history(es), time(Last(es).clock), limit,
         kind(Last(es).frame) && LastVerdict(es) == Pass, lets)
  }

  /** The clock readings of one place in the program do not run backwards over a run. */
  ghost predicate InOrder(es: seq<Event>, time: Clock -> u64) {
    forall i, j :: 0 <= i <= j < |es| ==> time(es[i].clock) <= time(es[j].clock)
  }

  lemma {:induction false} NothingCovered<A>(xs: seq<Seen<u32, A>>, from: u64, limit: A -> bool,
                                             lets: seq<Seen<u32, A>> -> bool)
    ensures Covered(xs, |xs|, from, from, limit) && CountFrom(xs, |xs|, lets) == 0
  {
  }

  /** The frames of a kind that the program passes are among the inputs that the check lets through, and those lie
      at the times of their events and within the limit. */
  lemma {:induction false} PassedAreLetThrough<A>(
    es: seq<Event>, lo: nat, kind: Frame -> bool, history: seq<Event> -> seq<Seen<u32, A>>,
    time: Clock -> u64, limit: A -> bool, lets: seq<Seen<u32, A>> -> bool)
    requires lo < |es| && InOrder(es, time)
    requires forall m :: lo < m <= |es| ==> EventAdds(es[..m], kind, history, time, limit, lets)
    ensures var n, xs := |history(es[..lo])|, history(es);
            && FramesPassed(es, lo, kind) <= CountFrom(xs, n, lets)
            && Covered(xs, n, time(es[lo].clock), time(Last(es).clock), limit)
  {
    hide Adds, Covered, LastVerdict;
    var most, from := Most(es), time(es[lo].clock);
    var n, counts := |history(es[..lo])|, kind(Last(es).frame) && LastVerdict(es) == Pass;
    assert es[..|es|] == es;
    assert EventAdds(es[..|es|], kind, history, time, limit, lets);
    if lo == |most| {
      assert es[..lo] == most;
      NothingCovered(history(most), from, limit, lets);
      AddsToCovered(history(most), history(es), time(Last(es).clock), limit, counts, lets, n, from, from);
    } else {
      assert forall m :: 0 <= m <= |most| ==> most[..m] == es[..m];
      PassedAreLetThrough(most, lo, kind, history, time, limit, lets);
      AddsToCovered(history(most), history(es), time(Last(es).clock), limit, counts, lets, n, from,
                    time(Last(most).clock));
    }
  }
}
