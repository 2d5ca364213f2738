/** `returnCounts` and the per-step output lists built from it. */
module Tally {
  import opened Agent

  /** The number of entries of `xs` equal to `x` (`returnCounts`). */
  function Count<T(==)>(xs: seq<T>, x: T): (r: nat)
    ensures r <= |xs|
    ensures r == 0 <==> x !in xs
    ensures r == |xs| <==> forall j :: 0 <= j < |xs| ==> xs[j] == x
    decreases |xs|
  {
    if |xs| == 0 then 0
    else Count(xs[..|xs| - 1], x) + (if xs[|xs| - 1] == x then 1 else 0)
  }

  /** Counting is additive over concatenation. */
  lemma {:induction false} CountAppend<T>(xs: seq<T>, ys: seq<T>, x: T)
    ensures Count(xs + ys, x) == Count(xs, x) + Count(ys, x)
    decreases |ys|
  {
    if |ys| == 0 {
      assert xs + ys == xs;
    } else {
      var ys' := ys[..|ys| - 1];
      assert (xs + ys)[..|xs + ys| - 1] == xs + ys';
      CountAppend(xs, ys', x);
    }
  }

  /** If every `x` of `before` is still an `x` in `after`, there are at least
      as many `x` after.  With x = R this is "R never decreases"; with x = S
      and the arguments swapped it is "S never increases". */
  lemma {:induction false} CountKept<T>(before: seq<T>, after: seq<T>, x: T)
    requires |before| == |after|
    requires forall j :: 0 <= j < |before| && before[j] == x ==> after[j] == x
    ensures Count(before, x) <= Count(after, x)
    decreases |before|
  {
    if |before| > 0 {
      var n := |before| - 1;
      var b, a := before[..n], after[..n];
      assert forall j :: 0 <= j < |b| && b[j] == x ==> a[j] == x by {
        forall j | 0 <= j < |b| && b[j] == x ensures a[j] == x {
          assert b[j] == before[j] && a[j] == after[j];
        }
      }
      CountKept(b, a, x);
      assert Count(before, x) == Count(b, x) + (if before[n] == x then 1 else 0);
      assert Count(after, x) == Count(a, x) + (if after[n] == x then 1 else 0);
    }
  }

  /** Every agent is in exactly one of S, I and R, so the three tallies add up
      to the population size. */
  lemma {:induction false} CountsPartition(states: seq<State>)
    ensures Count(states, S) + Count(states, I) + Count(states, R) == |states|
    decreases |states|
  {
    if |states| > 0 {
      var n := |states| - 1;
      CountsPartition(states[..n]);
      assert Count(states, S) == Count(states[..n], S) + (if states[n] == S then 1 else 0);
      assert Count(states, I) == Count(states[..n], I) + (if states[n] == I then 1 else 0);
      assert Count(states, R) == Count(states[..n], R) + (if states[n] == R then 1 else 0);
    }
  }

  /** Seeding shape: the first m agents infected, the rest susceptible. */
  lemma {:induction false} CountsOfSeeded(states: seq<State>, m: nat)
    requires m <= |states|
    requires forall j :: 0 <= j < |states| ==> states[j] == if j < m then I else S
    ensures Count(states, I) == m
    ensures Count(states, S) == |states| - m
    ensures Count(states, R) == 0
    decreases |states|
  {
    if |states| > 0 {
      var n := |states| - 1;
      if m == |states| {
        CountsOfSeeded(states[..n], m - 1);
      } else {
        CountsOfSeeded(states[..n], m);
      }
    }
  }

  /** The three output lists S, I, R of a run. */
  datatype Series = Series(S: seq<nat>, I: seq<nat>, R: seq<nat>)

  /** Entry d of each list of `r` counts that state on day d of `traj`. */
  predicate Tallies(r: Series, traj: seq<seq<State>>)
  {
    && |r.S| == |traj| && |r.I| == |traj| && |r.R| == |traj|
    && forall d :: 0 <= d < |traj| ==>
         r.S[d] == Count(traj[d], S) && r.I[d] == Count(traj[d], I) && r.R[d] == Count(traj[d], R)
  }

  /** The tallies of each population state of a run, one entry per state. */
  function SeriesOf(traj: seq<seq<State>>): (r: Series)
    ensures |r.S| == |traj| && |r.I| == |traj| && |r.R| == |traj|
    ensures Tallies(r, traj)
    ensures forall d :: 0 <= d < |traj| ==> r.S[d] + r.I[d] + r.R[d] == |traj[d]|
  {
    forall d | 0 <= d < |traj| ensures Count(traj[d], S) + Count(traj[d], I) + Count(traj[d], R) == |traj[d]| {
      CountsPartition(traj[d]);
    }
    Series(seq(|traj|, d requires 0 <= d < |traj| => Count(traj[d], S)),
           seq(|traj|, d requires 0 <= d < |traj| => Count(traj[d], I)),
           seq(|traj|, d requires 0 <= d < |traj| => Count(traj[d], R)))
  }

  /** A sequence that never decreases from one entry to the next. */
  predicate NonDecreasing(xs: seq<nat>)
  {
    forall d :: 0 < d < |xs| ==> xs[d - 1] <= xs[d]
  }

  /** A sequence that never increases from one entry to the next. */
  predicate NonIncreasing(xs: seq<nat>)
  {
    forall d :: 0 < d < |xs| ==> xs[d - 1] >= xs[d]
  }

  /** No agent leaves R and none enters S between two consecutive states. */
  predicate Progresses(before: seq<State>, after: seq<State>)
  {
    && |before| == |after|
    && (forall j :: 0 <= j < |before| && before[j] == R ==> after[j] == R)
    && (forall j :: 0 <= j < |before| && after[j] == S ==> before[j] == S)
  }

  /** When every step of a run progresses, R never decreases and S never increases. */
  lemma SeriesMonotone(traj: seq<seq<State>>)
    requires forall d :: 0 < d < |traj| ==> Progresses(traj[d - 1], traj[d])
    ensures NonDecreasing(SeriesOf(traj).R)
    ensures NonIncreasing(SeriesOf(traj).S)
  {
    var r := SeriesOf(traj);
    forall d | 0 < d < |traj|
      ensures r.R[d - 1] <= r.R[d] && r.S[d - 1] >= r.S[d]
    {
      CountKept(traj[d - 1], traj[d], R);
      CountKept(traj[d], traj[d - 1], S);
    }
  }
}
