/** A run of a simulation that can fail part-way: a step function applied n
    times, the i-th application receiving loop index t + i, the first failure
    ending the run.  It is stated for an arbitrary step, so that what holds of
    the whole run follows from what holds of a single step. */
module Runs {
  import opened Errors

  /** The states before and after each of n steps, or the first step's error. */
  function Run<T>(step: (T, nat) -> Result<T>, x: T, t: nat, n: nat): (r: Result<seq<T>>)
    ensures r.Ok? ==> |r.value| == n + 1 && r.value[0] == x
    ensures n > 0 && step(x, t).Fail? ==> r == Fail(step(x, t).error)
    decreases n
  {
    if n == 0 then Ok([x])
    else
      var next :- step(x, t);
      var rest :- Run(step, next, t + 1, n - 1);
      Ok([x] + rest)
  }

  /** Consecutive states of a successful run are one step apart, the d-th
      step running with loop index t + d. */
  lemma {:induction false} RunSteps<T>(step: (T, nat) -> Result<T>, x: T, t: nat, n: nat, d: nat)
    requires Run(step, x, t, n).Ok? && d < n
    ensures step(Run(step, x, t, n).value[d], t + d) == Ok(Run(step, x, t, n).value[d + 1])
    decreases n
  {
    var next := step(x, t).value;
    var rest := Run(step, next, t + 1, n - 1).value;
    assert Run(step, x, t, n).value == [x] + rest;
    if d > 0 {
      RunSteps(step, next, t + 1, n - 1, d - 1);
    }
  }

  /** A run succeeds when some property of its start guarantees that each of
      its steps succeeds and passes the property on. */
  lemma {:induction false} RunSucceeds<T>(step: (T, nat) -> Result<T>, inv: T -> bool, x: T, t: nat, n: nat)
    requires forall y: T, i: nat :: t <= i < t + n && inv(y) ==> step(y, i).Ok? && inv(step(y, i).value)
    requires inv(x)
    ensures Run(step, x, t, n).Ok?
    decreases n
  {
    if n > 0 {
      var next := step(x, t).value;
      RunSucceeds(step, inv, next, t + 1, n - 1);
    }
  }

  /** A property that every successful step preserves holds at every state
      of a successful run that starts with it. */
  lemma {:induction false} RunInvariant<T>(step: (T, nat) -> Result<T>, inv: T -> bool, x: T, t: nat, n: nat, d: nat)
    requires forall y: T, i: nat :: inv(y) && step(y, i).Ok? ==> inv(step(y, i).value)
    requires inv(x) && Run(step, x, t, n).Ok? && d <= n
    ensures inv(Run(step, x, t, n).value[d])
    decreases n
  {
    if d > 0 {
      var next := step(x, t).value;
      RunInvariant(step, inv, next, t + 1, n - 1, d - 1);
      assert Run(step, x, t, n).value == [x] + Run(step, next, t + 1, n - 1).value;
    }
  }
}
