/** The non-spatial random-contact simulation of sir/discreteSim.py: each day
    every infected agent, in index order, makes b random contacts that infect
    anyone not recovered, and afterwards every infected agent draws for
    recovery. */
module ContactSim {
  import opened Errors
  import opened Agent
  import opened Tally

  /** `random.choice(np.arange(0, n - 1))` with the draw as input: draw u picks
      entry u % (n - 1) of the range 0..n-2, which is empty (and numpy raises)
      when n < 2. */
  function ChooseTarget(n: nat, u: nat): (r: Result<nat>)
    ensures r.Ok? <==> n >= 2
    ensures r.Fail? ==> r.error == EmptyChoice
    ensures r.Ok? ==> r.value < n - 1
  {
    if n < 2 then Fail(EmptyChoice) else Ok(u % (n - 1))
  }

  /** Every index 0..n-2 can be drawn, and n - 1 never can. */
  lemma TargetRange(n: nat, x: nat)
    requires n >= 2
    ensures x < n - 1 ==> ChooseTarget(n, x) == Ok(x)
    ensures forall u: nat :: ChooseTarget(n, u) != Ok(n - 1)
  {
  }

  /** The targets the draws pick in a population of n (all below n - 1). */
  function Targets(n: nat, draws: seq<nat>): (r: seq<nat>)
    requires n >= 2
    ensures |r| == |draws|
    ensures forall c :: 0 <= c < |draws| ==> Ok(r[c]) == ChooseTarget(n, draws[c])
  {
    seq(|draws|, c requires 0 <= c < |draws| => draws[c] % (n - 1))
  }

  /** The b contacts of initiator i, one draw each: a contacted agent becomes
      infected unless it is the initiator itself or recovered. */
  function Contacts(states: seq<State>, i: nat, draws: seq<nat>): (r: Result<seq<State>>)
    requires i < |states|
    ensures r.Ok? <==> |states| >= 2 || |draws| == 0
    ensures r.Fail? ==> r.error == EmptyChoice
    ensures r.Ok? ==> |r.value| == |states|
    ensures r.Ok? && |states| < 2 ==> r.value == states
    decreases |draws|
  {
    if |draws| == 0 then Ok(states)
    else
      var target :- ChooseTarget(|states|, draws[0]);
      var next := if target == i || states[target] == R then states else states[target := I];
      Contacts(next, i, draws[1..])
  }

  /** The contacts infect exactly the drawn targets that are neither the
      initiator nor recovered. */
  lemma {:induction false} ContactsEffect(states: seq<State>, i: nat, draws: seq<nat>)
    requires i < |states| && |states| >= 2
    ensures var r := Contacts(states, i, draws).value;
      forall j :: 0 <= j < |states| ==>
        r[j] == if j != i && states[j] != R && j in Targets(|states|, draws) then I else states[j]
    decreases |draws|
  {
    if |draws| > 0 {
      var target := ChooseTarget(|states|, draws[0]).value;
      var next := if target == i || states[target] == R then states else states[target := I];
      assert Contacts(states, i, draws) == Contacts(next, i, draws[1..]);
      assert Targets(|states|, draws) == [target] + Targets(|states|, draws[1..]);
      ContactsEffect(next, i, draws[1..]);
    }
  }

  /** The contact draws of one day: b per agent. */
  predicate ContactShaped(contacts: seq<seq<nat>>, n: nat, b: nat)
  {
    |contacts| == n && forall i :: 0 <= i < n ==> |contacts[i]| == b
  }

  /** Agent i's turn in `simulateInteractions`: S and R agents are skipped,
      an infected agent makes its contacts. */
  function Turn(states: seq<State>, i: nat, draws: seq<nat>): (r: Result<seq<State>>)
    requires i < |states|
    ensures states[i] != I ==> r == Ok(states)
    ensures states[i] == I ==> r == Contacts(states, i, draws)
  {
    match states[i]
    case R => Ok(states)
    case S => Ok(states)
    case I => Contacts(states, i, draws)
  }

  /** `simulateInteractions`: the turns of agents lo..hi-1 in index order; only
      an agent infected at its turn makes contacts, so an agent infected
      earlier in the same pass makes its own, and with no infected agent in
      the range nothing happens.  No agent leaves R or re-enters S, and the
      last agent, which no draw can pick, is untouched. */
  function Interactions(states: seq<State>, contacts: seq<seq<nat>>, b: nat, lo: nat, hi: nat): (r: Result<seq<State>>)
    requires ContactShaped(contacts, |states|, b) && lo <= hi <= |states|
    ensures |states| >= 2 || b == 0 ==> r.Ok?
    ensures r.Fail? ==> r.error == EmptyChoice
    ensures r.Ok? ==> InfectsOnly(states, r.value)
    ensures (forall j :: lo <= j < hi ==> states[j] != I) ==> r == Ok(states)
    decreases hi - lo
  {
    if lo == hi then Ok(states)
    else
      var next :- Turn(states, lo, contacts[lo]);
      ContactsInfectOnly(states, lo, contacts[lo]);
      var after := Interactions(next, contacts, b, lo + 1, hi).value;
      InfectOnlyChains(states, next, after);
      Ok(after)
  }

  /** From one list of states to the next, agents only ever become I, R is
      never touched, and the last agent, which no draw can pick, is left alone. */
  predicate InfectsOnly(before: seq<State>, after: seq<State>)
  {
    && Progresses(before, after)
    && (|before| > 0 ==> after[|before| - 1] == before[|before| - 1])
    && forall j :: 0 <= j < |before| && after[j] != before[j] ==> after[j] == I
  }

  /** One initiator's contacts only infect. */
  lemma ContactsInfectOnly(states: seq<State>, i: nat, draws: seq<nat>)
    requires i < |states|
    ensures Contacts(states, i, draws).Ok? ==> InfectsOnly(states, Contacts(states, i, draws).value)
  {
    var r := Contacts(states, i, draws);
    if r.Ok? && |states| >= 2 {
      ContactsEffect(states, i, draws);
      var targets := Targets(|states|, draws);
      assert forall x :: x in targets ==> x < |states| - 1;
    }
  }

  /** Two rounds that only infect make one round that only infects. */
  lemma InfectOnlyChains(a: seq<State>, b: seq<State>, c: seq<State>)
    requires InfectsOnly(a, b) && InfectsOnly(b, c)
    ensures InfectsOnly(a, c)
  {
  }

  /** A single infected agent with at least one contact to make and nobody to
      choose from raises ValueError. */
  lemma LoneInfectedFails(contacts: seq<seq<nat>>, b: nat)
    requires ContactShaped(contacts, 1, b) && b > 0
    ensures Interactions([I], contacts, b, 0, 1) == Fail(EmptyChoice)
  {
    assert contacts[0] != [];
  }

  /** `simulateRecoveries`: an infected agent recovers exactly when its draw is
      at most k; S and R agents are left alone. */
  function Recoveries(states: seq<State>, draws: seq<real>, k: real): (r: seq<State>)
    requires |draws| == |states|
    ensures |r| == |states|
    ensures Progresses(states, r)
    ensures forall j :: 0 <= j < |states| ==> (r[j] == R <==> states[j] == R || (states[j] == I && draws[j] <= k))
    ensures forall j :: 0 <= j < |states| && states[j] != I ==> r[j] == states[j]
  {
    seq(|states|, j requires 0 <= j < |states| => if states[j] == I && draws[j] <= k then R else states[j])
  }

  /** The draws of one day after day 0. */
  datatype DayDraws = DayDraws(contacts: seq<seq<nat>>, recover: seq<real>)

  predicate DaysShaped(days: seq<DayDraws>, n: nat, b: nat)
  {
    forall d :: 0 <= d < |days| ==> ContactShaped(days[d].contacts, n, b) && |days[d].recover| == n
  }

  /** The draws after the first day keep their shape. */
  lemma DaysShapedTail(days: seq<DayDraws>, n: nat, b: nat)
    requires |days| > 0 && DaysShaped(days, n, b)
    ensures DaysShaped(days[1..], n, b)
  {
    forall d | 0 <= d < |days| - 1 ensures ContactShaped(days[1..][d].contacts, n, b) && |days[1..][d].recover| == n {
      assert days[1..][d] == days[d + 1];
    }
  }

  /** One day: all interactions, then all recoveries. */
  function Day(states: seq<State>, draws: DayDraws, b: nat, k: real): (r: Result<seq<State>>)
    requires ContactShaped(draws.contacts, |states|, b) && |draws.recover| == |states|
    ensures |states| >= 2 || b == 0 ==> r.Ok?
    ensures r.Ok? ==> Progresses(states, r.value)
    ensures r.Ok? && |states| > 0 && states[|states| - 1] == S ==> r.value[|states| - 1] == S
  {
    var met :- Interactions(states, draws.contacts, b, 0, |states|);
    Ok(Recoveries(met, draws.recover, k))
  }

  /** Interactions come first, so an agent infected by a contact recovers the
      same day when its recovery draw is at most k. */
  lemma SameDayRecovery(states: seq<State>, draws: DayDraws, b: nat, k: real, j: nat)
    requires ContactShaped(draws.contacts, |states|, b) && |draws.recover| == |states|
    requires j < |states| && states[j] == S && draws.recover[j] <= k
    requires Interactions(states, draws.contacts, b, 0, |states|).Ok?
    requires Interactions(states, draws.contacts, b, 0, |states|).value[j] == I
    ensures Day(states, draws, b, k).Ok? && Day(states, draws, b, k).value[j] == R
  {
  }

  /** The states on days 0, 1, ...; the first failing day fails the run. */
  function Days(states: seq<State>, days: seq<DayDraws>, b: nat, k: real): (r: Result<seq<seq<State>>>)
    requires DaysShaped(days, |states|, b)
    ensures |states| >= 2 || b == 0 ==> r.Ok?
    ensures r.Ok? ==> |r.value| == |days| + 1 && r.value[0] == states
    ensures r.Ok? ==> forall d :: 0 <= d < |r.value| ==> |r.value[d]| == |states|
    ensures r.Ok? ==> forall d :: 0 < d < |r.value| ==> Progresses(r.value[d - 1], r.value[d])
    ensures r.Ok? && |states| > 0 && states[|states| - 1] == S ==>
      forall d :: 0 <= d < |r.value| ==> r.value[d][|states| - 1] == S
    ensures |days| > 0 && Day(states, days[0], b, k).Fail? ==> r.Fail?
    decreases |days|
  {
    if |days| == 0 then Ok([states])
    else
      var next :- Day(states, days[0], b, k);
      DaysShapedTail(days, |states|, b);
      var rest :- Days(next, days[1..], b, k);
      PrependDay(states, next, rest);
      Ok([states] + rest)
  }

  /** Putting a day in front of a run from the state it steps to keeps the
      run's size, progress and last-susceptible promises. */
  lemma PrependDay(states: seq<State>, next: seq<State>, rest: seq<seq<State>>)
    requires Progresses(states, next)
    requires |states| > 0 && states[|states| - 1] == S ==> next[|states| - 1] == S
    requires |rest| > 0 && rest[0] == next
    requires forall d :: 0 <= d < |rest| ==> |rest[d]| == |next|
    requires forall d :: 0 < d < |rest| ==> Progresses(rest[d - 1], rest[d])
    requires |next| > 0 && next[|next| - 1] == S ==> forall d :: 0 <= d < |rest| ==> rest[d][|next| - 1] == S
    ensures var traj := [states] + rest;
      && |traj| == |rest| + 1 && traj[0] == states
      && (forall d :: 0 <= d < |traj| ==> |traj[d]| == |states|)
      && (forall d :: 0 < d < |traj| ==> Progresses(traj[d - 1], traj[d]))
      && (|states| > 0 && states[|states| - 1] == S ==> forall d :: 0 <= d < |traj| ==> traj[d][|states| - 1] == S)
  {
    var traj := [states] + rest;
    assert forall d :: 0 < d < |traj| ==> traj[d] == rest[d - 1];
  }

  /** Each state list of a run is Day applied to the one before it with that
      day's draws. */
  lemma {:induction false} DaysSteps(states: seq<State>, days: seq<DayDraws>, b: nat, k: real)
    requires DaysShaped(days, |states|, b)
    ensures Days(states, days, b, k).Ok? ==>
      forall d :: 0 <= d < |days| ==> Day(Days(states, days, b, k).value[d], days[d], b, k) == Ok(Days(states, days, b, k).value[d + 1])
    decreases |days|
  {
    var r := Days(states, days, b, k);
    if |days| > 0 && r.Ok? {
      var next := Day(states, days[0], b, k).value;
      DaysSteps(next, days[1..], b, k);
      var rest := Days(next, days[1..], b, k).value;
      assert r.value == [states] + rest;
      forall d | 0 <= d < |days| ensures Day(r.value[d], days[d], b, k) == Ok(r.value[d + 1]) {
        if d > 0 {
          assert days[d] == days[1..][d - 1];
        }
      }
    }
  }

  /** The people array after patient zero: agent 0 infected, the rest susceptible. */
  function PatientZero(n: nat): (r: seq<State>)
    requires n >= 1
    ensures |r| == n
    ensures forall j :: 0 <= j < n ==> r[j] == if j < 1 then I else S
  {
    [I] + seq(n - 1, j => S)
  }

  /** While the last agent stays susceptible, every day counts at least one S. */
  lemma LastSusceptibleCounted(start: seq<State>, traj: seq<seq<State>>)
    requires forall d :: 0 <= d < |traj| ==> |traj[d]| == |start|
    requires |start| > 0 && start[|start| - 1] == S ==> forall d :: 0 <= d < |traj| ==> traj[d][|start| - 1] == S
    ensures |start| > 0 && start[|start| - 1] == S ==> forall d :: 0 <= d < |traj| ==> Count(traj[d], S) >= 1
  {
    if |start| > 0 && start[|start| - 1] == S {
      forall d | 0 <= d < |traj| ensures Count(traj[d], S) >= 1 {
        assert traj[d][|start| - 1] in traj[d];
      }
    }
  }

  /** The tallies of a run that keeps its size and progresses every day: they
      add up to n, R never decreases, S never increases, day 0 tallies the
      start, and S stays at least 1 while the last agent stays susceptible. */
  lemma SeriesFacts(start: seq<State>, traj: seq<seq<State>>)
    requires |traj| > 0 && traj[0] == start
    requires forall d :: 0 <= d < |traj| ==> |traj[d]| == |start|
    requires forall d :: 0 < d < |traj| ==> Progresses(traj[d - 1], traj[d])
    requires |start| > 0 && start[|start| - 1] == S ==> forall d :: 0 <= d < |traj| ==> traj[d][|start| - 1] == S
    ensures var r := SeriesOf(traj);
      && (forall d :: 0 <= d < |traj| ==> r.S[d] + r.I[d] + r.R[d] == |start|)
      && NonDecreasing(r.R) && NonIncreasing(r.S)
      && r.S[0] == Count(start, S) && r.I[0] == Count(start, I) && r.R[0] == Count(start, R)
      && (|start| > 0 && start[|start| - 1] == S ==> forall d :: 0 <= d < |traj| ==> r.S[d] >= 1)
  {
    SeriesMonotone(traj);
    LastSusceptibleCounted(start, traj);
  }

  /** The output lists of the days from a starting population: entry d of
      each list tallies that state on day d, so the entries add up to n, R
      never decreases, S never increases, and S stays at least 1 while the
      last agent is susceptible at the start. */
  function DaysSeries(start: seq<State>, days: seq<DayDraws>, b: nat, k: real): (r: Result<Series>)
    requires DaysShaped(days, |start|, b)
    ensures |start| >= 2 || b == 0 ==> r.Ok?
    ensures |days| > 0 && Day(start, days[0], b, k).Fail? ==> r.Fail?
    ensures r.Ok? ==> |r.value.S| == |days| + 1 && |r.value.I| == |days| + 1 && |r.value.R| == |days| + 1
    ensures r.Ok? ==> forall d :: 0 <= d <= |days| ==> r.value.S[d] + r.value.I[d] + r.value.R[d] == |start|
    ensures r.Ok? ==> NonDecreasing(r.value.R) && NonIncreasing(r.value.S)
    ensures r.Ok? ==> r.value.S[0] == Count(start, S) && r.value.I[0] == Count(start, I) && r.value.R[0] == Count(start, R)
    ensures r.Ok? && |start| > 0 && start[|start| - 1] == S ==> forall d :: 0 <= d <= |days| ==> r.value.S[d] >= 1
    ensures r.Ok? ==> Days(start, days, b, k).Ok? && Tallies(r.value, Days(start, days, b, k).value)
  {
    var traj :- Days(start, days, b, k);
    SeriesFacts(start, traj);
    Ok(SeriesOf(traj))
  }

  /** A lone patient zero cannot make its first day's contacts. */
  lemma LonePatientZeroFails(n: nat, b: nat, k: real, days: seq<DayDraws>)
    requires n >= 1 && DaysShaped(days, n, b)
    ensures n == 1 && |days| > 0 && b > 0 ==> Day(PatientZero(n), days[0], b, k).Fail?
  {
    if n == 1 && |days| > 0 && b > 0 {
      assert PatientZero(n) == [I];
      LoneInfectedFails(days[0].contacts, b);
    }
  }

  /** The run from patient zero succeeds unless a lone agent must make a
      contact, and its first tallies are (n - 1, 1, 0). */
  lemma PatientZeroSeries(n: nat, b: nat, k: real, days: seq<DayDraws>)
    requires n >= 1 && DaysShaped(days, n, b)
    ensures var r := DaysSeries(PatientZero(n), days, b, k);
      && (r.Ok? <==> n >= 2 || |days| == 0 || b == 0)
      && (r.Ok? ==> r.value.S[0] == n - 1 && r.value.I[0] == 1 && r.value.R[0] == 0)
  {
    LonePatientZeroFails(n, b, k, days);
    CountsOfSeeded(PatientZero(n), 1);
  }

  /** `simulateSIR(n, b, k, t)` with the draws of days 1..t-1 as input.  It
      fails when there is nobody to be patient zero, and when a lone agent
      must make a contact; otherwise entry d of the lists tallies day d of
      the run from patient zero, so they have t entries adding up to n,
      start at (n - 1, 1, 0), R never decreases, S never increases, and the
      last agent, never contacted, keeps S at least 1. */
  function SimulateSIR(n: nat, b: nat, k: real, t: nat, days: seq<DayDraws>): (r: Result<Series>)
    requires |days| == (if t == 0 then 0 else t - 1) && DaysShaped(days, n, b)
    ensures r.Ok? <==> n >= 1 && (n >= 2 || t <= 1 || b == 0)
    ensures n == 0 ==> r == Fail(IndexOutOfRange)
    ensures r.Ok? ==> |r.value.S| == t && |r.value.I| == t && |r.value.R| == t
    ensures r.Ok? ==> forall d :: 0 <= d < t ==> r.value.S[d] + r.value.I[d] + r.value.R[d] == n
    ensures r.Ok? ==> NonDecreasing(r.value.R) && NonIncreasing(r.value.S)
    ensures r.Ok? && t >= 1 ==> r.value.S[0] == n - 1 && r.value.I[0] == 1 && r.value.R[0] == 0
    ensures r.Ok? && n >= 2 ==> forall d :: 0 <= d < t ==> r.value.S[d] >= 1
    ensures r.Ok? && t >= 1 ==>
              && Days(PatientZero(n), days, b, k).Ok?
              && Tallies(r.value, Days(PatientZero(n), days, b, k).value)
  {
    if n == 0 then Fail(IndexOutOfRange)
    else if t == 0 then Ok(Series([], [], []))
    else
      PatientZeroSeries(n, b, k, days);
      DaysSeries(PatientZero(n), days, b, k)
  }
}
