/** The random-contact simulation with asymptomatic and symptomatic infection
    of sir/varsim_tori.py: an infected initiator's contact with a susceptible
    agent infects it with probability a (asymptomatic initiator) or c
    (symptomatic initiator), the new infection being asymptomatic or
    symptomatic on a fair draw; recovery follows as in the base model. */
module ToriSim {
  import opened Errors
  import Tally
  import ContactSim

  /** The compartments 'S', 'I_A', 'I_S' and 'R'. */
  datatype Status = S | IA | IS | R

  predicate Infected(st: Status)
  {
    st == IA || st == IS
  }

  /** The draws of one contact: the target draw, the uniform value of the
      yes/no infection draw, and the index (0 or 1) of the sub-state draw. */
  datatype Contact = Contact(target: nat, infect: real, second: bool)

  /** `np.random.choice(['yes', 'no'], p=[prob, 1 - prob])` on uniform value u:
      'yes' exactly when u < prob; numpy rejects the call when either
      probability is negative, that is when prob is outside [0, 1]. */
  function Exposure(prob: real, u: real): (r: Result<bool>)
    ensures r.Ok? <==> 0.0 <= prob <= 1.0
    ensures r.Fail? ==> r.error == InvalidProbability
    ensures r.Ok? ==> (r.value <==> u < prob)
  {
    if prob < 0.0 || prob > 1.0 then Fail(InvalidProbability) else Ok(u < prob)
  }

  /** The sub-state of a new infection: `simulate_asymptomatic` draws from
      ['I_S', 'I_A'] and `simulate_symptomatic` from ['I_A', 'I_S']. */
  function NewInfection(byAsymptomatic: bool, second: bool): (r: Status)
    ensures Infected(r)
  {
    if byAsymptomatic then (if second then IA else IS)
    else (if second then IS else IA)
  }

  /** Whatever the infector's sub-state, the two outcomes of the fair draw are
      one asymptomatic and one symptomatic infection. */
  lemma NewInfectionFair(byAsymptomatic: bool)
    ensures {NewInfection(byAsymptomatic, false), NewInfection(byAsymptomatic, true)} == {IA, IS}
  {
  }

  /** `simulate_asymptomatic` / `simulate_symptomatic` for initiator i: each
      contact whose target is neither the initiator nor anything but
      susceptible draws for infection with probability `prob`.  Only
      susceptible agents other than the initiator change, and only to an
      infected state; the last agent, never a target, is untouched. */
  function Spread(states: seq<Status>, i: nat, prob: real, byAsymptomatic: bool, contacts: seq<Contact>): (r: Result<seq<Status>>)
    requires i < |states|
    ensures |states| >= 2 && 0.0 <= prob <= 1.0 ==> r.Ok?
    ensures |states| < 2 && |contacts| > 0 ==> r == Fail(EmptyChoice)
    ensures r.Ok? ==> |r.value| == |states|
    ensures r.Ok? ==> forall j :: 0 <= j < |states| && r.value[j] != states[j] ==>
      j != i && j != |states| - 1 && states[j] == S && Infected(r.value[j])
    decreases |contacts|
  {
    if |contacts| == 0 then Ok(states)
    else
      var c := contacts[0];
      var target :- ContactSim.ChooseTarget(|states|, c.target);
      if target == i || states[target] != S then Spread(states, i, prob, byAsymptomatic, contacts[1..])
      else
        var yes :- Exposure(prob, c.infect);
        var next := if yes then states[target := NewInfection(byAsymptomatic, c.second)] else states;
        Spread(next, i, prob, byAsymptomatic, contacts[1..])
  }

  /** Agent i's turn in `simulateInteractions`: S and R agents do nothing,
      I_A agents spread with probability a, every other agent with c. */
  function Turn(states: seq<Status>, i: nat, a: real, c: real, contacts: seq<Contact>): (r: Result<seq<Status>>)
    requires i < |states|
    ensures states[i] == S || states[i] == R ==> r == Ok(states)
    ensures states[i] == IA ==> r == Spread(states, i, a, true, contacts)
    ensures states[i] == IS ==> r == Spread(states, i, c, false, contacts)
  {
    if states[i] == R || states[i] == S then Ok(states)
    else if states[i] == IA then Spread(states, i, a, true, contacts)
    else Spread(states, i, c, false, contacts)
  }

  /** One contact of infected initiator i with susceptible agent j: j is
      infected exactly when the infection draw is below a for an asymptomatic
      initiator and below c for a symptomatic one. */
  lemma OneContactRule(states: seq<Status>, i: nat, j: nat, a: real, c: real, contact: Contact)
    requires i < |states| && j < |states| - 1 && i != j
    requires Infected(states[i]) && states[j] == S
    requires 0.0 <= a <= 1.0 && 0.0 <= c <= 1.0 && contact.target == j
    ensures var prob := if states[i] == IA then a else c;
      Turn(states, i, a, c, [contact]).Ok? &&
      (Infected(Turn(states, i, a, c, [contact]).value[j]) <==> contact.infect < prob)
  {
    var prob := if states[i] == IA then a else c;
    SpreadSingle(states, i, prob, states[i] == IA, contact);
  }

  /** A single contact with susceptible agent j < n - 1 infects j exactly
      when its draw is below the probability, as the given kind of infection. */
  lemma SpreadSingle(states: seq<Status>, i: nat, prob: real, byAsymptomatic: bool, contact: Contact)
    requires i < |states| && contact.target < |states| - 1 && i != contact.target
    requires states[contact.target] == S && 0.0 <= prob <= 1.0
    ensures Spread(states, i, prob, byAsymptomatic, [contact])
         == Ok(if contact.infect < prob then states[contact.target := NewInfection(byAsymptomatic, contact.second)] else states)
  {
    var j := contact.target;
    ContactSim.TargetRange(|states|, j);
    var next := if contact.infect < prob then states[j := NewInfection(byAsymptomatic, contact.second)] else states;
    assert [contact][1..] == [];
    assert Spread(states, i, prob, byAsymptomatic, [contact]) == Spread(next, i, prob, byAsymptomatic, []);
  }

  /** From one list of states to the next, no agent leaves R and nobody
      re-enters S. */
  predicate Progresses(before: seq<Status>, after: seq<Status>)
  {
    && |before| == |after|
    && (forall j :: 0 <= j < |before| && before[j] == R ==> after[j] == R)
    && (forall j :: 0 <= j < |before| && after[j] == S ==> before[j] == S)
  }

  predicate ContactShaped(contacts: seq<seq<Contact>>, n: nat, b: nat)
  {
    |contacts| == n && forall i :: 0 <= i < n ==> |contacts[i]| == b
  }

  /** `simulateInteractions` over initiators lo..hi-1 in index order; with no
      infected agent in the range nothing happens. */
  function Interactions(states: seq<Status>, contacts: seq<seq<Contact>>, a: real, c: real, b: nat, lo: nat, hi: nat): (r: Result<seq<Status>>)
    requires ContactShaped(contacts, |states|, b) && lo <= hi <= |states|
    ensures |states| >= 2 && 0.0 <= a <= 1.0 && 0.0 <= c <= 1.0 ==> r.Ok?
    ensures r.Ok? ==> Progresses(states, r.value)
    ensures r.Ok? ==> forall j :: 0 <= j < |states| && r.value[j] != states[j] ==> states[j] == S && Infected(r.value[j])
    ensures r.Ok? && |states| > 0 ==> r.value[|states| - 1] == states[|states| - 1]
    ensures (forall j :: lo <= j < hi ==> !Infected(states[j])) ==> r == Ok(states)
    decreases hi - lo
  {
    if lo == hi then Ok(states)
    else
      var next :- Turn(states, lo, a, c, contacts[lo]);
      Interactions(next, contacts, a, c, b, lo + 1, hi)
  }

  /** `simulateRecoveries`: an I_A or I_S agent recovers exactly when its draw
      is at most k; S and R agents are left alone. */
  function Recoveries(states: seq<Status>, draws: seq<real>, k: real): (r: seq<Status>)
    requires |draws| == |states|
    ensures |r| == |states|
    ensures Progresses(states, r)
    ensures forall j :: 0 <= j < |states| ==> (r[j] == R <==> states[j] == R || (Infected(states[j]) && draws[j] <= k))
    ensures forall j :: 0 <= j < |states| && !Infected(states[j]) ==> r[j] == states[j]
  {
    seq(|states|, j requires 0 <= j < |states| => if Infected(states[j]) && draws[j] <= k then R else states[j])
  }

  /** The draws of one day after day 0. */
  datatype DayDraws = DayDraws(contacts: seq<seq<Contact>>, recover: seq<real>)

  predicate DaysShaped(days: seq<DayDraws>, n: nat, b: nat)
  {
    forall d :: 0 <= d < |days| ==> ContactShaped(days[d].contacts, n, b) && |days[d].recover| == n
  }

  /** One day: all interactions, then all recoveries. */
  function Day(states: seq<Status>, draws: DayDraws, a: real, c: real, b: nat, k: real): (r: Result<seq<Status>>)
    requires ContactShaped(draws.contacts, |states|, b) && |draws.recover| == |states|
    ensures |states| >= 2 && 0.0 <= a <= 1.0 && 0.0 <= c <= 1.0 ==> r.Ok?
    ensures r.Ok? ==> Progresses(states, r.value)
  {
    var met :- Interactions(states, draws.contacts, a, c, b, 0, |states|);
    Ok(Recoveries(met, draws.recover, k))
  }

  /** The states on days 0, 1, ...; the first failing day fails the run. */
  function Days(states: seq<Status>, days: seq<DayDraws>, a: real, c: real, b: nat, k: real): (r: Result<seq<seq<Status>>>)
    requires DaysShaped(days, |states|, b)
    ensures |states| >= 2 && 0.0 <= a <= 1.0 && 0.0 <= c <= 1.0 ==> r.Ok?
    ensures r.Ok? ==> |r.value| == |days| + 1 && r.value[0] == states
    ensures r.Ok? ==> forall d :: 0 <= d < |r.value| ==> |r.value[d]| == |states|
    ensures r.Ok? ==> forall d :: 0 < d < |r.value| ==> Progresses(r.value[d - 1], r.value[d])
    decreases |days|
  {
    if |days| == 0 then Ok([states])
    else
      var next :- Day(states, days[0], a, c, b, k);
      var rest :- Days(next, days[1..], a, c, b, k);
      var traj := [states] + rest;
      assert forall d :: 0 < d < |traj| ==> traj[d] == rest[d - 1];
      assert traj[1] == next;
      Ok(traj)
  }

  /** Each state list of a run is Day applied to the one before it with that
      day's draws. */
  lemma {:induction false} DaysSteps(states: seq<Status>, days: seq<DayDraws>, a: real, c: real, b: nat, k: real)
    requires DaysShaped(days, |states|, b)
    ensures Days(states, days, a, c, b, k).Ok? ==>
      forall d :: 0 <= d < |days| ==> Day(Days(states, days, a, c, b, k).value[d], days[d], a, c, b, k) == Ok(Days(states, days, a, c, b, k).value[d + 1])
    decreases |days|
  {
    var r := Days(states, days, a, c, b, k);
    if |days| > 0 && r.Ok? {
      var next := Day(states, days[0], a, c, b, k).value;
      DaysSteps(next, days[1..], a, c, b, k);
      var rest := Days(next, days[1..], a, c, b, k).value;
      assert r.value == [states] + rest;
      forall d | 0 <= d < |days| ensures Day(r.value[d], days[d], a, c, b, k) == Ok(r.value[d + 1]) {
        if d > 0 {
          assert days[d] == days[1..][d - 1];
        }
      }
    }
  }

  /** The four output lists S, I_A, I_S, R. */
  datatype Series = Series(S: seq<nat>, IA: seq<nat>, IS: seq<nat>, R: seq<nat>)

  /** Every agent is in exactly one of the four compartments. */
  lemma {:induction false} CountsPartition(states: seq<Status>)
    ensures Tally.Count(states, S) + Tally.Count(states, IA) + Tally.Count(states, IS) + Tally.Count(states, R) == |states|
    decreases |states|
  {
    if |states| > 0 {
      var n := |states| - 1;
      CountsPartition(states[..n]);
      assert Tally.Count(states, S) == Tally.Count(states[..n], S) + (if states[n] == S then 1 else 0);
      assert Tally.Count(states, IA) == Tally.Count(states[..n], IA) + (if states[n] == IA then 1 else 0);
      assert Tally.Count(states, IS) == Tally.Count(states[..n], IS) + (if states[n] == IS then 1 else 0);
      assert Tally.Count(states, R) == Tally.Count(states[..n], R) + (if states[n] == R then 1 else 0);
    }
  }

  /** Entry d of each list of `r` counts that status on day d of `traj`. */
  predicate Tallies(r: Series, traj: seq<seq<Status>>)
  {
    && |r.S| == |traj| && |r.IA| == |traj| && |r.IS| == |traj| && |r.R| == |traj|
    && forall d :: 0 <= d < |traj| ==>
         && r.S[d] == Tally.Count(traj[d], S) && r.IA[d] == Tally.Count(traj[d], IA)
         && r.IS[d] == Tally.Count(traj[d], IS) && r.R[d] == Tally.Count(traj[d], R)
  }

  /** The four tallies of each day's states. */
  function SeriesOf(traj: seq<seq<Status>>): (r: Series)
    ensures |r.S| == |traj| && |r.IA| == |traj| && |r.IS| == |traj| && |r.R| == |traj|
    ensures Tallies(r, traj)
    ensures forall d :: 0 <= d < |traj| ==> r.S[d] + r.IA[d] + r.IS[d] + r.R[d] == |traj[d]|
  {
    forall d | 0 <= d < |traj|
      ensures Tally.Count(traj[d], S) + Tally.Count(traj[d], IA) + Tally.Count(traj[d], IS) + Tally.Count(traj[d], R) == |traj[d]|
    {
      CountsPartition(traj[d]);
    }
    Series(seq(|traj|, d requires 0 <= d < |traj| => Tally.Count(traj[d], S)),
           seq(|traj|, d requires 0 <= d < |traj| => Tally.Count(traj[d], IA)),
           seq(|traj|, d requires 0 <= d < |traj| => Tally.Count(traj[d], IS)),
           seq(|traj|, d requires 0 <= d < |traj| => Tally.Count(traj[d], R)))
  }

  /** When every day progresses, R never decreases and S never increases. */
  lemma SeriesMonotone(traj: seq<seq<Status>>)
    requires forall d :: 0 < d < |traj| ==> Progresses(traj[d - 1], traj[d])
    ensures Tally.NonDecreasing(SeriesOf(traj).R)
    ensures Tally.NonIncreasing(SeriesOf(traj).S)
  {
    var r := SeriesOf(traj);
    forall d | 0 < d < |traj|
      ensures r.R[d - 1] <= r.R[d] && r.S[d - 1] >= r.S[d]
    {
      Tally.CountKept(traj[d - 1], traj[d], R);
      Tally.CountKept(traj[d], traj[d - 1], S);
    }
  }

  /** The people array after patient zero: agent 0 asymptomatic, the rest susceptible. */
  function PatientZero(n: nat): (r: seq<Status>)
    requires n >= 1
    ensures |r| == n && r[0] == IA
    ensures forall j :: 1 <= j < n ==> r[j] == S
  {
    [IA] + seq(n - 1, j => S)
  }

  /** The first day's tallies: n - 1 susceptible, one asymptomatic. */
  lemma PatientZeroCounts(n: nat)
    requires n >= 1
    ensures Tally.Count(PatientZero(n), S) == n - 1 && Tally.Count(PatientZero(n), IA) == 1
    ensures Tally.Count(PatientZero(n), IS) == 0 && Tally.Count(PatientZero(n), R) == 0
  {
    var z := PatientZero(n);
    var rest := seq(n - 1, j => S);
    assert z == [IA] + rest;
    Tally.CountAppend([IA], rest, S);
    Tally.CountAppend([IA], rest, IA);
    Tally.CountAppend([IA], rest, IS);
    Tally.CountAppend([IA], rest, R);
    assert [IA][..0] == [];
  }

  /** The output lists of the days from a starting population: entry d of
      each list tallies that status on day d. */
  function DaysSeries(start: seq<Status>, days: seq<DayDraws>, a: real, c: real, b: nat, k: real): (r: Result<Series>)
    requires DaysShaped(days, |start|, b)
    ensures |start| >= 2 && 0.0 <= a <= 1.0 && 0.0 <= c <= 1.0 ==> r.Ok?
    ensures r.Ok? ==> |r.value.S| == |days| + 1 && |r.value.IA| == |days| + 1 && |r.value.IS| == |days| + 1 && |r.value.R| == |days| + 1
    ensures r.Ok? ==> forall d :: 0 <= d <= |days| ==> r.value.S[d] + r.value.IA[d] + r.value.IS[d] + r.value.R[d] == |start|
    ensures r.Ok? ==> Tally.NonDecreasing(r.value.R) && Tally.NonIncreasing(r.value.S)
    ensures r.Ok? ==> r.value.S[0] == Tally.Count(start, S) && r.value.IA[0] == Tally.Count(start, IA)
                      && r.value.IS[0] == Tally.Count(start, IS) && r.value.R[0] == Tally.Count(start, R)
    ensures r.Ok? ==> Days(start, days, a, c, b, k).Ok? && Tallies(r.value, Days(start, days, a, c, b, k).value)
  {
    var traj :- Days(start, days, a, c, b, k);
    SeriesMonotone(traj);
    Ok(SeriesOf(traj))
  }

  /** `simulateSIR(n, b, k, a, c, t)` with the draws of days 1..t-1 as input.
      With nobody to be patient zero it fails; with at least two agents and
      probabilities in [0, 1] it succeeds, and entry d of the four lists of
      a successful run tallies day d of the run from patient zero, so they
      have t entries adding up to n, start at (n - 1, 1, 0, 0), R never
      decreases and S never increases. */
  function SimulateSIR(n: nat, b: nat, k: real, a: real, c: real, t: nat, days: seq<DayDraws>): (r: Result<Series>)
    requires |days| == (if t == 0 then 0 else t - 1) && DaysShaped(days, n, b)
    ensures n == 0 ==> r == Fail(IndexOutOfRange)
    ensures n >= 2 && 0.0 <= a <= 1.0 && 0.0 <= c <= 1.0 ==> r.Ok?
    ensures r.Ok? ==> |r.value.S| == t && |r.value.IA| == t && |r.value.IS| == t && |r.value.R| == t
    ensures r.Ok? ==> forall d :: 0 <= d < t ==> r.value.S[d] + r.value.IA[d] + r.value.IS[d] + r.value.R[d] == n
    ensures r.Ok? ==> Tally.NonDecreasing(r.value.R) && Tally.NonIncreasing(r.value.S)
    ensures r.Ok? && t >= 1 ==>
      r.value.S[0] == n - 1 && r.value.IA[0] == 1 && r.value.IS[0] == 0 && r.value.R[0] == 0
    ensures r.Ok? && t >= 1 ==>
              && n >= 1
              && Days(PatientZero(n), days, a, c, b, k).Ok?
              && Tallies(r.value, Days(PatientZero(n), days, a, c, b, k).value)
  {
    if n == 0 then Fail(IndexOutOfRange)
    else if t == 0 then Ok(Series([], [], [], []))
    else
      PatientZeroCounts(n);
      DaysSeries(PatientZero(n), days, a, c, b, k)
  }
}
