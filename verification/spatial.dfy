/** The agent simulation of sir/discreteSim_spatial.py: agents seeded by a
    placement policy, then per time step every agent moves and one pass in
    ascending agent order lets each infected agent infect its susceptible
    neighbours and then draw for its own recovery. */
module SpatialSim {
  import opened Errors
  import opened Agent
  import opened Tally
  import opened Neighbours

  /** The random draws one time step consumes: a direction per agent for its
      move and a uniform value per agent for its recovery draw. */
  datatype StepDraws = StepDraws(dirs: seq<Direction>, recover: seq<real>)

  /** Every step carries one draw of each kind per agent. */
  predicate Shaped(steps: seq<StepDraws>, n: nat)
  {
    forall s :: 0 <= s < |steps| ==> |steps[s].dirs| == n && |steps[s].recover| == n
  }

  /** `[Person(p) for i in range(n)]`: susceptible agents at their drawn positions. */
  function NewPopulation(p: real, init: seq<Place>): (pop: seq<Person>)
    ensures |pop| == |init|
    ensures forall j :: 0 <= j < |init| ==> pop[j] == Person(init[j], S, p)
  {
    seq(|init|, j requires 0 <= j < |init| => Person(init[j], S, p))
  }

  /** The three placement policies that seed anyone. */
  predicate KnownPolicy(position: string)
  {
    position == "Center" || position == "Corner" || position == "Random"
  }

  /** One seeded agent: moved to `at` when the policy fixes a point, then advanced one state. */
  function Infected(who: Person, at: Option<Place>): Person
  {
    var placed := if at.Some? then who.(pos := at.value) else who;
    placed.(state := ChangeState(placed.state))
  }

  /** The seeding loop `for i in range(m)`, as a left fold from index i; an
      index past the population raises IndexError. */
  function InfectFirst(pop: seq<Person>, at: Option<Place>, i: nat, m: int): (r: Result<seq<Person>>)
    ensures r.Ok? <==> m <= |pop| || m <= i
    ensures r.Fail? ==> r.error == IndexOutOfRange
    ensures r.Ok? ==> |r.value| == |pop|
    ensures r.Ok? ==> forall j :: 0 <= j < |pop| ==>
      r.value[j] == if i <= j < m then Infected(pop[j], at) else pop[j]
    decreases if i < m then m - i else 0
  {
    if m <= i then Ok(pop)
    else if i >= |pop| then Fail(IndexOutOfRange)
    else InfectFirst(pop[i := Infected(pop[i], at)], at, i + 1, m)
  }

  /** The 'Center' / 'Corner' / 'Random' branches of `discrete_spatial_simulation`. */
  function Seed(pop: seq<Person>, position: string, m: int): (r: Result<seq<Person>>)
    ensures r.Ok? <==> !KnownPolicy(position) || m <= |pop|
    ensures r.Fail? ==> r.error == IndexOutOfRange
    ensures !KnownPolicy(position) ==> r == Ok(pop)
    ensures r.Ok? ==> |r.value| == |pop|
    ensures r.Ok? && KnownPolicy(position) ==> forall j :: 0 <= j < |pop| ==>
      && r.value[j].state == (if j < m then ChangeState(pop[j].state) else pop[j].state)
      && r.value[j].step == pop[j].step
      && r.value[j].pos == (if j < m && position == "Center" then At(0.5, 0.5)
                            else if j < m && position == "Corner" then At(0.0, 0.0)
                            else pop[j].pos)
  {
    if position == "Center" then InfectFirst(pop, Some(At(0.5, 0.5)), 0, m)
    else if position == "Corner" then InfectFirst(pop, Some(At(0.0, 0.0)), 0, m)
    else if position == "Random" then InfectFirst(pop, None, 0, m)
    else Ok(pop)
  }

  /** From a fresh population, seeding m <= n agents infects exactly agents
      0..m-1, so the first tally is (n - m, m, 0); an unknown policy infects no one. */
  lemma SeedFresh(p: real, init: seq<Place>, position: string, m: int)
    requires m <= |init| || !KnownPolicy(position)
    ensures Seed(NewPopulation(p, init), position, m).Ok?
    ensures var st := States(Seed(NewPopulation(p, init), position, m).value);
      forall j :: 0 <= j < |init| ==> st[j] == if KnownPolicy(position) && j < m then I else S
    ensures var st := States(Seed(NewPopulation(p, init), position, m).value);
      var seeded := if KnownPolicy(position) && m > 0 then m else 0;
      Count(st, I) == seeded && Count(st, S) == |init| - seeded && Count(st, R) == 0
  {
    var st := States(Seed(NewPopulation(p, init), position, m).value);
    var seeded := if KnownPolicy(position) && m > 0 then m else 0;
    CountsOfSeeded(st, seeded);
  }

  /** Every agent moves independently (the `for p in population: p.move()` loop). */
  function MoveAll(pop: seq<Person>, dirs: seq<Direction>): (r: seq<Person>)
    requires |dirs| == |pop|
    ensures |r| == |pop|
    ensures forall j :: 0 <= j < |pop| ==> r[j] == MovePerson(pop[j], dirs[j])
    ensures States(r) == States(pop)
  {
    var r := seq(|pop|, j requires 0 <= j < |pop| => MovePerson(pop[j], dirs[j]));
    assert States(r) == States(pop);
    r
  }

  /** `for ind in inds: if population[ind].state == 'S': change_state()`. */
  function InfectAll(pop: seq<Person>, inds: seq<nat>): (r: seq<Person>)
    requires forall x :: x in inds ==> x < |pop|
    ensures |r| == |pop|
    ensures forall j :: 0 <= j < |pop| ==>
      r[j] == if pop[j].state == S && j in inds then pop[j].(state := I) else pop[j]
    decreases |inds|
  {
    if |inds| == 0 then pop
    else
      var j := inds[0];
      assert j in inds;
      assert forall x :: x in inds[1..] ==> x in inds;
      var next := if pop[j].state == S then pop[j := pop[j].(state := ChangeState(pop[j].state))] else pop;
      InfectAll(next, inds[1..])
  }

  /** Agent i's turn in the pass: if it is infected, every susceptible agent
      within distance q of it becomes infected, and then it recovers when its
      draw is below k.  Nobody else changes, and an agent that is not infected
      at its turn does nothing. */
  function Visit(pop: seq<Person>, pts: seq<Place>, q: real, k: real, recover: seq<real>, i: nat): (r: seq<Person>)
    requires |pts| == |pop| && |recover| == |pop| && i < |pop|
    ensures |r| == |pop|
    ensures pop[i].state != I ==> r == pop
    ensures pop[i].state == I ==>
      && r[i] == pop[i].(state := if recover[i] < k then R else I)
      && forall j :: 0 <= j < |pop| && j != i ==>
           r[j] == if pop[j].state == S && InBall(q, pts[j], pts[i]) then pop[j].(state := I) else pop[j]
  {
    if pop[i].state != I then pop
    else
      var spread := InfectAll(pop, BallQuery(pts, pts[i], q));
      if recover[i] < k then spread[i := spread[i].(state := ChangeState(spread[i].state))]
      else spread
  }

  /** The bare left fold of Visit over agents lo..hi-1 in ascending order. */
  function Sweep(pop: seq<Person>, pts: seq<Place>, q: real, k: real, recover: seq<real>, lo: nat, hi: nat): (r: seq<Person>)
    requires |pts| == |pop| && |recover| == |pop| && lo <= hi <= |pop|
    ensures |r| == |pop|
    decreases hi - lo
  {
    if lo == hi then pop
    else Sweep(Visit(pop, pts, q, k, recover, lo), pts, q, k, recover, lo + 1, hi)
  }

  /** The infection-and-recovery pass over agents lo..hi-1 in ascending order.
      Positions never change; no agent leaves R or re-enters S; only visited
      agents recover, each on a draw below k; an agent outside the range can
      only go from S to I. */
  function Pass(pop: seq<Person>, pts: seq<Place>, q: real, k: real, recover: seq<real>, lo: nat, hi: nat): (r: seq<Person>)
    requires |pts| == |pop| && |recover| == |pop| && lo <= hi <= |pop|
    ensures |r| == |pop|
    ensures forall j :: 0 <= j < |pop| ==> r[j].pos == pop[j].pos && r[j].step == pop[j].step
    ensures Progresses(States(pop), States(r))
    ensures forall j :: 0 <= j < |pop| && r[j].state == R && pop[j].state != R ==> lo <= j < hi && recover[j] < k
    ensures forall j :: 0 <= j < |pop| && !(lo <= j < hi) ==>
      r[j].state == pop[j].state || (pop[j].state == S && r[j].state == I)
  {
    SweepFacts(pop, pts, q, k, recover, lo, hi);
    Sweep(pop, pts, q, k, recover, lo, hi)
  }

  /** The promises of Pass, by induction over the fold. */
  lemma {:induction false} SweepFacts(pop: seq<Person>, pts: seq<Place>, q: real, k: real, recover: seq<real>, lo: nat, hi: nat)
    requires |pts| == |pop| && |recover| == |pop| && lo <= hi <= |pop|
    ensures var r := Sweep(pop, pts, q, k, recover, lo, hi);
      && (forall j :: 0 <= j < |pop| ==> r[j].pos == pop[j].pos && r[j].step == pop[j].step)
      && Progresses(States(pop), States(r))
      && (forall j :: 0 <= j < |pop| && r[j].state == R && pop[j].state != R ==> lo <= j < hi && recover[j] < k)
      && (forall j :: 0 <= j < |pop| && !(lo <= j < hi) ==>
            r[j].state == pop[j].state || (pop[j].state == S && r[j].state == I))
    decreases hi - lo
  {
    if lo < hi {
      var v := Visit(pop, pts, q, k, recover, lo);
      SweepFacts(v, pts, q, k, recover, lo + 1, hi);
      PassStep(pop, v, Sweep(v, pts, q, k, recover, lo + 1, hi), pts, q, k, recover, lo, hi);
    }
  }

  /** A visit of lo followed by a pass over lo+1..hi-1 keeps the promises of a
      pass over lo..hi-1. */
  lemma PassStep(pop: seq<Person>, v: seq<Person>, r: seq<Person>, pts: seq<Place>, q: real, k: real, recover: seq<real>, lo: nat, hi: nat)
    requires |pts| == |pop| && |recover| == |pop| && lo < hi <= |pop|
    requires |v| == |pop|
    requires pop[lo].state != I ==> v == pop
    requires pop[lo].state == I ==>
      && v[lo] == pop[lo].(state := if recover[lo] < k then R else I)
      && forall j :: 0 <= j < |pop| && j != lo ==>
           v[j] == if pop[j].state == S && InBall(q, pts[j], pts[lo]) then pop[j].(state := I) else pop[j]
    requires |r| == |v|
    requires forall j :: 0 <= j < |v| ==> r[j].pos == v[j].pos && r[j].step == v[j].step
    requires Progresses(States(v), States(r))
    requires forall j :: 0 <= j < |v| && r[j].state == R && v[j].state != R ==> lo + 1 <= j < hi && recover[j] < k
    requires forall j :: 0 <= j < |v| && !(lo + 1 <= j < hi) ==>
      r[j].state == v[j].state || (v[j].state == S && r[j].state == I)
    ensures forall j :: 0 <= j < |pop| ==> r[j].pos == pop[j].pos && r[j].step == pop[j].step
    ensures Progresses(States(pop), States(r))
    ensures forall j :: 0 <= j < |pop| && r[j].state == R && pop[j].state != R ==> lo <= j < hi && recover[j] < k
    ensures forall j :: 0 <= j < |pop| && !(lo <= j < hi) ==>
      r[j].state == pop[j].state || (pop[j].state == S && r[j].state == I)
  {
  }

  /** The pass can be cut anywhere: running lo..mid and then mid..hi is running lo..hi. */
  lemma {:induction false} PassSplit(pop: seq<Person>, pts: seq<Place>, q: real, k: real, recover: seq<real>, lo: nat, mid: nat, hi: nat)
    requires |pts| == |pop| && |recover| == |pop| && lo <= mid <= hi <= |pop|
    ensures Pass(pop, pts, q, k, recover, lo, hi)
         == Pass(Pass(pop, pts, q, k, recover, lo, mid), pts, q, k, recover, mid, hi)
  {
    SweepSplit(pop, pts, q, k, recover, lo, mid, hi);
  }

  lemma {:induction false} SweepSplit(pop: seq<Person>, pts: seq<Place>, q: real, k: real, recover: seq<real>, lo: nat, mid: nat, hi: nat)
    requires |pts| == |pop| && |recover| == |pop| && lo <= mid <= hi <= |pop|
    ensures Sweep(pop, pts, q, k, recover, lo, hi)
         == Sweep(Sweep(pop, pts, q, k, recover, lo, mid), pts, q, k, recover, mid, hi)
    decreases mid - lo
  {
    if lo < mid {
      var first := Visit(pop, pts, q, k, recover, lo);
      SweepSplit(first, pts, q, k, recover, lo + 1, mid, hi);
    }
  }

  /** Ascending order, forwards: a susceptible neighbour j > i of an infected
      agent i is infected at i's turn and is still infected when its own turn
      comes, so it infects its own susceptible neighbours in the same pass. */
  lemma {:induction false} InfectedLaterIsProcessed(pop: seq<Person>, pts: seq<Place>, q: real, k: real, recover: seq<real>, i: nat, j: nat)
    requires |pts| == |pop| && |recover| == |pop| && i < j < |pop|
    requires pop[i].state == I && pop[j].state == S && InBall(q, pts[j], pts[i])
    ensures Pass(pop, pts, q, k, recover, i, j)[j].state == I
    ensures var turn := Visit(Pass(pop, pts, q, k, recover, i, j), pts, q, k, recover, j);
      forall x :: 0 <= x < |pop| && x != j && InBall(q, pts[x], pts[j]) ==> turn[x].state != S
  {
    var first := Visit(pop, pts, q, k, recover, i);
    PassSplit(pop, pts, q, k, recover, i, i + 1, j);
    assert Pass(pop, pts, q, k, recover, i, j) == Pass(first, pts, q, k, recover, i + 1, j);
    InfectedLeavesNoSusceptible(Pass(pop, pts, q, k, recover, i, j), pts, q, k, recover, j);
  }

  /** At an infected agent's turn none of its neighbours is left susceptible. */
  lemma InfectedLeavesNoSusceptible(pop: seq<Person>, pts: seq<Place>, q: real, k: real, recover: seq<real>, j: nat)
    requires |pts| == |pop| && |recover| == |pop| && j < |pop| && pop[j].state == I
    ensures var turn := Visit(pop, pts, q, k, recover, j);
      forall x :: 0 <= x < |pop| && x != j && InBall(q, pts[x], pts[j]) ==> turn[x].state != S
  {
  }

  /** Ascending order, backwards: a susceptible neighbour j < i of an infected
      agent i has had its turn, so once infected by i it stays infected to the
      end of the pass and does not draw for recovery. */
  lemma {:induction false} InfectedEarlierWaits(pop: seq<Person>, pts: seq<Place>, q: real, k: real, recover: seq<real>, i: nat, j: nat)
    requires |pts| == |pop| && |recover| == |pop| && j < i < |pop|
    requires pop[i].state == I && pop[j].state == S && InBall(q, pts[j], pts[i])
    ensures Pass(pop, pts, q, k, recover, i, |pop|)[j].state == I
  {
    var first := Visit(pop, pts, q, k, recover, i);
    assert first[j].state == I;
    assert Pass(pop, pts, q, k, recover, i, |pop|) == Pass(first, pts, q, k, recover, i + 1, |pop|);
  }

  /** One time step: move everybody, build the tree over the new positions, run the pass. */
  function Step(pop: seq<Person>, q: real, k: real, draws: StepDraws): (r: seq<Person>)
    requires |draws.dirs| == |pop| && |draws.recover| == |pop|
    ensures |r| == |pop|
    ensures Progresses(States(pop), States(r))
    ensures (forall j :: 0 <= j < |pop| ==> InUnitSquare(pop[j].pos)) ==>
            (forall j :: 0 <= j < |pop| ==> InUnitSquare(r[j].pos))
  {
    var moved := MoveAll(pop, draws.dirs);
    Pass(moved, Positions(moved), q, k, draws.recover, 0, |moved|)
  }

  /** With no infected agent a pass, and so a step, changes no state. */
  lemma {:induction false} NoInfectedPassIsQuiet(pop: seq<Person>, pts: seq<Place>, q: real, k: real, recover: seq<real>, lo: nat, hi: nat)
    requires |pts| == |pop| && |recover| == |pop| && lo <= hi <= |pop|
    requires I !in States(pop)
    ensures Pass(pop, pts, q, k, recover, lo, hi) == pop
    decreases hi - lo
  {
    if lo < hi {
      assert States(pop)[lo] == pop[lo].state;
      NoInfectedPassIsQuiet(pop, pts, q, k, recover, lo + 1, hi);
    }
  }

  lemma NoInfectedStepIsQuiet(pop: seq<Person>, q: real, k: real, draws: StepDraws)
    requires |draws.dirs| == |pop| && |draws.recover| == |pop|
    requires I !in States(pop)
    ensures States(Step(pop, q, k, draws)) == States(pop)
  {
    var moved := MoveAll(pop, draws.dirs);
    NoInfectedPassIsQuiet(moved, Positions(moved), q, k, draws.recover, 0, |moved|);
  }

  /** The populations after 0, 1, ..., t steps. */
  function Trajectory(pop: seq<Person>, q: real, k: real, steps: seq<StepDraws>): (traj: seq<seq<Person>>)
    requires Shaped(steps, |pop|)
    ensures |traj| == |steps| + 1 && traj[0] == pop
    ensures forall s :: 0 <= s < |traj| ==> |traj[s]| == |pop|
    ensures forall s :: 0 <= s < |steps| ==> traj[s + 1] == Step(traj[s], q, k, steps[s])
    decreases |steps|
  {
    if |steps| == 0 then [pop]
    else [pop] + Trajectory(Step(pop, q, k, steps[0]), q, k, steps[1..])
  }

  /** The states of every population of a trajectory. */
  function StatesOf(traj: seq<seq<Person>>): (r: seq<seq<State>>)
    ensures |r| == |traj|
    ensures forall s :: 0 <= s < |traj| ==> r[s] == States(traj[s])
  {
    seq(|traj|, s requires 0 <= s < |traj| => States(traj[s]))
  }

  /** The output lists of a run from an already seeded population: entry d
      of each list tallies that state in the population after d steps, so
      there are t + 1 entries each, adding up to n at every index, with R
      never decreasing and S never increasing. */
  function RunSeries(pop0: seq<Person>, q: real, k: real, steps: seq<StepDraws>): (r: Series)
    requires Shaped(steps, |pop0|)
    ensures |r.S| == |steps| + 1 && |r.I| == |steps| + 1 && |r.R| == |steps| + 1
    ensures forall d :: 0 <= d <= |steps| ==> r.S[d] + r.I[d] + r.R[d] == |pop0|
    ensures NonDecreasing(r.R) && NonIncreasing(r.S)
    ensures r.S[0] == Count(States(pop0), S) && r.I[0] == Count(States(pop0), I) && r.R[0] == Count(States(pop0), R)
    ensures Tallies(r, StatesOf(Trajectory(pop0, q, k, steps)))
  {
    var traj := Trajectory(pop0, q, k, steps);
    var states := StatesOf(traj);
    assert forall d :: 0 < d < |states| ==> Progresses(states[d - 1], states[d]) by {
      forall d | 0 < d < |states| ensures Progresses(states[d - 1], states[d]) {
        assert traj[d] == Step(traj[d - 1], q, k, steps[d - 1]);
      }
    }
    SeriesMonotone(states);
    SeriesOf(states)
  }

  /** `discrete_spatial_simulation(k, q, p, n, t, position, num_initial_infected)`
      with the initial positions and the per-step draws as inputs.  It fails
      only when a known policy is asked to seed more agents than there are;
      otherwise entry d of the three lists tallies the seeded population
      after d steps, so they have t + 1 entries that add up to n, start at
      (n - m, m, 0), R never decreases and S never increases. */
  function Simulate(k: real, q: real, p: real, n: nat, t: nat, position: string, m: int,
                    init: seq<Place>, steps: seq<StepDraws>): (r: Result<Series>)
    requires |init| == n && |steps| == t && Shaped(steps, n)
    ensures r.Ok? <==> !KnownPolicy(position) || m <= n
    ensures r.Ok? ==> |r.value.S| == t + 1 && |r.value.I| == t + 1 && |r.value.R| == t + 1
    ensures r.Ok? ==> forall d :: 0 <= d <= t ==> r.value.S[d] + r.value.I[d] + r.value.R[d] == n
    ensures r.Ok? ==> NonDecreasing(r.value.R) && NonIncreasing(r.value.S)
    ensures KnownPolicy(position) && 0 <= m <= n ==>
      r.Ok? && r.value.S[0] == n - m && r.value.I[0] == m && r.value.R[0] == 0
    ensures r.Ok? ==>
              && Seed(NewPopulation(p, init), position, m).Ok?
              && Tallies(r.value, StatesOf(Trajectory(Seed(NewPopulation(p, init), position, m).value, q, k, steps)))
  {
    var pop0 :- Seed(NewPopulation(p, init), position, m);
    assert KnownPolicy(position) && 0 <= m <= n ==>
      Count(States(pop0), S) == n - m && Count(States(pop0), I) == m && Count(States(pop0), R) == 0 by {
      if m <= n { SeedFresh(p, init, position, m); }
    }
    Ok(RunSeries(pop0, q, k, steps))
  }

  /** With nobody seeded (m <= 0, or a policy other than the three) nobody is
      ever infected: S stays at n and I at 0. */
  lemma NoSeedNoEpidemic(k: real, q: real, p: real, n: nat, t: nat, position: string, m: int,
                         init: seq<Place>, steps: seq<StepDraws>)
    requires |init| == n && |steps| == t && Shaped(steps, n)
    requires m <= 0 || !KnownPolicy(position)
    ensures var r := Simulate(k, q, p, n, t, position, m, init, steps);
      r.Ok? && forall d :: 0 <= d <= t ==> r.value.S[d] == n && r.value.I[d] == 0
  {
    SeedFresh(p, init, position, m);
    var pop0 := Seed(NewPopulation(p, init), position, m).value;
    assert forall j :: 0 <= j < |pop0| ==> pop0[j].state == S by {
      forall j | 0 <= j < |pop0| ensures pop0[j].state == S {
        assert States(pop0)[j] == S;
      }
    }
    QuietSeries(pop0, q, k, steps);
  }

  /** Run from an all-susceptible population, the output lists hold n
      susceptible and no infected agents at every index. */
  lemma QuietSeries(pop: seq<Person>, q: real, k: real, steps: seq<StepDraws>)
    requires Shaped(steps, |pop|)
    requires forall j :: 0 <= j < |pop| ==> pop[j].state == S
    ensures var r := RunSeries(pop, q, k, steps);
      forall d :: 0 <= d <= |steps| ==> r.S[d] == |pop| && r.I[d] == 0
  {
    var traj := Trajectory(pop, q, k, steps);
    var states := StatesOf(traj);
    assert RunSeries(pop, q, k, steps) == SeriesOf(states);
    forall d | 0 <= d <= |steps|
      ensures Count(states[d], S) == |pop| && Count(states[d], I) == 0
    {
      AllSusceptibleStay(pop, q, k, steps, d);
      assert forall j :: 0 <= j < |pop| ==> states[d][j] == S;
      CountsOfSeeded(states[d], 0);
    }
  }

  /** An all-susceptible population stays all-susceptible. */
  lemma {:induction false} AllSusceptibleStay(pop: seq<Person>, q: real, k: real, steps: seq<StepDraws>, d: nat)
    requires Shaped(steps, |pop|) && d <= |steps|
    requires forall j :: 0 <= j < |pop| ==> pop[j].state == S
    ensures forall j :: 0 <= j < |pop| ==> Trajectory(pop, q, k, steps)[d][j].state == S
  {
    if d > 0 {
      var traj := Trajectory(pop, q, k, steps);
      AllSusceptibleStay(pop, q, k, steps, d - 1);
      var prev := traj[d - 1];
      assert forall j :: 0 <= j < |prev| ==> States(prev)[j] == S;
      NoInfectedStepIsQuiet(prev, q, k, steps[d - 1]);
      assert forall j :: 0 <= j < |pop| ==> States(traj[d])[j] == States(prev)[j];
    }
  }

  /** Agents that start in the closed unit square never leave it. */
  lemma {:induction false} StaysInSquare(pop: seq<Person>, q: real, k: real, steps: seq<StepDraws>, d: nat)
    requires Shaped(steps, |pop|) && d <= |steps|
    requires forall j :: 0 <= j < |pop| ==> InUnitSquare(pop[j].pos)
    ensures forall j :: 0 <= j < |pop| ==> InUnitSquare(Trajectory(pop, q, k, steps)[d][j].pos)
  {
    if d > 0 {
      StaysInSquare(pop, q, k, steps, d - 1);
      var traj := Trajectory(pop, q, k, steps);
      assert traj[d] == Step(traj[d - 1], q, k, steps[d - 1]);
    }
  }
}
