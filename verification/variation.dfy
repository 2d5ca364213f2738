/** The behavioural variant of sir/variation_2.py: agents that socially
    distance or quarantine, a lockdown window during which quarantined agents
    are sent to the sentinel position and left out of the k-d tree, and an
    infection pass in which distancing agents neither infect nor get infected. */
module Variation {
  import opened Errors
  import opened Agent
  import opened Tally
  import opened Neighbours
  import SpatialSim
  import Runs

  /** The step length of every varPerson: its constructor hands 0.01 to
      Person, whatever step p the caller asked for. */
  const VarStep: real := 0.01

  /** The attributes varPerson adds to Person: the two probabilities s and a,
      the lockdown length L, the social-distancing and quarantine flags and
      the saved pre-quarantine position. */
  datatype Behaviour = Behaviour(s: real, a: real, L: int, SD: bool, Q: bool, oldpos: Option<Place>)

  datatype VarPerson = VarPerson(who: Person, b: Behaviour)

  /** `varPerson(p, s, a, L)` at its drawn initial position. */
  function NewVarPerson(p: real, s: real, a: real, L: int, at: Place): (v: VarPerson)
    ensures v.who.step == VarStep
    ensures v.who.state == S && v.who.pos == at
    ensures !v.b.SD && !v.b.Q && v.b.oldpos == None && v.b.L == L
  {
    VarPerson(Person(at, S, VarStep), Behaviour(s, a, L, false, false, None))
  }

  function NewVarPopulation(p: real, s: real, a: real, L: int, init: seq<Place>): (pop: seq<VarPerson>)
    ensures |pop| == |init|
    ensures forall j :: 0 <= j < |init| ==> pop[j] == NewVarPerson(p, s, a, L, init[j])
  {
    seq(|init|, j requires 0 <= j < |init| => NewVarPerson(p, s, a, L, init[j]))
  }

  /** The Person part of every agent. */
  function People(pop: seq<VarPerson>): (r: seq<Person>)
    ensures |r| == |pop|
    ensures forall j :: 0 <= j < |pop| ==> r[j] == pop[j].who
  {
    seq(|pop|, j requires 0 <= j < |pop| => pop[j].who)
  }

  /** The states of every agent, in agent order. */
  function VarStates(pop: seq<VarPerson>): (r: seq<State>)
    ensures |r| == |pop|
    ensures forall j :: 0 <= j < |pop| ==> r[j] == pop[j].who.state
  {
    States(People(pop))
  }

  /** The seeding branches are the base model's, applied to the Person parts. */
  function SeedVar(pop: seq<VarPerson>, position: string, m: int): (r: Result<seq<VarPerson>>)
    ensures r.Ok? <==> !SpatialSim.KnownPolicy(position) || m <= |pop|
    ensures r.Fail? ==> r.error == IndexOutOfRange
    ensures r.Ok? ==> |r.value| == |pop| && forall j :: 0 <= j < |pop| ==> r.value[j].b == pop[j].b
    ensures r.Ok? ==> People(r.value) == SpatialSim.Seed(People(pop), position, m).value
  {
    var people :- SpatialSim.Seed(People(pop), position, m);
    var r := seq(|pop|, j requires 0 <= j < |pop| => VarPerson(people[j], pop[j].b));
    assert People(r) == people;
    Ok(r)
  }

  /** `isSocialDist`: the flag is raised when the draw is at most s, and is never cleared. */
  function IsSocialDist(v: VarPerson, draw: real): (r: VarPerson)
    ensures r.b.SD <==> v.b.SD || draw <= v.b.s
    ensures r == v.(b := v.b.(SD := r.b.SD))
  {
    if draw <= v.b.s then v.(b := v.b.(SD := true)) else v
  }

  /** `isQuarantined`: the flag is raised when the draw is at most a, and is never cleared. */
  function IsQuarantined(v: VarPerson, draw: real): (r: VarPerson)
    ensures r.b.Q <==> v.b.Q || draw <= v.b.a
    ensures r == v.(b := v.b.(Q := r.b.Q))
  {
    if draw <= v.b.a then v.(b := v.b.(Q := true)) else v
  }

  /** The flag draws: one social-distancing draw per agent, and one quarantine
      draw per agent, used only by the agents that distance. */
  datatype FlagDraws = FlagDraws(sd: seq<real>, qd: seq<real>)

  /** The assignment loop: every agent draws for distancing, and an agent that
      distances then draws for quarantine.  From unflagged agents this gives
      SD exactly on a draw at most s, and Q exactly on SD plus a draw at most
      a, so every quarantining agent also distances. */
  function AssignFlags(pop: seq<VarPerson>, draws: FlagDraws): (r: seq<VarPerson>)
    requires |draws.sd| == |pop| && |draws.qd| == |pop|
    ensures |r| == |pop|
    ensures forall j :: 0 <= j < |pop| ==>
      && r[j].who == pop[j].who
      && (r[j].b.SD <==> pop[j].b.SD || draws.sd[j] <= pop[j].b.s)
      && (r[j].b.Q <==> pop[j].b.Q || (r[j].b.SD && draws.qd[j] <= pop[j].b.a))
      && r[j].b == pop[j].b.(SD := r[j].b.SD, Q := r[j].b.Q)
  {
    seq(|pop|, j requires 0 <= j < |pop| =>
      var v := IsSocialDist(pop[j], draws.sd[j]);
      if v.b.SD then IsQuarantined(v, draws.qd[j]) else v)
  }

  /** `moveToQuarantine`: the agent goes to the sentinel; its position is
      saved only when it is not already there. */
  function MoveToQuarantine(v: VarPerson): (r: VarPerson)
    ensures r.who == v.who.(pos := Far)
    ensures r.b == v.b.(oldpos := if v.who.pos != Far then Some(v.who.pos) else v.b.oldpos)
  {
    if v.who.pos != Far then VarPerson(v.who.(pos := Far), v.b.(oldpos := Some(v.who.pos)))
    else v.(who := v.who.(pos := Far))
  }

  /** Repeated calls keep the first pre-quarantine position. */
  lemma MoveToQuarantineIdempotent(v: VarPerson)
    ensures MoveToQuarantine(MoveToQuarantine(v)) == MoveToQuarantine(v)
  {
  }

  /** The lockdown test `t <= p.L`, read off whatever `p` names after the
      loops over the population: its last agent, or the float step argument
      when there are no agents, which has no attribute L.  When all agents
      share L the test is exactly t <= L. */
  function Lockdown(pop: seq<VarPerson>, t: nat): (r: Result<bool>)
    ensures r.Ok? <==> |pop| > 0
    ensures r.Fail? ==> r.error == MissingAttribute
  {
    if |pop| == 0 then Fail(MissingAttribute) else Ok(t <= pop[|pop| - 1].b.L)
  }

  /** Every agent carries the L it was built with, so reading it off the last
      agent makes lockdown active exactly for loop indices t <= L. */
  lemma LockdownWindow(pop: seq<VarPerson>, t: nat, L: int)
    requires |pop| > 0
    requires forall j :: 0 <= j < |pop| ==> pop[j].b.L == L
    ensures Lockdown(pop, t) == Ok(t <= L)
  {
    assert pop[|pop| - 1].b.L == L;
  }

  /** One agent's move during lockdown: quarantined agents go to the sentinel,
      the rest take an ordinary move. */
  function LockdownMove(v: VarPerson, d: Direction): (r: VarPerson)
    ensures r.b.SD == v.b.SD && r.b.Q == v.b.Q && r.who.state == v.who.state
    ensures v.b.Q ==> r == MoveToQuarantine(v)
    ensures !v.b.Q ==> r.b == v.b && r.who == MovePerson(v.who, d)
  {
    if !v.b.Q then v.(who := MovePerson(v.who, d)) else MoveToQuarantine(v)
  }

  /** One agent's move after lockdown: an agent with a saved position is put
      back there first (the saved position is never cleared, so this happens
      on every step), then it moves. */
  function FreeMove(v: VarPerson, d: Direction): (r: VarPerson)
    ensures r.b == v.b && r.who.state == v.who.state
    ensures var from := if v.b.oldpos.Some? then v.b.oldpos.value else v.who.pos;
      r.who.pos == Move(from, Displace(from, d, v.who.step))
  {
    var back := if v.b.oldpos.Some? then v.(who := v.who.(pos := v.b.oldpos.value)) else v;
    back.(who := MovePerson(back.who, d))
  }

  /** The positions of the agents that are not quarantined, in agent order:
      the list the lockdown tree is built over once the quarantined entries
      are filtered out. */
  function Resident(pop: seq<VarPerson>): (r: seq<Place>)
    ensures |r| <= |pop|
    ensures |r| == |pop| - Count(Quarantined(pop), true)
    decreases |pop|
  {
    if |pop| == 0 then []
    else
      var n := |pop| - 1;
      assert Quarantined(pop)[..n] == Quarantined(pop[..n]);
      Resident(pop[..n]) + (if pop[n].b.Q then [] else [pop[n].who.pos])
  }

  /** The filtered list of a prefix of the agents is a prefix of the filtered list. */
  lemma {:induction false} ResidentPrefix(pop: seq<VarPerson>, n: nat)
    requires n <= |pop|
    ensures Resident(pop[..n]) <= Resident(pop)
    decreases |pop|
  {
    if n < |pop| {
      var front := pop[..|pop| - 1];
      ResidentPrefix(front, n);
      assert front[..n] == pop[..n];
      assert Resident(front) <= Resident(pop);
    } else {
      assert pop[..n] == pop;
    }
  }

  /** The filtered list keeps agent order: the position of an agent that is
      not quarantined sits at the index that counts the residents before it. */
  lemma ResidentOrder(pop: seq<VarPerson>, j: nat)
    requires j < |pop| && !pop[j].b.Q
    ensures |Resident(pop[..j])| < |Resident(pop)| && Resident(pop)[|Resident(pop[..j])|] == pop[j].who.pos
  {
    var upto := pop[..j + 1];
    assert upto[..j] == pop[..j];
    assert Resident(upto) == Resident(pop[..j]) + [pop[j].who.pos];
    ResidentPrefix(pop, j + 1);
  }

  /** Every entry of the filtered list is the position of an agent that is not quarantined. */
  lemma {:induction false} ResidentMembers(pop: seq<VarPerson>, x: Place)
    requires x in Resident(pop)
    ensures exists j :: 0 <= j < |pop| && !pop[j].b.Q && pop[j].who.pos == x
    decreases |pop|
  {
    var n := |pop| - 1;
    var front := pop[..n];
    var tail := if pop[n].b.Q then [] else [pop[n].who.pos];
    assert Resident(pop) == Resident(front) + tail;
    if x in Resident(front) {
      ResidentMembers(front, x);
      var j :| 0 <= j < n && !front[j].b.Q && front[j].who.pos == x;
      assert pop[j] == front[j];
    } else {
      assert x in tail;
      assert !pop[n].b.Q && pop[n].who.pos == x;
    }
  }

  /** The quarantine flags, in agent order. */
  function Quarantined(pop: seq<VarPerson>): (r: seq<bool>)
    ensures |r| == |pop|
    ensures forall j :: 0 <= j < |pop| ==> r[j] == pop[j].b.Q
  {
    seq(|pop|, j requires 0 <= j < |pop| => pop[j].b.Q)
  }

  /** The population after the move phase, and the point list the tree is built over. */
  datatype Moved = Moved(pop: seq<VarPerson>, tree: seq<Place>)

  /** The move phase of one time step. */
  function MoveAllVar(pop: seq<VarPerson>, lockdown: bool, dirs: seq<Direction>): (r: Moved)
    requires |dirs| == |pop|
    ensures |r.pop| == |pop| && |r.tree| <= |pop|
    ensures |r.tree| == |pop| - if lockdown then Count(Quarantined(pop), true) else 0
    ensures lockdown ==> forall j :: 0 <= j < |pop| ==> r.pop[j] == LockdownMove(pop[j], dirs[j])
    ensures lockdown ==> r.tree == Resident(r.pop)
    ensures !lockdown ==> forall j :: 0 <= j < |pop| ==> r.pop[j] == FreeMove(pop[j], dirs[j])
    ensures !lockdown ==> r.tree == Positions(People(r.pop))
  {
    if lockdown then
      var moved := seq(|pop|, j requires 0 <= j < |pop| => LockdownMove(pop[j], dirs[j]));
      assert Quarantined(moved) == Quarantined(pop);
      Moved(moved, Resident(moved))
    else
      var moved := seq(|pop|, j requires 0 <= j < |pop| => FreeMove(pop[j], dirs[j]));
      Moved(moved, Positions(People(moved)))
  }

  /** Agent j with its state advanced. */
  function Advanced(v: VarPerson): VarPerson
  {
    v.(who := v.who.(state := ChangeState(v.who.state)))
  }

  /** `for ind in inds`: a susceptible agent is infected unless it distances. */
  function InfectAllVar(pop: seq<VarPerson>, inds: seq<nat>): (r: seq<VarPerson>)
    requires forall x :: x in inds ==> x < |pop|
    ensures |r| == |pop|
    ensures forall j :: 0 <= j < |pop| ==>
      r[j] == if pop[j].who.state == S && !pop[j].b.SD && j in inds then pop[j].(who := pop[j].who.(state := I)) else pop[j]
    decreases |inds|
  {
    if |inds| == 0 then pop
    else
      var j := inds[0];
      assert j in inds;
      assert forall x :: x in inds[1..] ==> x in inds;
      var next := if pop[j].who.state == S && !pop[j].b.SD then pop[j := Advanced(pop[j])] else pop;
      InfectAllVar(next, inds[1..])
  }

  /** Agent i's turn.  An infected agent that quarantines or distances infects
      no one; any other infected agent queries the tree at `tree[i]` -- the
      i-th entry of the possibly filtered list, which raises IndexError when
      the list is shorter -- and the indices found are taken as agent indices.
      Every agent infected at its turn then draws for recovery, suppressed or not. */
  function VisitVar(pop: seq<VarPerson>, tree: seq<Place>, q: real, k: real, recover: seq<real>, i: nat): (r: Result<seq<VarPerson>>)
    requires |tree| <= |pop| && |recover| == |pop| && i < |pop|
    ensures r.Fail? <==> pop[i].who.state == I && !pop[i].b.Q && !pop[i].b.SD && i >= |tree|
    ensures r.Fail? ==> r.error == IndexOutOfRange
    ensures pop[i].who.state != I ==> r == Ok(pop)
    ensures r.Ok? ==> |r.value| == |pop|
    ensures r.Ok? && pop[i].who.state == I ==>
      r.value[i] == pop[i].(who := pop[i].who.(state := if recover[i] < k then R else I))
    ensures r.Ok? && pop[i].who.state == I && (pop[i].b.Q || pop[i].b.SD) ==>
      forall j :: 0 <= j < |pop| && j != i ==> r.value[j] == pop[j]
    ensures r.Ok? && pop[i].who.state == I && !pop[i].b.Q && !pop[i].b.SD ==>
      forall j :: 0 <= j < |pop| && j != i ==>
        r.value[j] == if pop[j].who.state == S && !pop[j].b.SD && j < |tree| && InBall(q, tree[j], tree[i])
                      then pop[j].(who := pop[j].who.(state := I)) else pop[j]
  {
    if pop[i].who.state != I then Ok(pop)
    else
      var spread :-
        if pop[i].b.Q || pop[i].b.SD then Ok(pop)
        else if i >= |tree| then Fail(IndexOutOfRange)
        else Ok(InfectAllVar(pop, BallQuery(tree, tree[i], q)));
      if recover[i] < k then Ok(spread[i := Advanced(spread[i])]) else Ok(spread)
  }

  /** Agents whose flags, position and step are those of the other population. */
  predicate SameBodies(a: seq<VarPerson>, b: seq<VarPerson>)
  {
    && |a| == |b|
    && forall j :: 0 <= j < |a| ==> a[j].b == b[j].b && a[j].who.pos == b[j].who.pos && a[j].who.step == b[j].who.step
  }

  /** Distancing susceptible agents are still susceptible in the other population. */
  predicate DistancersSpared(a: seq<VarPerson>, b: seq<VarPerson>)
  {
    forall j :: 0 <= j < |a| && j < |b| && a[j].b.SD && a[j].who.state == S ==> b[j].who.state == S
  }

  /** The pass over agents lo..hi-1, stopping at the first error.  It changes
      no flag or position, no agent leaves R or re-enters S, and a distancing
      susceptible agent stays susceptible. */
  function PassVar(pop: seq<VarPerson>, tree: seq<Place>, q: real, k: real, recover: seq<real>, lo: nat, hi: nat): (r: Result<seq<VarPerson>>)
    requires |tree| <= |pop| && |recover| == |pop| && lo <= hi <= |pop|
    ensures r.Ok? ==> SameBodies(pop, r.value)
    ensures r.Ok? ==> Progresses(VarStates(pop), VarStates(r.value))
    ensures r.Ok? ==> DistancersSpared(pop, r.value)
    ensures r.Fail? ==> r.error == IndexOutOfRange
    decreases hi - lo
  {
    if lo == hi then Ok(pop)
    else
      var next :- VisitVar(pop, tree, q, k, recover, lo);
      VisitVarFacts(pop, tree, q, k, recover, lo);
      var rest :- PassVar(next, tree, q, k, recover, lo + 1, hi);
      PassChains(pop, next, rest);
      Ok(rest)
  }

  /** A successful visit changes no flag or position, no agent leaves R or
      re-enters S, and a distancing susceptible agent stays susceptible. */
  lemma VisitVarFacts(pop: seq<VarPerson>, tree: seq<Place>, q: real, k: real, recover: seq<real>, i: nat)
    requires |tree| <= |pop| && |recover| == |pop| && i < |pop|
    ensures var r := VisitVar(pop, tree, q, k, recover, i);
      r.Ok? ==> SameBodies(pop, r.value) && Progresses(VarStates(pop), VarStates(r.value)) && DistancersSpared(pop, r.value)
  {
  }

  /** The three promises of a pass compose. */
  lemma PassChains(a: seq<VarPerson>, b: seq<VarPerson>, c: seq<VarPerson>)
    requires SameBodies(a, b) && Progresses(VarStates(a), VarStates(b)) && DistancersSpared(a, b)
    requires SameBodies(b, c) && Progresses(VarStates(b), VarStates(c)) && DistancersSpared(b, c)
    ensures SameBodies(a, c) && Progresses(VarStates(a), VarStates(c)) && DistancersSpared(a, c)
  {
  }

  /** The pass fails only at the turn of an infected agent that neither
      quarantines nor distances and whose index is past the end of the tree
      list, so it succeeds when every agent in the range past that end
      quarantines or distances -- in particular when the list is as long as
      the range. */
  lemma {:induction false} PassVarSucceeds(pop: seq<VarPerson>, tree: seq<Place>, q: real, k: real, recover: seq<real>, lo: nat, hi: nat)
    requires |tree| <= |pop| && |recover| == |pop| && lo <= hi <= |pop|
    ensures (forall j :: lo <= j < hi && |tree| <= j ==> pop[j].b.Q || pop[j].b.SD) ==> PassVar(pop, tree, q, k, recover, lo, hi).Ok?
    decreases hi - lo
  {
    if lo < hi && forall j :: lo <= j < hi && |tree| <= j ==> pop[j].b.Q || pop[j].b.SD {
      assert VisitVar(pop, tree, q, k, recover, lo).Ok?;
      VisitVarFacts(pop, tree, q, k, recover, lo);
      var next := VisitVar(pop, tree, q, k, recover, lo).value;
      assert SameBodies(pop, next);
      PassVarSucceeds(next, tree, q, k, recover, lo + 1, hi);
    }
  }

  /** The position invariant that every step keeps: only quarantining agents
      are ever at the sentinel or have a saved position, a saved position is
      a point, and an agent at the sentinel has one saved. */
  predicate Settled(pop: seq<VarPerson>)
  {
    forall j :: 0 <= j < |pop| ==> SettledAgent(pop[j])
  }

  /** The position invariant for one agent. */
  predicate SettledAgent(v: VarPerson)
  {
    && (v.who.pos == Far ==> v.b.Q && v.b.oldpos.Some?)
    && (v.b.oldpos.Some? ==> v.b.Q && v.b.oldpos.value.At?)
  }

  /** Both kinds of move keep an agent's flags, L, step and state, and keep
      the position invariant. */
  lemma MoveKeepsAgent(v: VarPerson, lockdown: bool, d: Direction)
    ensures var w := if lockdown then LockdownMove(v, d) else FreeMove(v, d);
      && w.b.SD == v.b.SD && w.b.Q == v.b.Q && w.b.L == v.b.L && w.who.step == v.who.step
      && w.who.state == v.who.state
      && (SettledAgent(v) ==> SettledAgent(w))
  {
  }

  /** The random draws of one time step. */
  datatype StepDraws = StepDraws(dirs: seq<Direction>, recover: seq<real>)

  predicate Shaped(steps: seq<StepDraws>, n: nat)
  {
    forall s :: 0 <= s < |steps| ==> |steps[s].dirs| == n && |steps[s].recover| == n
  }

  /** Flags and the run parameters that no step changes. */
  predicate SameFlags(a: seq<VarPerson>, b: seq<VarPerson>)
  {
    && |a| == |b|
    && forall j :: 0 <= j < |a| ==>
         a[j].b.SD == b[j].b.SD && a[j].b.Q == b[j].b.Q && a[j].b.L == b[j].b.L && a[j].who.step == b[j].who.step
  }

  /** One time step with loop index t: lockdown test, move phase, pass. */
  function StepVar(pop: seq<VarPerson>, t: nat, q: real, k: real, draws: StepDraws): (r: Result<seq<VarPerson>>)
    requires |draws.dirs| == |pop| && |draws.recover| == |pop|
    ensures |pop| == 0 ==> r == Fail(MissingAttribute)
    ensures r.Fail? ==> r.error == MissingAttribute || r.error == IndexOutOfRange
    ensures r.Ok? ==> |r.value| == |pop|
    ensures |pop| > 0 && (pop[|pop| - 1].b.L < t || forall j :: 0 <= j < |pop| ==> !pop[j].b.Q) ==> r.Ok?
  {
    var lockdown :- Lockdown(pop, t);
    var moved := MoveAllVar(pop, lockdown, draws.dirs);
    assert (forall j :: 0 <= j < |pop| ==> !pop[j].b.Q) ==> Count(Quarantined(pop), true) == 0 by {
      if forall j :: 0 <= j < |pop| ==> !pop[j].b.Q {
        assert true !in Quarantined(pop);
      }
    }
    PassVarSucceeds(moved.pop, moved.tree, q, k, draws.recover, 0, |pop|);
    PassVar(moved.pop, moved.tree, q, k, draws.recover, 0, |pop|)
  }

  /** The move phase keeps every agent's flags, L, step length and state,
      and keeps the position invariant. */
  lemma MovePhaseFacts(pop: seq<VarPerson>, lockdown: bool, dirs: seq<Direction>)
    requires |dirs| == |pop|
    ensures var moved := MoveAllVar(pop, lockdown, dirs).pop;
      && SameFlags(pop, moved)
      && VarStates(moved) == VarStates(pop)
      && (Settled(pop) ==> Settled(moved))
  {
    var moved := MoveAllVar(pop, lockdown, dirs).pop;
    forall j | 0 <= j < |pop|
      ensures && moved[j].b.SD == pop[j].b.SD && moved[j].b.Q == pop[j].b.Q
              && moved[j].b.L == pop[j].b.L && moved[j].who.step == pop[j].who.step
              && moved[j].who.state == pop[j].who.state
              && (SettledAgent(pop[j]) ==> SettledAgent(moved[j]))
    {
      MoveKeepsAgent(pop[j], lockdown, dirs[j]);
    }
    assert VarStates(moved) == VarStates(pop);
  }

  /** A successful step keeps every flag, L and step length, keeps the
      S -> I -> R order, leaves distancing susceptible agents susceptible and
      preserves the position invariant. */
  lemma StepVarFacts(pop: seq<VarPerson>, t: nat, q: real, k: real, draws: StepDraws)
    requires |draws.dirs| == |pop| && |draws.recover| == |pop|
    requires StepVar(pop, t, q, k, draws).Ok?
    ensures var r := StepVar(pop, t, q, k, draws).value;
      && SameFlags(pop, r)
      && Progresses(VarStates(pop), VarStates(r))
      && DistancersSpared(pop, r)
      && (Settled(pop) ==> Settled(r))
  {
    var lockdown := Lockdown(pop, t).value;
    var moved := MoveAllVar(pop, lockdown, draws.dirs);
    MovePhaseFacts(pop, lockdown, draws.dirs);
    var r := PassVar(moved.pop, moved.tree, q, k, draws.recover, 0, |pop|).value;
    assert StepVar(pop, t, q, k, draws).value == r;
    MoveThenPass(pop, moved.pop, r);
  }

  /** A move phase that keeps flags, states and the position invariant,
      followed by a pass, makes a step with the facts StepVarFacts states. */
  lemma MoveThenPass(pop: seq<VarPerson>, moved: seq<VarPerson>, r: seq<VarPerson>)
    requires SameFlags(pop, moved) && VarStates(moved) == VarStates(pop) && (Settled(pop) ==> Settled(moved))
    requires SameBodies(moved, r) && Progresses(VarStates(moved), VarStates(r)) && DistancersSpared(moved, r)
    ensures SameFlags(pop, r) && Progresses(VarStates(pop), VarStates(r)) && DistancersSpared(pop, r)
    ensures Settled(pop) ==> Settled(r)
  {
    forall j | 0 <= j < |pop| ensures pop[j].who.state == moved[j].who.state {
      assert VarStates(moved)[j] == VarStates(pop)[j];
    }
  }

  /** Step i of a run, with loop index i and the i-th draws.  A run never
      asks for a step without draws of the population's size; that case is
      reported as IndexError, as running out of a list would be. */
  function StepOf(q: real, k: real, steps: seq<StepDraws>): (seq<VarPerson>, nat) -> Result<seq<VarPerson>>
  {
    (pop: seq<VarPerson>, i: nat) =>
      if i < |steps| && |steps[i].dirs| == |pop| && |steps[i].recover| == |pop| then StepVar(pop, i, q, k, steps[i])
      else Fail(IndexOutOfRange)
  }

  /** Within the run, step i is StepVar with loop index i and the i-th draws;
      past the last draws it is IndexError. */
  lemma StepOfApplies(q: real, k: real, steps: seq<StepDraws>, pop: seq<VarPerson>, i: nat)
    ensures i < |steps| && |steps[i].dirs| == |pop| && |steps[i].recover| == |pop| ==>
      StepOf(q, k, steps)(pop, i) == StepVar(pop, i, q, k, steps[i])
    ensures |steps| <= i ==> StepOf(q, k, steps)(pop, i) == Fail(IndexOutOfRange)
  {
  }

  /** The populations after 0, 1, ..., |steps| steps of the time loop, whose
      index starts at 0; the first failing step fails the run. */
  function TrajectoryVar(pop: seq<VarPerson>, q: real, k: real, steps: seq<StepDraws>): (r: Result<seq<seq<VarPerson>>>)
    requires Shaped(steps, |pop|)
    ensures |pop| == 0 && |steps| > 0 ==> r == Fail(MissingAttribute)
    ensures r.Ok? ==> |r.value| == |steps| + 1 && r.value[0] == pop
  {
    Runs.Run(StepOf(q, k, steps), pop, 0, |steps|)
  }

  /** Each population of a successful run has the original size and is one
      StepVar, with loop index d, after the previous one. */
  lemma TrajectoryStep(pop: seq<VarPerson>, q: real, k: real, steps: seq<StepDraws>, d: nat)
    requires Shaped(steps, |pop|) && d < |steps|
    ensures TrajectoryVar(pop, q, k, steps).Ok? ==>
      var traj := TrajectoryVar(pop, q, k, steps).value;
      && |traj[d]| == |pop|
      && StepVar(traj[d], d, q, k, steps[d]) == Ok(traj[d + 1])
  {
    if TrajectoryVar(pop, q, k, steps).Ok? {
      Runs.RunSteps(StepOf(q, k, steps), pop, 0, |steps|, d);
    }
  }

  /** No step of a successful run changes a flag, L or step length. */
  lemma TrajectoryFlags(pop: seq<VarPerson>, q: real, k: real, steps: seq<StepDraws>, d: nat)
    requires Shaped(steps, |pop|) && d <= |steps|
    ensures TrajectoryVar(pop, q, k, steps).Ok? ==> SameFlags(pop, TrajectoryVar(pop, q, k, steps).value[d])
  {
    if TrajectoryVar(pop, q, k, steps).Fail? { return; }
    var step := StepOf(q, k, steps);
    forall y: seq<VarPerson>, i: nat | SameFlags(pop, y) && step(y, i).Ok?
      ensures SameFlags(pop, step(y, i).value)
    {
      StepVarFacts(y, i, q, k, steps[i]);
    }
    Runs.RunInvariant(step, y => SameFlags(pop, y), pop, 0, |steps|, d);
  }

  /** The position invariant, once true, holds all along a successful run. */
  lemma TrajectorySettled(pop: seq<VarPerson>, q: real, k: real, steps: seq<StepDraws>, d: nat)
    requires Shaped(steps, |pop|) && d <= |steps|
    requires Settled(pop)
    ensures TrajectoryVar(pop, q, k, steps).Ok? ==> Settled(TrajectoryVar(pop, q, k, steps).value[d])
  {
    if TrajectoryVar(pop, q, k, steps).Fail? { return; }
    var step := StepOf(q, k, steps);
    forall y: seq<VarPerson>, i: nat | Settled(y) && step(y, i).Ok?
      ensures Settled(step(y, i).value)
    {
      StepVarFacts(y, i, q, k, steps[i]);
    }
    Runs.RunInvariant(step, Settled, pop, 0, |steps|, d);
  }

  /** Between consecutive populations of a successful run no agent leaves R
      or re-enters S, and distancing susceptible agents stay susceptible. */
  lemma TrajectoryProgress(pop: seq<VarPerson>, q: real, k: real, steps: seq<StepDraws>, d: nat)
    requires Shaped(steps, |pop|) && d < |steps|
    ensures TrajectoryVar(pop, q, k, steps).Ok? ==>
      var traj := TrajectoryVar(pop, q, k, steps).value;
      && Progresses(VarStates(traj[d]), VarStates(traj[d + 1]))
      && DistancersSpared(traj[d], traj[d + 1])
  {
    if TrajectoryVar(pop, q, k, steps).Fail? { return; }
    var traj := TrajectoryVar(pop, q, k, steps).value;
    TrajectoryStep(pop, q, k, steps, d);
    StepVarFacts(traj[d], d, q, k, steps[d]);
  }

  /** A distancing agent that is susceptible at the start of a run is still
      susceptible after every step: nobody can infect it. */
  lemma DistancerStaysSusceptible(pop: seq<VarPerson>, q: real, k: real, steps: seq<StepDraws>, j: nat, d: nat)
    requires Shaped(steps, |pop|) && d <= |steps| && j < |pop|
    requires pop[j].b.SD && pop[j].who.state == S
    ensures TrajectoryVar(pop, q, k, steps).Ok? ==>
      && j < |TrajectoryVar(pop, q, k, steps).value[d]|
      && TrajectoryVar(pop, q, k, steps).value[d][j].who.state == S
  {
    if TrajectoryVar(pop, q, k, steps).Fail? { return; }
    var step := StepOf(q, k, steps);
    forall y: seq<VarPerson>, i: nat | SameFlags(pop, y) && y[j].who.state == S && step(y, i).Ok?
      ensures SameFlags(pop, step(y, i).value) && step(y, i).value[j].who.state == S
    {
      StepVarFacts(y, i, q, k, steps[i]);
    }
    Runs.RunInvariant(step, (y: seq<VarPerson>) => SameFlags(pop, y) && y[j].who.state == S, pop, 0, |steps|, d);
  }

  /** A run over agents whose lockdown never starts (L below the first loop
      index 0) or who never quarantine succeeds: the tree list then always
      has an entry for every agent. */
  lemma TrajectorySucceeds(pop: seq<VarPerson>, q: real, k: real, steps: seq<StepDraws>)
    requires Shaped(steps, |pop|)
    ensures |pop| > 0 && (pop[|pop| - 1].b.L < 0 || forall j :: 0 <= j < |pop| ==> !pop[j].b.Q) ==>
      TrajectoryVar(pop, q, k, steps).Ok?
  {
    if |pop| > 0 && (pop[|pop| - 1].b.L < 0 || forall j :: 0 <= j < |pop| ==> !pop[j].b.Q) {
      var step := StepOf(q, k, steps);
      forall y: seq<VarPerson>, i: nat | 0 <= i < |steps| && SameFlags(pop, y)
        ensures step(y, i).Ok? && SameFlags(pop, step(y, i).value)
      {
        assert y[|y| - 1].b.L == pop[|pop| - 1].b.L;
        assert StepVar(y, i, q, k, steps[i]).Ok?;
        StepVarFacts(y, i, q, k, steps[i]);
      }
      Runs.RunSucceeds(step, y => SameFlags(pop, y), pop, 0, |steps|);
    }
  }

  /** Flags drawn for a freshly built population: SD exactly on a draw at most
      s, Q exactly on SD and a draw at most a, so Q implies SD; and nobody has a
      saved position, so the position invariant starts out true. */
  lemma FreshFlags(p: real, s: real, a: real, L: int, init: seq<Place>, flags: FlagDraws)
    requires |flags.sd| == |init| && |flags.qd| == |init|
    requires forall j :: 0 <= j < |init| ==> init[j].At?
    ensures var pop := AssignFlags(NewVarPopulation(p, s, a, L, init), flags);
      forall j :: 0 <= j < |init| ==>
        && (pop[j].b.SD <==> flags.sd[j] <= s)
        && (pop[j].b.Q <==> flags.sd[j] <= s && flags.qd[j] <= a)
        && (pop[j].b.Q ==> pop[j].b.SD)
        && pop[j].b.L == L
    ensures Settled(AssignFlags(NewVarPopulation(p, s, a, L, init), flags))
  {
  }

  /** The filtered tree is indexed by agent index: during lockdown, with
      agent 0 quarantined (at the sentinel) and agent 1 infected and not
      distancing, the tree list holds one point and agent 1's lookup
      `position[1]` raises IndexError. */
  lemma FilteredTreeIndexFails()
    ensures var w0 := VarPerson(Person(Far, S, VarStep), Behaviour(0.5, 0.4, 30, true, true, Some(At(0.5, 0.5))));
      var w1 := VarPerson(Person(At(0.25, 0.25), I, VarStep), Behaviour(0.5, 0.4, 30, false, false, None));
      PassVar([w0, w1], Resident([w0, w1]), 0.1, 0.5, [0.9, 0.9], 0, 2) == Fail(IndexOutOfRange)
  {
    var w0 := VarPerson(Person(Far, S, VarStep), Behaviour(0.5, 0.4, 30, true, true, Some(At(0.5, 0.5))));
    var w1 := VarPerson(Person(At(0.25, 0.25), I, VarStep), Behaviour(0.5, 0.4, 30, false, false, None));
    var pop := [w0, w1];
    assert Quarantined(pop) == [true, false];
    var tree := Resident(pop);
    assert |tree| == 1;
    assert VisitVar(pop, tree, 0.1, 0.5, [0.9, 0.9], 0) == Ok(pop);
    assert VisitVar(pop, tree, 0.1, 0.5, [0.9, 0.9], 1) == Fail(IndexOutOfRange);
  }

  /** The states of every population of a trajectory. */
  function VarStatesOf(traj: seq<seq<VarPerson>>): (r: seq<seq<State>>)
    ensures |r| == |traj|
    ensures forall d :: 0 <= d < |traj| ==> r[d] == VarStates(traj[d])
  {
    seq(|traj|, d requires 0 <= d < |traj| => VarStates(traj[d]))
  }

  /** The output lists of a successful run from a flagged population: entry
      d of each list tallies the population after d steps, so there are
      t + 1 entries each, adding up to n, R never decreasing and S never
      increasing. */
  function RunSeriesVar(pop: seq<VarPerson>, q: real, k: real, steps: seq<StepDraws>): (r: Result<Series>)
    requires Shaped(steps, |pop|)
    ensures |pop| == 0 && |steps| > 0 ==> r == Fail(MissingAttribute)
    ensures r.Ok? ==> |r.value.S| == |steps| + 1 && |r.value.I| == |steps| + 1 && |r.value.R| == |steps| + 1
    ensures r.Ok? ==> forall d :: 0 <= d <= |steps| ==> r.value.S[d] + r.value.I[d] + r.value.R[d] == |pop|
    ensures r.Ok? ==> NonDecreasing(r.value.R) && NonIncreasing(r.value.S)
    ensures r.Ok? ==> r.value.S[0] == Count(VarStates(pop), S) && r.value.I[0] == Count(VarStates(pop), I)
                      && r.value.R[0] == Count(VarStates(pop), R)
    ensures |steps| == 0 || (|pop| > 0 && (pop[|pop| - 1].b.L < 0 || forall j :: 0 <= j < |pop| ==> !pop[j].b.Q)) ==> r.Ok?
    ensures r.Ok? ==>
              && TrajectoryVar(pop, q, k, steps).Ok?
              && Tallies(r.value, VarStatesOf(TrajectoryVar(pop, q, k, steps).value))
  {
    TrajectorySucceeds(pop, q, k, steps);
    var traj :- TrajectoryVar(pop, q, k, steps);
    TrajectoryStates(pop, q, k, steps);
    TrajectorySizes(pop, q, k, steps);
    var states := VarStatesOf(traj);
    assert forall d :: 0 < d < |states| ==> Progresses(states[d - 1], states[d]);
    SeriesMonotone(states);
    Ok(SeriesOf(states))
  }

  /** Along a successful run each population's states progress from the
      previous population's. */
  lemma TrajectoryStates(pop: seq<VarPerson>, q: real, k: real, steps: seq<StepDraws>)
    requires Shaped(steps, |pop|) && TrajectoryVar(pop, q, k, steps).Ok?
    ensures var traj := TrajectoryVar(pop, q, k, steps).value;
      forall d :: 0 < d < |traj| ==> Progresses(VarStates(traj[d - 1]), VarStates(traj[d]))
  {
    var traj := TrajectoryVar(pop, q, k, steps).value;
    forall d | 0 < d < |traj| ensures Progresses(VarStates(traj[d - 1]), VarStates(traj[d])) {
      TrajectoryProgress(pop, q, k, steps, d - 1);
    }
  }

  /** Every population of a successful run has one agent per original agent. */
  lemma TrajectorySizes(pop: seq<VarPerson>, q: real, k: real, steps: seq<StepDraws>)
    requires Shaped(steps, |pop|) && TrajectoryVar(pop, q, k, steps).Ok?
    ensures var traj := TrajectoryVar(pop, q, k, steps).value;
      forall d :: 0 <= d < |traj| ==> |traj[d]| == |pop|
  {
    var traj := TrajectoryVar(pop, q, k, steps).value;
    forall d | 0 <= d < |traj| ensures |traj[d]| == |pop| {
      TrajectoryFlags(pop, q, k, steps, d);
    }
  }

  /** A fresh population seeded by a known policy with m <= n agents, or by
      an unknown one, holds exactly the seeded agents infected and the rest
      susceptible, before and after the flags are drawn. */
  lemma SeededCounts(p: real, s: real, a: real, L: int, init: seq<Place>, position: string, m: int, flags: FlagDraws)
    requires |flags.sd| == |init| && |flags.qd| == |init|
    ensures SpatialSim.KnownPolicy(position) && m > |init| ==> SeedVar(NewVarPopulation(p, s, a, L, init), position, m).Fail?
    ensures var r := SeedVar(NewVarPopulation(p, s, a, L, init), position, m);
      var seeded := if SpatialSim.KnownPolicy(position) && m > 0 then m else 0;
      r.Ok? ==>
        var st := VarStates(AssignFlags(r.value, flags));
        Count(st, I) == seeded && Count(st, S) == |init| - seeded && Count(st, R) == 0
  {
    var born := NewVarPopulation(p, s, a, L, init);
    var r := SeedVar(born, position, m);
    if r.Ok? {
      assert People(born) == SpatialSim.NewPopulation(VarStep, init);
      SpatialSim.SeedFresh(VarStep, init, position, m);
      assert VarStates(AssignFlags(r.value, flags)) == States(People(r.value));
    }
  }

  /** Seeding changes no flag, so after the flags are drawn every agent still
      carries L and quarantines exactly on a distancing draw at most s and a
      quarantine draw at most a. */
  lemma SeededFlags(p: real, s: real, a: real, L: int, init: seq<Place>, position: string, m: int, flags: FlagDraws)
    requires |flags.sd| == |init| && |flags.qd| == |init|
    requires SeedVar(NewVarPopulation(p, s, a, L, init), position, m).Ok?
    ensures var pop := AssignFlags(SeedVar(NewVarPopulation(p, s, a, L, init), position, m).value, flags);
      && |pop| == |init|
      && forall j :: 0 <= j < |init| ==> pop[j].b.L == L && (pop[j].b.Q <==> flags.sd[j] <= s && flags.qd[j] <= a)
  {
    var born := NewVarPopulation(p, s, a, L, init);
    var seeded := SeedVar(born, position, m).value;
    var pop := AssignFlags(seeded, flags);
    forall j | 0 <= j < |init| ensures pop[j].b.L == L && (pop[j].b.Q <==> flags.sd[j] <= s && flags.qd[j] <= a) {
      assert seeded[j].b == born[j].b;
    }
  }

  /** `runSimulation(k, q, p, n, t, s, a, L, position, num_initial_infected)`
      with initial positions and draws as inputs.  A known policy asked to seed
      more agents than exist fails, and so does a run of at least one step over
      no agents; entry d of the three lists of a successful run tallies the
      seeded, flagged population after d steps, so they have t + 1 entries
      adding up to n, start at (n - m, m, 0), R never decreases and S never
      increases. */
  function RunSimulation(k: real, q: real, p: real, n: nat, t: nat, s: real, a: real, L: int,
                         position: string, m: int, init: seq<Place>, flags: FlagDraws,
                         steps: seq<StepDraws>): (r: Result<Series>)
    requires |init| == n && |flags.sd| == n && |flags.qd| == n && |steps| == t && Shaped(steps, n)
    ensures SpatialSim.KnownPolicy(position) && m > n ==> r == Fail(IndexOutOfRange)
    ensures n == 0 && t > 0 && (m <= 0 || !SpatialSim.KnownPolicy(position)) ==> r == Fail(MissingAttribute)
    ensures r.Ok? ==> |r.value.S| == t + 1 && |r.value.I| == t + 1 && |r.value.R| == t + 1
    ensures r.Ok? ==> forall d :: 0 <= d <= t ==> r.value.S[d] + r.value.I[d] + r.value.R[d] == n
    ensures r.Ok? ==> NonDecreasing(r.value.R) && NonIncreasing(r.value.S)
    ensures r.Ok? && SpatialSim.KnownPolicy(position) && 0 <= m ==>
      r.value.S[0] == n - m && r.value.I[0] == m && r.value.R[0] == 0
    ensures && (!SpatialSim.KnownPolicy(position) || m <= n)
            && (t == 0 || (n > 0 && (L < 0 || forall j :: 0 <= j < n ==> !(flags.sd[j] <= s && flags.qd[j] <= a))))
            ==> r.Ok?
    ensures r.Ok? ==>
              && SeedVar(NewVarPopulation(p, s, a, L, init), position, m).Ok?
              && var pop := AssignFlags(SeedVar(NewVarPopulation(p, s, a, L, init), position, m).value, flags);
                 && TrajectoryVar(pop, q, k, steps).Ok?
                 && Tallies(r.value, VarStatesOf(TrajectoryVar(pop, q, k, steps).value))
  {
    var born := NewVarPopulation(p, s, a, L, init);
    var seeded :- SeedVar(born, position, m);
    var flagged := AssignFlags(seeded, flags);
    SeededCounts(p, s, a, L, init, position, m, flags);
    SeededFlags(p, s, a, L, init, position, m, flags);
    RunSeriesVar(flagged, q, k, steps)
  }
}
