/** The agent of the spatial simulation (class `Person` of
    sir/discreteSim_spatial.py): a point in the plane, an SIR compartment and a
    step length. */
module Agent {

  /** The compartments 'S', 'I' and 'R'. */
  datatype State = S | I | R

  /** Position in the S -> I -> R order. */
  function Rank(st: State): nat
  {
    match st
    case S => 0
    case I => 1
    case R => 2
  }

  /** `Person.change_state`: the one-step advance of the state machine. */
  function ChangeState(st: State): (r: State)
    ensures Rank(r) == if st == R then Rank(st) else Rank(st) + 1
  {
    match st
    case S => I
    case I => R
    case R => R
  }

  /** A change of state never goes backwards, never skips I, and R is terminal. */
  lemma ChangeStateMonotone(st: State)
    ensures Rank(st) <= Rank(ChangeState(st)) <= Rank(st) + 1
    ensures ChangeState(st) == st <==> st == R
  {
  }

  /** A position: a point of the plane, or the quarantine sentinel (inf, inf)
      of sir/variation_2.py, which lies outside every finite region. */
  datatype Place = At(x: real, y: real) | Far

  /** The closed unit square [0,1] x [0,1]. */
  predicate InUnitSquare(p: Place)
  {
    p.At? && 0.0 <= p.x <= 1.0 && 0.0 <= p.y <= 1.0
  }

  /** A direction drawn for a move; the source draws a normalised Gaussian
      vector, here it is an input. */
  datatype Direction = Direction(dx: real, dy: real)

  /** The candidate destination `pos + d * p` (an infinite coordinate stays infinite). */
  function Displace(pos: Place, d: Direction, step: real): Place
  {
    match pos
    case At(x, y) => At(x + d.dx * step, y + d.dy * step)
    case Far => Far
  }

  /** The boundary rule of `Person.move`: a candidate inside the closed unit
      square is taken, anything else is rejected and the agent stays put. */
  function Move(pos: Place, cand: Place): (r: Place)
    ensures r == cand || r == pos
    ensures r == cand <==> InUnitSquare(cand) || cand == pos
    ensures InUnitSquare(pos) ==> InUnitSquare(r)
  {
    if InUnitSquare(cand) then cand else pos
  }

  datatype Person = Person(pos: Place, state: State, step: real)

  /** `Person.move` with the drawn direction as input. */
  function MovePerson(who: Person, d: Direction): (r: Person)
    ensures r.state == who.state && r.step == who.step
    ensures InUnitSquare(who.pos) ==> InUnitSquare(r.pos)
    ensures r.pos != who.pos ==> r.pos == Displace(who.pos, d, who.step) && InUnitSquare(r.pos)
    ensures r.pos == Move(who.pos, Displace(who.pos, d, who.step))
  {
    who.(pos := Move(who.pos, Displace(who.pos, d, who.step)))
  }

  /** The states of a population, in agent order. */
  function States(pop: seq<Person>): (r: seq<State>)
    ensures |r| == |pop|
    ensures forall j :: 0 <= j < |pop| ==> r[j] == pop[j].state
  {
    seq(|pop|, j requires 0 <= j < |pop| => pop[j].state)
  }

  /** The positions of a population, in agent order. */
  function Positions(pop: seq<Person>): (r: seq<Place>)
    ensures |r| == |pop|
    ensures forall j :: 0 <= j < |pop| ==> r[j] == pop[j].pos
  {
    seq(|pop|, j requires 0 <= j < |pop| => pop[j].pos)
  }
}
