# SIR-Modelling in Dafny

A model of the agent-based epidemic simulations of SIR-Modelling and of
the finite-difference operators of its spatial ODE solver. It covers:

- **`SpatialSim`** (`spatial.dfy`): the spatial agent simulation of
  `sir/discreteSim_spatial.py`. Agents in the unit square are seeded by a
  placement policy ('Center', 'Corner' or 'Random'). Each time step, every
  agent moves by its step length and a k-d tree is built over the new
  positions. Then one pass in ascending agent order lets each infected
  agent infect the susceptible agents within radius q, after which it
  draws for its own recovery.
- **`Variation`** (`variation.dfy`): the behavioural variant of
  `sir/variation_2.py`. It adds social-distancing and quarantine flags and
  a lockdown window. During lockdown, quarantined agents go to the (inf, inf)
  sentinel and are dropped from the tree list. Infectors that distance or
  quarantine infect no one, and distancing agents are never infected.
- **`ContactSim`** (`contact.dfy`): the non-spatial random-contact
  simulation of `sir/discreteSim.py`.
- **`ToriSim`** (`tori.dfy`): the asymptomatic/symptomatic variant
  `sir/varsim_tori.py`.
- **`Stencil`** (`stencil.dfy`): `forward_diff_matrix`, `laplacian` and the
  s/i/r block layout of `build/lib/sir/odeSim_spatial.py`.
- Shared pieces:
  - `Agent` (`agent.dfy`): the spatial `Person`.
  - `Tally` (`tally.dfy`): `returnCounts` and the output lists.
  - `Neighbours` (`neighbours.dfy`): the radius query.
  - `Runs` (`runs.dfy`): the time loop, as a fold of a step function that
    can fail, with the facts every run inherits from its step.
  - `Errors` (`errors.dfy`): the exceptions the code can raise, as a
    `Result`.

Every random draw is an input. A run takes, per step, one direction and
one uniform value per agent. Positions are exact reals. Each run is a pure
function from its parameters and draws to either the output lists or the
error the Python code would raise.

The code was followed where it differs from its documentation:

- A distancing or quarantined infector infects no one on every step, not
  only during lockdown. So a lockdown of length 0 does not give back the
  base model.
- The lockdown test is `t <= L` on the loop index, which starts at 0, so
  lockdown lasts L + 1 steps.
- The list the lockdown tree is built over has the quarantined entries
  removed, but it is still indexed by agent index, both for the query
  centre and for the indices the query returns. When the filtered list is
  too short, the lookup raises IndexError.
- In the pass, an agent infected earlier in the same pass by a lower-index
  neighbour gets its own turn when the pass reaches it. It then infects
  its neighbours and draws for recovery in that same step.
- The contact models run all interactions before all recoveries. So an
  agent infected today can recover today.

## Model

| member | source | states |
|---|---|---|
| Agent.ChangeState | sir/discreteSim_spatial.py:41-45 | the state advances exactly one rank along S, I, R, except that R stays R |
| Agent.ChangeStateMonotone | sir/discreteSim_spatial.py:41-45 | a change of state never goes back and never skips a rank; it is a fixed point exactly on R |
| Agent.Move | sir/discreteSim_spatial.py:58-63 | the candidate is taken iff it lies in the closed unit square (or equals the old position), else the agent stays; the square is never left |
| Agent.MovePerson | sir/discreteSim_spatial.py:47-63 | a move keeps state and step length, and puts the agent at the displaced point when that point is in the unit square, else leaves it where it was |
| Tally.Count | sir/discreteSim_spatial.py:66-76 | the count is at most the length, zero iff the state is absent, full iff every entry has that state |
| Tally.CountKept | sir/discreteSim_spatial.py:66-76 | if every x stays an x, the count of x does not drop |
| Tally.CountsOfSeeded | sir/discreteSim_spatial.py:98-118 | a population whose first m agents are I and the rest S tallies (n - m, m, 0) |
| Tally.CountsPartition | test/test.py:98-101 | S + I + R counts add up to the population size |
| Tally.SeriesOf | sir/discreteSim_spatial.py:135-137 | entry d of each list is the number of agents in that state on day d (`Tally.Tallies`), and S + I + R equals the population at every index |
| Tally.SeriesMonotone | sir/discreteSim_spatial.py:135-137 | if every step keeps R agents in R and adds nobody to S, then R never decreases and S never increases |
| Neighbours.InBallSymmetric | sir/discreteSim_spatial.py:128 | being within radius q is symmetric, and a point is its own neighbour |
| Neighbours.BallQuery | sir/discreteSim_spatial.py:125-128 | the query returns exactly the indices within distance q of the centre, ascending, with no repeats |
| SpatialSim.InfectFirst | sir/discreteSim_spatial.py:100-114 | seeding succeeds iff the seed count fits the population, failing with IndexError otherwise; exactly agents i..m-1 are placed and advanced |
| SpatialSim.Seed | sir/discreteSim_spatial.py:100-114 | each known policy advances the first m agents, placing them at (0.5, 0.5), at (0, 0) or leaving them; an unknown policy changes nothing; failure iff a known policy has m > n |
| SpatialSim.SeedFresh | sir/discreteSim_spatial.py:98-118 | from a fresh population, agents 0..m-1 are infected and the rest susceptible, so the first tallies are (n - m, m, 0) |
| SpatialSim.NewPopulation | sir/discreteSim_spatial.py:98 | n new agents, each susceptible, with step p, at its own initial position |
| SpatialSim.InfectAll | sir/discreteSim_spatial.py:129-131 | exactly the susceptible agents among the returned indices become infected |
| SpatialSim.MoveAll | sir/discreteSim_spatial.py:122-124 | every agent makes its own move and no state changes |
| SpatialSim.Visit | sir/discreteSim_spatial.py:127-133 | an infected agent's turn infects exactly its susceptible neighbours, then recovers it iff its draw is below k; other agents' turns change nothing |
| SpatialSim.Pass | sir/discreteSim_spatial.py:126-133 | the pass moves nobody, takes nobody out of R and puts nobody back into S; a recovery happens only at an agent's own turn on a draw below k |
| SpatialSim.SweepFacts | sir/discreteSim_spatial.py:126-133 | by induction over the ascending fold of turns: positions kept, the S→I→R order kept, recoveries only at visited turns on draws below k, unvisited agents only go from S to I |
| SpatialSim.PassStep | sir/discreteSim_spatial.py:127-133 | a turn of agent lo followed by a pass over lo+1..hi-1 keeps every promise of a pass over lo..hi-1 |
| SpatialSim.PassSplit | sir/discreteSim_spatial.py:126-133 | the ascending pass over lo..hi is the pass over lo..mid followed by the pass over mid..hi |
| SpatialSim.InfectedLaterIsProcessed | sir/discreteSim_spatial.py:126-133 | a higher-index neighbour infected at i's turn is infected at its own turn and then infects all its own neighbours |
| SpatialSim.InfectedLeavesNoSusceptible | sir/discreteSim_spatial.py:127-131 | after an infected agent's turn, none of its neighbours is still susceptible |
| SpatialSim.InfectedEarlierWaits | sir/discreteSim_spatial.py:126-133 | a lower-index neighbour infected at i's turn stays infected to the end of the pass |
| SpatialSim.NoInfectedPassIsQuiet | sir/discreteSim_spatial.py:126-133 | with no infected agent, the pass changes nothing |
| SpatialSim.Step | sir/discreteSim_spatial.py:120-133 | a step keeps the population size and the S→I→R order, and keeps agents inside the unit square |
| SpatialSim.NoInfectedStepIsQuiet | sir/discreteSim_spatial.py:120-133 | with no infected agent, a step changes no state |
| SpatialSim.Trajectory | sir/discreteSim_spatial.py:120-137 | the trajectory has t + 1 populations of size n, each one step after the previous |
| SpatialSim.RunSeries | sir/discreteSim_spatial.py:116-137 | entry d of each list counts that state in the population after d steps of the trajectory; so the lists have t + 1 entries summing to n, R never decreases, S never increases, and they start at the seeded tallies |
| SpatialSim.Simulate | sir/discreteSim_spatial.py:78-139 | the run fails iff a known policy seeds more than n agents; otherwise entry d of each list counts that state after d steps from the seeded population, the lists sum to n, are monotone and start at (n - m, m, 0) |
| SpatialSim.NoSeedNoEpidemic | sir/discreteSim_spatial.py:98-139 | with nobody seeded, S stays n and I stays 0 on every step |
| SpatialSim.QuietSeries | sir/discreteSim_spatial.py:116-137 | run from an all-susceptible population, every entry of S is n and every entry of I is 0 |
| SpatialSim.AllSusceptibleStay | sir/discreteSim_spatial.py:126-133 | an all-susceptible population stays all-susceptible |
| SpatialSim.StaysInSquare | sir/discreteSim_spatial.py:55-63 | agents that start in the unit square are in it after every step |
| Variation.NewVarPerson | sir/variation_2.py:14-30 | a new agent is susceptible with step 0.01 whatever p is asked for, and has no flags and no saved position |
| Variation.NewVarPopulation | sir/variation_2.py:84 | n new agents, each built as varPerson with the same s, a and L, at its own initial position |
| Variation.SeedVar | sir/variation_2.py:86-101 | seeding is the base model's seeding applied to the agents, leaving the behaviour attributes alone |
| Variation.IsSocialDist | sir/variation_2.py:33-39 | SD is set iff it was set or the draw is at most s; nothing else changes |
| Variation.IsQuarantined | sir/variation_2.py:42-48 | Q is set iff it was set or the draw is at most a; nothing else changes |
| Variation.AssignFlags | sir/variation_2.py:108-113 | SD on a draw at most s; Q only for distancing agents, on a second draw at most a |
| Variation.FreshFlags | sir/variation_2.py:108-113 | from fresh agents, Q implies SD, and the position invariant holds |
| Variation.MoveToQuarantine | sir/variation_2.py:51-60 | the agent goes to the sentinel, and its position is saved only if it was not already there |
| Variation.MoveToQuarantineIdempotent | sir/variation_2.py:51-60 | quarantining twice is quarantining once, so the first saved position is kept |
| Variation.Lockdown | sir/variation_2.py:116-122 | the lockdown test succeeds iff there is an agent to read L from, and otherwise fails with AttributeError |
| Variation.LockdownWindow | sir/variation_2.py:116-122 | when all agents share L, lockdown is on exactly for loop indices t <= L |
| Variation.LockdownMove | sir/variation_2.py:132-142 | in lockdown, quarantined agents are sent to the sentinel and the others move normally; flags and state are kept |
| Variation.FreeMove | sir/variation_2.py:151-157 | after lockdown, an agent with a saved position moves from it, and any other agent from where it is |
| Variation.Resident | sir/variation_2.py:144-145 | the filtered list has one entry for each agent that is not quarantined, so its length is n minus the number of quarantined agents |
| Variation.ResidentPrefix | sir/variation_2.py:144-145 | filtering a prefix of the agents gives a prefix of the filtered list |
| Variation.ResidentOrder | sir/variation_2.py:144-145 | the filter keeps agent order: a resident agent's position is at the index equal to the number of residents before it |
| Variation.ResidentMembers | sir/variation_2.py:144-145 | every point of the filtered list is the position of some non-quarantined agent |
| Runs.Run | sir/variation_2.py:116-186 | a run of n steps has n + 1 states starting at the initial one, and fails with the first step's error when that step fails |
| Runs.RunSteps | sir/variation_2.py:116-186 | in a successful run, state d + 1 is the step of state d at time t + d |
| Runs.RunInvariant | sir/variation_2.py:116-186 | a property that every successful step preserves holds of every state of a successful run from a state that has it |
| Runs.RunSucceeds | sir/variation_2.py:116-186 | a run succeeds when a property of its start guarantees that every step succeeds and passes the property on |
| Variation.MoveAllVar | sir/variation_2.py:128-159 | the move phase applies LockdownMove or FreeMove per agent; the tree list has one entry per agent, minus one per quarantined agent when in lockdown |
| Variation.MovePhaseFacts | sir/variation_2.py:128-159 | the move phase changes no flag and no state, and keeps the saved-position invariant |
| Variation.InfectAllVar | sir/variation_2.py:171-177 | exactly the returned susceptible agents that do not distance become infected |
| Variation.VisitVar | sir/variation_2.py:161-181 | fails iff an unsuppressed infector's index is past the tree list; suppressed infectors infect no one; every infected agent draws for recovery |
| Variation.PassVar | sir/variation_2.py:161-181 | the pass fails only with IndexError; otherwise it changes no flag or position, keeps the S→I→R order, and leaves distancing susceptible agents susceptible |
| Variation.VisitVarFacts | sir/variation_2.py:161-181 | one turn changes no flag or position, keeps the S→I→R order, and leaves distancing susceptible agents susceptible |
| Variation.PassChains | sir/variation_2.py:161-181 | the promises of two consecutive parts of a pass compose into the promise of the whole pass |
| Variation.PassVarSucceeds | sir/variation_2.py:161-181 | the pass succeeds when every agent in the range whose index is past the end of the tree list quarantines or distances, so in particular when the list covers the range |
| Variation.StepVar | sir/variation_2.py:116-181 | a step over no agents fails with AttributeError and other steps can fail only with IndexError; a step succeeds when lockdown is over (L < t) or nobody quarantines; success keeps the population size |
| Variation.StepVarFacts | sir/variation_2.py:116-181 | a successful step changes no flag, keeps the S→I→R order, spares distancers and keeps the saved-position invariant |
| Variation.StepOfApplies | sir/variation_2.py:116-181 | step i of the run is StepVar with loop index i and the i-th draws, and a step past the last draws is IndexError |
| Variation.TrajectoryVar | sir/variation_2.py:116-186 | a run over no agents with a step to take fails with AttributeError; a successful run has t + 1 populations starting at the initial one |
| Variation.TrajectoryStep | sir/variation_2.py:116-186 | population d + 1 of a successful run is StepVar of population d with loop index d, and every population has n agents |
| Variation.TrajectoryFlags | sir/variation_2.py:108-186 | the flags drawn before the loop are the flags of every population of the run |
| Variation.TrajectorySettled | sir/variation_2.py:116-186 | the saved-position invariant holds in every population of the run |
| Variation.TrajectoryProgress | sir/variation_2.py:116-186 | each step of the run keeps the S→I→R order and leaves distancing susceptible agents susceptible |
| Variation.TrajectoryStates | sir/variation_2.py:116-186 | every population's states progress from the previous population's |
| Variation.TrajectorySizes | sir/variation_2.py:116-186 | every population of the run has n agents |
| Variation.TrajectorySucceeds | sir/variation_2.py:116-186 | a run over at least one agent succeeds when lockdown never starts (L < 0) or nobody quarantines |
| Variation.DistancerStaysSusceptible | sir/variation_2.py:172-177 | a distancing agent that starts susceptible stays susceptible for the whole run |
| Variation.FilteredTreeIndexFails | sir/variation_2.py:144-170 | with agent 0 quarantined and agent 1 an active infector, the lookup into the filtered list raises IndexError |
| Variation.SeededCounts | sir/variation_2.py:86-113 | over-seeding under a known policy fails; otherwise, after the flags are drawn, the first tallies are (n - m, m, 0), or (n, 0, 0) when nobody is seeded |
| Variation.SeededFlags | sir/variation_2.py:86-113 | after seeding and drawing flags, every agent carries L and quarantines exactly on a distancing draw at most s and a quarantine draw at most a |
| Variation.RunSeriesVar | sir/variation_2.py:103-186 | a run with no steps, or one where lockdown never starts or nobody quarantines, succeeds; success gives t + 1 entries summing to n, with R never decreasing and S never increasing, starting at the first tallies; entry d counts each state in population d of the successful trajectory |
| Variation.RunSimulation | sir/variation_2.py:64-188 | fails with IndexError when a known policy over-seeds, and with AttributeError over no agents; succeeds when seeding fits and either t = 0, or n > 0 and lockdown never starts (L < 0) or no agent draws quarantine; success gives the lists starting at (n - m, m, 0), monotone, with entry d counting each state after d steps from the seeded, flagged population |
| ContactSim.ChooseTarget | sir/discreteSim.py:40 | a target is drawn iff n >= 2, and it is always below n - 1 |
| ContactSim.TargetRange | sir/discreteSim.py:40 | every index below n - 1 can be drawn and n - 1 never can |
| ContactSim.Targets | sir/discreteSim.py:39-40 | each contact's target is the one its draw picks |
| ContactSim.Contacts | sir/discreteSim.py:39-45 | succeeds iff there are two agents or no contact to make, failing with the empty-choice error; a lone agent is left unchanged |
| ContactSim.Turn | sir/discreteSim.py:36-38 | an agent's turn does nothing unless it is infected, in which case it makes its contacts |
| ContactSim.ContactsEffect | sir/discreteSim.py:39-45 | exactly the drawn targets that are not the initiator and not recovered become infected; everyone else is unchanged |
| ContactSim.ContactsInfectOnly | sir/discreteSim.py:39-45 | an initiator's contacts keep the S→I→R order, change agents only to I, and never touch the last agent |
| ContactSim.InfectOnlyChains | sir/discreteSim.py:35-45 | two rounds of contacts that each only infect, sparing the last agent, together only infect |
| ContactSim.Interactions | sir/discreteSim.py:28-45 | succeeds when n >= 2 or b = 0; with no infected agent in the range nothing changes; keeps the S→I→R order; changed agents become I; the last agent is never touched |
| ContactSim.LoneInfectedFails | sir/discreteSim.py:35-40 | a single infected agent with a contact to make raises the empty-choice error |
| ContactSim.Recoveries | sir/discreteSim.py:48-57 | an agent ends in R iff it was in R or was infected with draw at most k; S agents are untouched |
| ContactSim.Day | sir/discreteSim.py:104-106 | a day keeps the S→I→R order and leaves an untouched last agent susceptible |
| ContactSim.SameDayRecovery | sir/discreteSim.py:104-106 | an agent infected by today's contacts recovers today when its draw is at most k |
| ContactSim.Days | sir/discreteSim.py:99-109 | one state per day, each progressing from the last; the first failing day fails the run |
| ContactSim.DaysSteps | sir/discreteSim.py:99-109 | each state list of a successful run is Day applied to the previous one with that day's draws |
| ContactSim.PatientZero | sir/discreteSim.py:93-96 | agent 0 is infected, everyone else susceptible |
| ContactSim.LastSusceptibleCounted | sir/discreteSim.py:99-109 | while the last agent stays susceptible, every day counts at least one S |
| ContactSim.DaysShapedTail | sir/discreteSim.py:99-109 | the draws of the days after the first keep the shape the run needs |
| ContactSim.PrependDay | sir/discreteSim.py:99-109 | putting a day in front of a run from the state it steps to keeps the sizes, the day-to-day progress and the last agent's S |
| ContactSim.SeriesFacts | sir/discreteSim.py:99-109 | the tallies of a size-keeping, progressing run sum to n, are monotone, start at the first tallies and keep S >= 1 while the last agent is susceptible |
| ContactSim.LonePatientZeroFails | sir/discreteSim.py:35-40 | a lone patient zero with a contact to make fails its first day |
| ContactSim.PatientZeroSeries | sir/discreteSim.py:93-111 | the run from patient zero succeeds iff n >= 2, there are no later days, or b = 0, and it starts at (n - 1, 1, 0) |
| ContactSim.DaysSeries | sir/discreteSim.py:98-111 | entry d of each list counts that state on day d of the run; so the lists sum to n per day, are monotone, and start at the first tallies |
| ContactSim.SimulateSIR | sir/discreteSim.py:71-111 | fails iff n = 0 or a lone agent must make contacts; on success entry d of each list counts that state on day d of the run from patient zero, giving t entries summing to n, starting at (n - 1, 1, 0), monotone, with S >= 1 when n >= 2 |
| ToriSim.Exposure | sir/varsim_tori.py:74 | the yes/no draw succeeds iff the probability is in [0, 1], and is 'yes' iff the uniform value is below it |
| ToriSim.NewInfection | sir/varsim_tori.py:80-81 | a new infection is I_A or I_S |
| ToriSim.NewInfectionFair | sir/varsim_tori.py:80-81 | for either kind of infector, the two outcomes of the fair draw are I_A and I_S |
| ToriSim.Spread | sir/varsim_tori.py:51-81 | only susceptible agents other than the initiator and the last agent change, and only to an infected state; valid input never fails |
| ToriSim.Turn | sir/varsim_tori.py:37-48 | S and R agents do nothing; I_A agents spread with a, I_S agents with c |
| ToriSim.OneContactRule | sir/varsim_tori.py:63-81 | one contact with a susceptible target infects it iff the draw is below a (for an I_A initiator) or below c (for I_S) |
| ToriSim.SpreadSingle | sir/varsim_tori.py:63-81 | one contact with a susceptible target infects it, with the fair sub-state draw, iff the draw is below the probability, and changes nothing else |
| ToriSim.Interactions | sir/varsim_tori.py:29-48 | succeeds for n >= 2 with valid probabilities; with no infected agent in the range nothing changes; only S agents change, to infected; the last agent is untouched |
| ToriSim.Recoveries | sir/varsim_tori.py:115-127 | an agent ends in R iff it was in R or was infected with draw at most k |
| ToriSim.Day | sir/varsim_tori.py:179-180 | a day keeps the S→infected→R order |
| ToriSim.Days | sir/varsim_tori.py:172-184 | one state per day, each progressing from the last |
| ToriSim.DaysSteps | sir/varsim_tori.py:172-184 | each state list of a successful run is Day applied to the previous one with that day's draws |
| ToriSim.CountsPartition | sir/varsim_tori.py:130-141 | the four tallies add up to the population |
| ToriSim.SeriesOf | sir/varsim_tori.py:172-184 | entry d of each of the four lists is the number of agents in that compartment on day d (`ToriSim.Tallies`), and the four add up to the population |
| ToriSim.SeriesMonotone | sir/varsim_tori.py:172-184 | R never decreases and S never increases along a progressing run |
| ToriSim.PatientZero | sir/varsim_tori.py:166-169 | agent 0 is asymptomatic, everyone else susceptible |
| ToriSim.PatientZeroCounts | sir/varsim_tori.py:166-177 | the first tallies are (n - 1, 1, 0, 0) |
| ToriSim.DaysSeries | sir/varsim_tori.py:171-186 | entry d of each list counts that status on day d of the run; so the lists sum to n per day, are monotone, and start at the first tallies |
| ToriSim.SimulateSIR | sir/varsim_tori.py:144-186 | fails when n = 0; succeeds when n >= 2 with valid probabilities; on success entry d of each list counts that status on day d of the run from patient zero, giving t entries summing to n, starting at (n - 1, 1, 0, 0), monotone |
| Stencil.TripletsBelow | build/lib/sir/odeSim_spatial.py:13-20 | the loop emits (k, k, -1) then (k, k + 1, 1) for each k |
| Stencil.Triplets | build/lib/sir/odeSim_spatial.py:10-22 | 2(n - 1) nonzero triplets, in range, at pairwise distinct positions, so the matrix stores exactly that many entries |
| Stencil.AssembleBelow | build/lib/sir/odeSim_spatial.py:22 | summing duplicates in the CSR conversion gives -1 on the diagonal and +1 just right of it, in every row but the last |
| Stencil.ForwardDiff | build/lib/sir/odeSim_spatial.py:6-22 | D is n x n with -1 at (k, k) and +1 at (k, k + 1) for k < n - 1, and zero elsewhere |
| Stencil.DiffRowsSumToZero | build/lib/sir/odeSim_spatial.py:6-22 | every row of D sums to zero |
| Stencil.DD | build/lib/sir/odeSim_spatial.py:28-31 | -DᵀD is n x n and is the second-difference stencil: 1 next to the diagonal, -2 on interior diagonal entries, -1 at each end of the diagonal when n >= 2, 0 elsewhere (so the single entry is 0 when n = 1) |
| Stencil.DDSymmetricZeroRowSums | build/lib/sir/odeSim_spatial.py:28-31 | DD is symmetric and its rows sum to zero |
| Stencil.KronSymmetric | build/lib/sir/odeSim_spatial.py:38-39 | the Kronecker product of symmetric matrices is symmetric |
| Stencil.KronEntrySymmetric | build/lib/sir/odeSim_spatial.py:38-39 | for symmetric factors, entry (x, y) of the Kronecker product equals entry (y, x) |
| Stencil.Eye | build/lib/sir/odeSim_spatial.py:38-39 | `sparse.eye(n)` is n x n, symmetric, with 1 on the diagonal and 0 elsewhere |
| Stencil.BlockCoords | build/lib/sir/odeSim_spatial.py:38-39 | offset u of block i is index i * q + u, below p * q, and splits back into i and u |
| Stencil.KronAt | build/lib/sir/odeSim_spatial.py:38-39 | entry (i * q + u, j * q + v) of kron(a, b) is a[i][j] * b[u][v] |
| Stencil.KronEyeLeft | build/lib/sir/odeSim_spatial.py:38 | kron(I, b) holds b in the diagonal blocks and zero elsewhere |
| Stencil.KronEyeRight | build/lib/sir/odeSim_spatial.py:39 | kron(a, I) holds a[i][j] where the in-block offsets agree and zero elsewhere |
| Stencil.KronRowPrefix | build/lib/sir/odeSim_spatial.py:38-39 | a partial row sum of kron(a, b) is the whole blocks before block j plus the first v entries of block j |
| Stencil.KronRowSum | build/lib/sir/odeSim_spatial.py:38-39 | row (i, u) of kron(a, b) sums to row i of a's sum times row u of b's sum |
| Stencil.SumToAdd | build/lib/sir/odeSim_spatial.py:42 | the row sum of a matrix sum is the sum of the row sums |
| Stencil.TwoDimensionalEntry | build/lib/sir/odeSim_spatial.py:38-42 | entry ((i, u), (j, v)) of kron(I, dd) + kron(dd, I) is dd[u][v] when i = j plus dd[i][j] when u = v |
| Stencil.TwoDimensionalRowSum | build/lib/sir/odeSim_spatial.py:38-42 | when dd's rows sum to zero, so do the rows of kron(I, dd) + kron(dd, I) |
| Stencil.LaplacianEntry | build/lib/sir/odeSim_spatial.py:28-42 | entry ((i, u), (j, v)) of the Laplacian is the second difference along u within block i plus the second difference along i where u = v: -4 inside, +1 at the four grid neighbours, 0 elsewhere, with the reflecting ends of DD |
| Stencil.LaplacianRowsSumToZero | build/lib/sir/odeSim_spatial.py:28-42 | every row of the Laplacian sums to zero |
| Stencil.Kron | build/lib/sir/odeSim_spatial.py:38-39 | the Kronecker product of a p x p and a q x q matrix is pq x pq, entry (x, y) being a[x / q][y / q] times b[x % q][y % q] |
| Stencil.Laplacian | build/lib/sir/odeSim_spatial.py:24-44 | n = 0 fails with ZeroDivisionError at h = 1 / n; otherwise the result is n² x n² |
| Stencil.LaplacianSymmetric | build/lib/sir/odeSim_spatial.py:24-44 | the Laplacian exists iff n >= 1, and then it is n² x n² and symmetric |
| Stencil.BlocksPartition | build/lib/sir/odeSim_spatial.py:82-84 | the s, i and r blocks have M² indices each and together are exactly 0 .. 3M² - 1 |

## Left out

- Floating point: positions, probabilities and step lengths are exact reals. Rounding at the square's edge or in the tallies is not modelled.
- The random number generators: every draw is an input, one per agent and per purpose, so the order numpy consumes its stream in is not modelled. A draw that the code would not take is simply unused.
- The direction of a move is an input. The model does not require it to be the normalised Gaussian vector `move` draws.
- The k-d tree's internals: the query is stated as the exact set of indices within distance q, in ascending order. The order of the indices does not affect the outcome.
- An empty k-d tree (no agents, or everyone quarantined during lockdown) is taken to give no neighbours. Whether scipy accepts an empty point list is not modelled.
- `initial_position` for the seeded agents stores a numpy array rather than a tuple. The model keeps only the point.
- `num_initial_infected` is an integer. A negative value seeds nobody, as `range` does.
- Sizes are naturals: the population size n, the number of steps or days t and the contact count b are `nat`, so negative arguments are not modelled. On negatives the code behaves as follows: `np.zeros` of a negative length raises ValueError in sir/discreteSim.py and sir/varsim_tori.py; `range(n)` gives an empty population in sir/discreteSim_spatial.py and sir/variation_2.py; `for t in range(t)` gives a one-entry series there; and `range(b)` makes a negative b act as 0.
- Default arguments (`position='Center'`, `num_initial_infected=5` in `discrete_spatial_simulation`, and every default of `runSimulation`, including `position='Random'`) are not modelled: every parameter is passed explicitly.
- Contact draws: `random.choice(np.arange(0, n - 1))` is modelled as entry `u % (n - 1)` of the range for a draw u. The probabilities of the choice are not modelled.
- The ODE models (`odeSim.py`, the `odeSim_spatial` class's right-hand side, initial conditions and `solve_ivp` call) are numerical integration and are left out. Only the operators and index layout the class builds are modelled.
- Stencil.LaplacianSymmetric: the h-scaled copy `D / h**2` that `laplacian` computes is discarded by the code, so it is not part of the model.
- Stencil: matrices are dense integer matrices. Sparse storage formats are reflected only in the triplet count.
- ToriSim.SimulateSIR: success is stated only in one direction (n >= 2 with probabilities in [0, 1]). A run with invalid probabilities that never reaches a susceptible target also succeeds, and that case is not characterised.
- Variation.StepVar: success is stated in one direction. During lockdown with quarantined agents, a step still succeeds when every agent indexed past the end of the filtered list quarantines, distances or is not infected. That case is characterised per pass by Variation.PassVarSucceeds and VisitVar, not per step.
- Variation.RunSimulation: success is stated in one direction, for no lockdown (L < 0) or no quarantined agent. Runs through a lockdown with quarantined agents succeed or fail depending on which agents are infected at their turn, and are not characterised.
- ContactSim.SameDayRecovery: it assumes the interactions succeed and infect the agent, rather than deriving that from particular draws.
- Plotting scripts, `setup.py` and the unit tests themselves are not modelled. The discrete tests' sum property is proved as `Tally.CountsPartition` and `ContactSim.SimulateSIR`.
