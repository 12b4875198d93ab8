# Verifying BOON's range analysis

This project models the heart of boon-rs, a flow-insensitive analyser for string-buffer overruns in C, and proves
properties of it in Dafny 4.11. The analyser gives every string a pair of integers, the bytes allocated (`siz`) and the
bytes used with the terminator (`len`), walks the program once to collect range constraints over them, solves the
constraints with an interval solver that widens, and reports every buffer whose length may exceed its size.

`dafny verify dfyconfig.toml` checks everything. The files build on each other in this order:

| file | models |
|---|---|
| `Ranges` | the saturating interval domain of `src/range.rs`: an endpoint at or beyond ±32767 *is* infinity |
| `Terms` | linear terms and constraints (`src/constraint.rs`), their value, and the set of integers they denote |
| `Problems` | the snapshot the solver receives, its transfer function, and the least solution as a Kleene limit |
| `Components` | the loop over one strongly connected component, with and without widening |
| `Graphs`, `Tarjan`, `Kahn` | reachability, the iterative component search and the component order, over arrays |
| `Solver` | whole runs of the solver: fixpoints, coverage and exactness, for any layering of the components |
| `Depends`, `Solve` | the dependency trace and the methods of `solve` |
| `Determinism` | the order of discovery is unique, and the order of the components does not matter: solving is a function |
| `Feedback` | components of one variable that feeds itself: where widening loses nothing |
| `Verdicts` | what a report, a tier and the absence of a report mean |
| `Systems`, `ConstraintSystem`, `Operators` | the constraint system as a value and as a mutable class with union-find; what its operators mean under a solution |
| `Buffers`, `Syntax`, `Formats`, `Runs` | the bytes of a buffer, the C fragment, printf formats, and the runs of a function body |
| `Generator`, `Walks`, `Walker` | constraint generation as functions, what every step of it keeps, and the walker as a mutable object |
| `Printf`, `Soundness` | the generated terms contain what runs compute |
| `Exactness`, `Spans`, `Demands` | the other direction: the generated constraints ask for no more than the rule of each step, format conversions included |
| `Pins`, `EndToEnd` | what a walk pins; walk, solve, read the reports: when silence is safe for every run |
| `Programs`, `CopyPrograms`, `CatPrograms`, `ReadPrograms`, `InitPrograms`, `FormatPrograms` | families of programs in full: what the analyser says of them, against what C does |
| `Cycles`, `Counterexamples` | families of systems on which the stronger claims fail, with the exact conditions |

## What is proved, and where it stops

*The solver.* The component loop **replaces** a range by the join of what flows in now; it does not accumulate, and it
visits a component in the order the search emits it. So it is not unconditionally a least-fixpoint solver, although the
header of `src/solver.rs` (lines 3-14) says it computes the least assignment and that the method yields the answer of
the original solver. What holds is proved for every system:

- after every round, converged or not, the ranges contain those of the same loop without widening;
- when every loop leaves by `!changed`, the final ranges are a fixpoint of the whole system, and contain the least one;
- when every loop converges *or* settles without widening, the final ranges contain the least solution;
- when the influence graph has no cycle but self-loops, and each variable feeds itself only through linear constraints
  positive in it (`i = i + 1`, `force_len_top`, `strncat` onto its own target) and through `min` with coefficient 1,
  every loop converges by its third pass; each end of the result is least for its component, or infinite;
- without a `min` on the self-loops the result **is** the least solution: widening loses nothing, because an end that
  grows once would have grown for ever.

The conditions are sharp. Coefficient 1, the only one `push_min_item` emits, is the only one under which feedback
through `min` keeps that promise (`Counterexamples.OnlyUnitMinIsHarmless`). On longer cycles the result depends on the
order in which a component is visited. That order is proved to be fixed: components come out of the search against the
depth-first preorder (`Tarjan.TarjanScc`), that preorder is unique, and the order between components is irrelevant, so
solving is a function of its input (`Determinism.SolvingIsDetermined`). In that order a three-variable cycle converges
exactly if its three seeds are equal, and otherwise swings with period two until the cap and ends outside every solution;
`-x ⊆ x` converges exactly if its seed is 0; a two-variable cycle converges in either order, and is least exactly if its
two seeds are equal. Nor is coverage unconditional: on s ⊆ x2, x0 + 1 ⊆ x1, x1 ⊆ x2, x2 ⊆ x0 the cap of 1000 rounds cuts a
climb short at s + 499, where the least solution is unbounded, so a query violated there passes in silence
(`Cycles.CappedClimbMissesLeast`).

*The domain.* Saturated addition holds every sum of the unbounded integers of its operands exactly when neither operand
*skews* the other: sits wholly at one infinity while the other reaches a finite way back from it
(`Ranges.AddSoundOnlyWhenAligned`). An unreported query bounds unbounded integers exactly when it is not *blind*: when it
does not compare two equal infinities (`Verdicts.PassedQueryBounds`). The soundness theorems assume a *straight* result,
in which no sum formed by the evaluator is skewed and no query is blind. Pinned variables ignore what flows into them
(`Counterexamples.PinnedInflowIsIgnored`), so the end-to-end theorem also asks that the pins absorb their inflow. That can be
read off the program: it holds in every solution if only variables are assigned to, no array declared without a size is, and
each such array has one initializer (`EndToEnd.BodyPinsAbsorb`), which is what C demands of arrays. Convergence and
straightness can be read off the result.

*The program.* For a fragment with integer variables, `+`, `-`, unary `-`, `*`, `/`, comparisons, logical operators, `?:`,
assignment, `++`/`--`, `if`, `while`, `do`, `for`, `break`, `continue`, blocks and declarations, and string variables
used through `strcpy`, `strncpy`, `strcat`, `strncat`, `strdup`, `strlen`, the `strchr` family, `malloc`, `getenv`, `fgets`,
`gets`, `gethostname`, `syserror`, `syssignal`, `sprintf` and `snprintf`, every store that any run reaches before a routine
first leaves its guard lies inside every straight solution of the generated constraints: the string in each buffer, and the extent
of the last write into it. Writing at an offset is covered as long as the analyser still knows the place: at sums of
constants, integer variables and string lengths added to a string variable. A variable of any other type, a stream say, may
be named and assigned anywhere; its value is left open. A run stops where the fragment says nothing about C: undefined or unspecified
behaviour, writing through anything but a string variable or such an offset into one, storing a pointer into a buffer that
already has a variable, and what "Left out" lists. Where another rule of the walker is unsound by design, the run stops too,
or the value is left open. Conditions whose value the analysis does not track may go either way, and reading supplies any
length within its limit. `fuel` bounds loop rounds, so that every finite part of every run is reached for some `fuel`.

*The guards.* Buffers are kept byte by byte, because string length and bytes written come apart here: `strncpy` pads to
its bound, and writes no terminator when the source is longer (section 7.24.2.4 of C11). The bounds of `strncpy`, `strncat`
and `snprintf` are unsigned in C, so a negative `int` stands for a size near 2^64, which the analyser takes for a small
minimum; `strcat` is modelled as `strcpy`, `gethostname` by its bound alone, and an `snprintf` whose format is not a literal
not at all. `Buffers.StrncpyRuleIsExact`, `StrncatRuleIsExact`, `StrcatRuleIsExact`, `SnprintfRuleIsExact`, `CutRuleIsExact`,
`IdleRuleIsExact` and `TextRuleIsExact` say for every bound, source, old content, place and size exactly when the generated
constraint covers what the routine leaves behind; outside that guard the run goes on as in C, and the theorem stops speaking
of it. So silence of the analyser is not safety in general: `char b[size]; strncpy(b, s, n);` overruns without a report
exactly if min(length, n) fits and the bound, as a size, does not (`CopyPrograms.CopyVerdict`), and after
`char d[size] = a; char e[room]; strncat(d, s, n); strcpy(e, d);` an overrun of `e` goes unreported exactly if `n` is negative,
`a` fits into `e`, and the whole does not (`CatPrograms.CatVerdict`). `char b[size]; fgets(b, n, stdin);`, on the other hand, is
reported exactly if some input overruns it (`ReadPrograms.ReadVerdict`), and `char d[size] = a;` never is, however long the
literal (`InitPrograms.SizedVerdict`). In these programs `n` is any expression of integer constants, `+`, `-` and `*`. An array
that its initializer fills exactly holds no string at all.

*Formats.* Lengths of printf output follow section 7.21.6.1 of C11. Literals, `%%`, bare `%c`, bare `%d`, `%i`, `%u`, `%x`, `%X`
and `%o` of 64-bit values, and `%s` with flags and an optional non-negative constant or `*` width and precision print what C
prints. Where the number of bytes is open (floating-point numbers, pointers, numbers with a width, a precision, flags or a
length modifier, arguments of kinds the analysis does not follow, and all formats that are not literals), the input supplies
it; a conversion that prints more bytes than the analyser allows for it, or that the analyser reads otherwise than C does,
puts the call outside its guard.

*Exactness.* Soundness bounds the constraints from one side. From the other, `Demands` says for every library routine,
operator, assignment and declaration which solutions of the constraints so far extend to the new ones: those, and only those,
whose ranges take in what the rule of that step names. For formats `Spans` gives the two ends as a table of the conversions
added up along the format, and the solver's range for `char b[size]; sprintf(b, f, ...);` is exactly that
(`FormatPrograms.FormatVerdict`): `%d` or `%x` occupies 2..21 bytes, so the array is reported exactly if it is smaller than 21.

The name shown for a variable class in a trace is that of its first variable (`src/solver.rs:337-342`), although the comment
there speaks of the representative, and `union` keeps a named representative for the sake of reports
(`src/constraint.rs:218-219`). The model follows the code: `Depends.NameIsFirst` and `ConstraintSystem.UnifiedNameIsFirst` say
when the two names agree, and `ConstraintSystem.UnnamedFirstHidesName` shows a class whose name is lost.

## Model

| member | source | states |
|---|---|---|
| Ranges.TransferMonotone | src/range.rs:117-180 | addition, scaling by any coefficient, subtraction, hull and `rmin` are monotone for inclusion, the empty range being least |
| Ranges.MulEpIsClampedProduct | src/range.rs:105-114 | endpoint multiplication, infinity table included, is clamped integer multiplication |
| Ranges.HullIsJoin | src/range.rs:154-168 | the hull is the least upper bound for inclusion, empty operands included |
| Ranges.SameSignScalesAdd | src/range.rs:117-147 | c·R + d·R = (c+d)·R exactly on saturated ranges when the signs agree, which is what lets a term merge two multiples |
| Ranges.OppositeSignsDoNotMerge | src/constraint.rs:22-27 | 2R − R is not R on ranges, so coefficients of opposite sign must stay apart |
| Ranges.AddSound | src/range.rs:117-125 | the sum of aligned ranges holds every sum of their integers, unbounded ones included |
| Ranges.AddSoundOnlyWhenAligned | src/range.rs:75-125 | for all bounded ranges, addition holds every sum exactly if neither operand sits wholly at one infinity while the other reaches a finite way back from it |
| Ranges.AddExact | src/range.rs:117-125 | as long as nothing saturates, every integer of the sum is a sum of integers of the operands |
| Ranges.SkewedAdditionIsUnsound | src/range.rs:75-89 | 20000 + 20000 − 20000: a skewed addition loses integers and is not associative |
| Ranges.MulSound | src/range.rs:127-147 | a scaled range holds every scaled integer, for every coefficient and every bounded range |
| Ranges.RMinSound | src/range.rs:170-180 | `rmin` holds the minimum of any two integers of its operands |
| Ranges.RMinExact | src/range.rs:170-180 | and nothing else, for right-sided operands |
| Ranges.EpGeIsOrder | src/range.rs:182-195 | the infinity rules of the query comparison are the order of the bounded endpoints |
| Terms.Term.Add | src/constraint.rs:59-80 | the accumulating loop computes the sum of the two terms, each slot merged into the first slot of the same variable and sign |
| Terms.MergeSlot | src/constraint.rs:65-74 | the inner loop changes the first matching slot, or appends one |
| Terms.TermArithmetic | src/constraint.rs:59-98 | `add`, `sub`, `scale` and `negate` compute the integer arithmetic of the terms' values under every valuation |
| Terms.ArithmeticDenotes | src/constraint.rs:59-98 | whatever integers two terms can denote under given ranges, the combined term can denote their sum, difference and multiple |
| Terms.OppositeSlotsStayApart | src/constraint.rs:66-74 | v − v keeps two slots, and can denote 1 when v ranges over 0..1 |
| Problems.ApplyMonotone | src/solver.rs:124-136 | recomputing a variable is monotone, and looks only at the variables that feed it |
| Problems.LeastSolutionIsLeast | src/solver.rs:3-5 | the least solution exists: a bounded Kleene iteration solves the problem and lies below every solution |
| Problems.FloorIsGreatest | src/solver.rs:47-55 | the floor of a class is one of the hard lower bounds listed for it, or the bottom of the domain, and no listed bound exceeds it |
| Problems.FloorCuts | src/solver.rs:134-138 | raising a range to a floor keeps exactly its integers from the floor on |
| Problems.SolutionMeansSatisfied | src/constraint.rs:120-128 | without floors, solving the problem is satisfying every constraint into an unpinned class, with pinned classes at their pins |
| Components.EvalTermAt | src/solver.rs:181-188 | the loop evaluates a term against the current array of ranges |
| Components.EvalConstraintAt | src/solver.rs:162-179 | the loop evaluates a constraint, a `min` being seeded with +Inf |
| Components.Recompute | src/solver.rs:124-136 | the lookup tables yield exactly the join of all constraints into the variable, raised to its floor |
| Components.VisitOne | src/solver.rs:120-155 | one visit replaces the range of one variable by the recomputed, widened one, leaves pinned variables and all others alone, and reports a change exactly if there was one |
| Components.RunRound | src/solver.rs:118-155 | a round visits the component in order; `changed` is false exactly if no range differs from the start of the round |
| Components.SolveComponent | src/solver.rs:106-160 | the loop leaves the array as all 1000 rounds would, whichever exit it takes; the early exit is taken exactly if two successive rounds agree, and at the first such round |
| Components.ConvergedIsFixpoint | src/solver.rs:117-159 | leaving by `!changed`, every unpinned variable of the component equals its recomputed inflow, widened or not |
| Components.KleeneSimulation | src/solver.rs:117-159 | after every round, converged or not, the ranges contain those of the loop run without widening |
| Components.RoundsFrame | src/solver.rs:120-155 | a component loop changes no pinned variable and no variable outside the component |
| Graphs.ReachMeansPath | src/solver.rs:209-211 | reachability, defined by closed sets, is the existence of a path |
| Tarjan.TarjanScc | src/solver.rs:211-270 | for every graph the iterative search returns a partition of the vertices in which two share a component exactly if each reaches the other, `comp_of` agrees with the components, every edge leads into the same or an earlier component, and each component is listed against the depth-first preorder of the graph (roots ascending, successors in list order) |
| Tarjan.SearchFrom | src/solver.rs:225-267 | the search from one root keeps the invariant, empties the work stack, visits the root, and un-visits nothing |
| Tarjan.Step | src/solver.rs:233-267 | one turn of the work loop keeps the whole search invariant: segments, lowlinks, emitted components, and the order of discovery |
| Tarjan.PopComponent | src/solver.rs:249-261 | closing a root pops exactly the stack above it, and records it as one component |
| Tarjan.DescendKeepsNumbers | src/solver.rs:236-247 | a vertex opened from the top of the work stack is the next one of the depth-first preorder: everything discovered after its parent has all successors discovered |
| Kahn.BuildDag | src/solver.rs:275-288 | the component graph has exactly the cross-component edges, each once, and `indeg` counts them |
| Kahn.Drain | src/solver.rs:289-302 | the queue yields components only after all their predecessors, and counts what is left |
| Kahn.TopoOrder | src/solver.rs:274-312 | the order is a permutation of all components; given Tarjan's result every cross edge leads forward and the fallback loop appends nothing |
| Solver.UndisturbedAfter | src/solver.rs:73-83 | no later component disturbs an earlier one |
| Solver.LastPinStays | src/solver.rs:41-45 | for every pin listed, unless a later one is on the same class: the final range of the class in every run, and its range in every solution, is that pin, whatever flows in |
| Solver.ConvergedRunIsFixpoint | src/solver.rs:57-83 | when every component leaves by `!changed`, the final ranges equal the join of all inflows, for the whole system |
| Solver.SettledRunCoversLeast | src/solver.rs:57-83 | when every component converges, or would settle without widening, the final ranges contain the least solution |
| Solver.LoneVariableSettles | src/solver.rs:117-159 | a component of one variable that does not feed itself is final after its first pass; the second changes nothing |
| Solver.AcyclicIsExact | src/solver.rs:16-18 | on a system without cycles the result is exactly the least solution and nothing is ever widened |
| Solver.UnboundedStaysUnbounded | src/solver.rs:117-159 | an unpinned, floor-free variable fed by a constant and by itself plus a positive constant ends at +Inf in every run, even at the cap |
| Feedback.SelfFeedbackSettles | src/solver.rs:117-159 | a lone variable feeding itself through positive linear constraints and through `min` with coefficient 1 converges by the third pass; each end is the first pass's or infinite; the upper end is that of the least range closed under the inflow, the lower end that or infinite; without `min` the result lies in every closed range |
| Feedback.TameLoopsConverge | src/solver.rs:104-160 | if the only cycles are such self-loops, every loop converges, and the result is a fixpoint that contains the least solution |
| Feedback.OnlySelfCyclesConverge | src/solver.rs:57-83 | the same, and exactness without `min`, from conditions on the constraints and the influence graph that a caller can check before solving |
| Feedback.SelfLoopsAreExact | src/solver.rs:104-160 | if the only cycles are positive linear self-loops, every loop converges and the result is exactly the least solution |
| Feedback.SelfLoopedVerdictIsExact | src/solver.rs:85-101 | on such a system a query is reported exactly if two values of its sides in the least solution violate it |
| Depends.BuildDepends | src/solver.rs:316-362 | on every system, cyclic ones included, the trace terminates, visits exactly the backward closure of the query's variables, and lists each class name met there once, in the order of the trace; the first eight are shown |
| Depends.TraceIsDepthFirst | src/solver.rs:327-353 | each class visited is the last variable of the query still waiting, or what the last place of the last constraint into the latest visited class still has to offer: every later term, every later place, and everything that feeds a class visited since comes before it |
| Depends.NamesInOrder | src/solver.rs:336-346 | names are listed in the order in which the trace first meets a class that shows them |
| Depends.NameIsFirst | src/solver.rs:336-346 | the name shown for a class is that of its first variable, and is the representative's exactly if the two bear the same name |
| Solve.BuildPins | src/solver.rs:37-45 | for every pin listed, unless a later one is on the same class, the class starts at that pin; the classes without a pin start empty, and exactly those with one are marked |
| Solve.BuildFloors | src/solver.rs:47-55 | every class gets the largest of its hard lower bounds |
| Solve.BuildInfluence | src/solver.rs:57-67 | the tables list exactly the constraints into each class, and each successor list holds exactly the targets of the constraints that read the class, in order |
| Solve.ArrangedIsLayered | src/solver.rs:69-83 | Tarjan's components in Kahn's order form layers along which nothing flows backwards |
| Solve.AcyclicIsDiscrete | src/solver.rs:69-83 | an influence graph without cycles yields only single-variable components that do not feed themselves |
| Solve.OnlySelfCyclesIsSingle | src/solver.rs:69-83 | an influence graph whose only cycles are self-loops yields only single-variable components |
| Solve.EvaluateQuery | src/solver.rs:87-99 | a query yields a result exactly if it fails, carrying its kind, the ranges of both sides, and its trace |
| Solve.EvaluateQueries | src/solver.rs:85-101 | one result for each failing query, in order |
| Solve.RunComponents | src/solver.rs:73-83 | the components are solved one after the other over one array |
| Solve.Solve | src/solver.rs:35-102 | the whole solver: layered, strongly connected components in the order of the search, their final ranges, and one result with ranges and trace for each query that fails under those |
| Determinism.PreorderIsUnique | src/solver.rs:225-267 | a graph has one depth-first preorder, so the order inside each component is determined |
| Determinism.RunIsDetermined | src/solver.rs:73-83 | whatever topological order the components are solved in, every variable ends with the same range |
| Determinism.SolvingIsDetermined | src/solver.rs:57-83 | two runs of the solver on one problem end with the same ranges |
| Verdicts.FailsMeansViolated | src/solver.rs:85-101 | a query is reported exactly if some a < b lie in its two ranges, and never with an empty side |
| Verdicts.TiersMean | src/walk.rs:1326-1352 | tier 0 means every pair violates; tier 0 or 1 means some length exceeds every size |
| Verdicts.CleanVerdict | src/solver.rs:85-101 | if every loop converges or settles, an unreported query holds for all values of its sides in the least solution |
| Verdicts.PassedQueryBounds | src/solver.rs:85-101 | an unreported query holds for all integers of its sides, unbounded ones included, exactly if it does not compare two equal infinities |
| Verdicts.AcyclicVerdictIsExact | src/solver.rs:85-101 | on an acyclic system a query is reported exactly if the least solution violates it |
| Verdicts.LeastSolutionMonotone | src/solver.rs:124-136 | adding constraints only grows the least solution |
| Verdicts.ReportsMonotone | src/solver.rs:85-101 | between two acyclic systems a reported query stays reported when constraints are added |
| Systems.SolvedForIsEquivalent | src/constraint.rs:229-252 | with a leading right-hand coefficient of 1 or −1, the rewritten equation holds for a valuation exactly if the original does |
| Systems.SolvedForNeedsUnitCoefficient | src/constraint.rs:244-247 | for every leading coefficient, the rewriting keeps the solutions of all equations with that coefficient exactly if it is 1 or −1; c = c·v has the solution 1, and becomes c² where it should say 1 |
| Systems.TimesMeans | src/constraint.rs:313-324 | with a constant operand the system is unchanged and the value of the product, under every valuation, is the product of the operands' values; any other product is a variable pinned to the full range |
| Systems.EquateMeans | src/constraint.rs:291-302 | equating a variable, offset or not, with a constant adds one pin, which a valuation keeps exactly if the two sides are equal |
| Systems.EquationMeans | src/constraint.rs:303-311 | any two other terms led by coefficients 1 or −1, unless both are bare variables, get two constraints, each equivalent to the equation, with their leading variables as targets |
| Systems.HardGeMeans | src/constraint.rs:330-336 | a hard bound raises the floor of the variable's class to it and moves no other floor; on anything but a bare variable it is dropped |
| Systems.EvaluationSound | src/solver.rs:181-188 | evaluating a term without skewed sums yields a range that holds every integer the term denotes |
| Systems.IncludeFlows | src/constraint.rs:229-252 | under a straight solution, every value of the left-hand side minus the rest of the right-hand side, scaled by the target's coefficient, reaches the target, for every coefficient |
| Systems.MinFlows | src/constraint.rs:254-279 | the fresh variable of a `min` holds the minimum of any two values of the operands |
| Systems.UnionFlows | src/constraint.rs:281-287 | the fresh variable of a union holds everything between two values of the operands |
| Systems.TimesFlows | src/constraint.rs:313-324 | the product term denotes the product of any two values of the operands, constants or not |
| Systems.ForceTopFlows | src/walk.rs:159-165 | a term forced upwards takes every integer from 1 on: against any value m of its further slots and constant, its first variable holds every integer from 1 − m on |
| Operators.UnionIsHull | src/constraint.rs:281-287 | in the least solution a union variable nothing else flows into is exactly the hull of its operands |
| Operators.MinIsRMin | src/constraint.rs:254-279 | in the least solution a `min` variable nothing else flows into is exactly the `rmin` of its operands, whatever shape they have |
| Operators.ForcedTermGrows | src/walk.rs:161-165 | forcing 1·v+k seeds v above −Inf and steps it by one, for every k below 32768 |
| Operators.ForcedTermBoundary | src/walk.rs:161-165 | forcing 1·v+k drives v to +Inf in every system around it and every run exactly if k is below 32768 |
| Operators.ForcedStaysDown | src/walk.rs:161-165 | from 32768 on, the two constraints by themselves end at −Inf..−Inf |
| Operators.ForcedLengthIsReported | src/walk.rs:325-330 | `gets` on a buffer whose size is nonempty and may be finite is reported by every run of the solver, converged or not |
| ConstraintSystem.UnifyMergesExactly | src/constraint.rs:214-225 | a union joins exactly the two classes, and no others |
| ConstraintSystem.UnifyKeepsNamedRoots | src/constraint.rs:217-224 | a class with a named member has a named representative after every union |
| ConstraintSystem.UnifiedNameIsFirst | src/constraint.rs:214-225 | two merged classes are shown under the name of their first variable, which is the representative's name exactly if both are named alike |
| ConstraintSystem.UnnamedFirstHidesName | src/solver.rs:336-346 | an unnamed variable declared before a named one hides its name, though the named one represents both |
| ConstraintSystem.System.Fresh | src/constraint.rs:177-182 | a new variable is alone in its class; the forest stays acyclic |
| ConstraintSystem.System.Find | src/constraint.rs:199-212 | both loops terminate, the representative is returned, and path compression changes no class and no representative |
| ConstraintSystem.System.Union | src/constraint.rs:214-225 | merges the two classes, keeps the forest acyclic and the named representatives |
| ConstraintSystem.System.Subset | src/constraint.rs:231-252 | appends exactly the rewritten constraint, or nothing for a constant target |
| ConstraintSystem.System.PushMinItem | src/constraint.rs:266-279 | a constant or a bare variable is an item itself, any other term goes through a fresh variable that includes it |
| ConstraintSystem.System.Min | src/constraint.rs:256-279 | appends the items' constraints and the `min`, and returns its fresh variable |
| ConstraintSystem.System.UnionTerm | src/constraint.rs:282-287 | includes both operands into a fresh variable |
| ConstraintSystem.System.Eq | src/constraint.rs:291-311 | the method adds what `Systems.EquateMeans`, `Systems.EquationMeans` and `UnifyMergesExactly` are about |
| ConstraintSystem.System.Mul | src/constraint.rs:316-324 | the method adds and returns what `Systems.TimesMeans` is about |
| ConstraintSystem.System.SolveAll | src/constraint.rs:348-356 | canonicalises every variable without changing a class, and solves the snapshot |
| Walks.NewVarKeeps | src/walk.rs:191-205 | a variable's context is created once, in the shape of its type, with its size seeded and its overrun query asked, and never changes |
| Walks.CheckStrOpKeeps | src/walk.rs:265-380 | a library model only appends to a well-formed system, and its result mentions existing variables |
| Walks.GenKeeps | src/walk.rs:506-718 | walking an expression only appends, and changes no context |
| Walks.GenStmtKeeps | src/walk.rs:997-1061 | so does walking a statement |
| Walks.FmtScanGrows | src/walk.rs:859-991 | the three mutually recursive format functions terminate, only append, and return terms over existing variables |
| Walker.Walker.ReadNum | src/walk.rs:900-927 | the digit loop reads the whole number, overflow counting as 0; `*` consumes one argument |
| Walker.Walker.WalkExpr | src/walk.rs:506-564 | walking an expression changes the walker, and returns the context, that `Soundness.EvalSound` is about |
| Walker.Walker.WalkBody | src/walk.rs:1202-1226 | every local is created before the body is walked; the result is the system that `Soundness.EveryRunStaysInside` is about |
| Printf.NumbersAgree | src/walk.rs:900-927 | widths and precisions are read as rendering reads them, and their terms denote their values |
| Printf.StringFieldSound | src/walk.rs:941-957 | the bytes a `%s` prints lie in its term: the minimum with the precision, or, under a width, everything from the width to the full length |
| Printf.PrintedBetween | src/walk.rs:958-983 | a 64-bit integer prints 1 to 20 bytes in decimal, 1 to 22 in octal, and 1 to 16 in hexadecimal |
| Printf.NumberFieldSound | src/walk.rs:958-983 | under every straight solution the term of a conversion other than `%s` takes an argument and denotes every number of bytes from 1 to 20 (`%d`, `%i`, `%u`, `%U`, `%x`, `%X`, `%p`), 22 (`%o`), 32 (floating point) or 1 (`%c`) |
| Printf.FormatSound | src/walk.rs:851-991 | for every format, every conversion included, and arguments inside their contexts, the bytes printed plus the terminator are denoted by the scanned term, as long as no conversion prints more than the analyser allows for it |
| Buffers.StrncpyRuleIsExact | src/walk.rs:271-276 | for every bound, negative ones included: the ranges that hold the old length and min(source length, n) all cover what `strncpy` leaves behind, string and extent, exactly if a padding copy pads within the buffer or the old string and a truncating one ends inside the old string or before bytes that hold none (or a length is already infinite) |
| Buffers.StrncatRuleIsExact | src/walk.rs:298-306 | the ranges closed under adding min(source length − 1, n) all cover what `strncat` leaves behind exactly if the bound is not negative, or lets nothing through (or the old length is infinite) |
| Buffers.StrcatRuleIsExact | src/walk.rs:293-297 | the ranges that hold the old length and that of the source all cover what `strcat` leaves behind exactly if the target or the source is empty (or a length is infinite) |
| Buffers.SnprintfRuleIsExact | src/walk.rs:818-836 | the ranges that hold the old length and min(formatted length, n) all cover what `snprintf` leaves behind exactly if the bound is not negative, or the output stays within the old string, or within the buffer where it continues no string (or a length is infinite); a bound of 0 changes nothing |
| Buffers.CutRuleIsExact | src/walk.rs:830-835 | where the analyser takes no notice of the bound, the ranges that hold the old length and the whole formatted length all cover what `snprintf` leaves behind exactly if the cut ends between the two, or within the buffer where it continues no string |
| Buffers.IdleRuleIsExact | src/walk.rs:838-847 | where it takes no notice of the call, the ranges that hold the old length cover it exactly if the string ends where the old one did, or within the buffer where it continues none |
| Buffers.TextRuleIsExact | src/walk.rs:362-365 | for every string written and every end expected by the analyser, as by `gethostname`: the ranges that hold the old length and the end expected all cover what is written exactly if it ends between the two, or within the buffer where it continues no string |
| Buffers.NegativeBoundIsMissed | src/walk.rs:298-306 | under a negative bound `strncat` appends the whole source, outside the range the analyser lets shrink to −Inf |
| Buffers.TruncatedCopyIsMissed | src/walk.rs:271-276 | truncating to n bytes in a zero-filled array leaves a string of length n + 1, outside the analyser's 1..n |
| Buffers.PaddingIsMissed | src/walk.rs:271-276 | padding past the end of a buffer writes more bytes than the source length the analyser records |
| Buffers.ExactFitIsUnterminated | src/walk.rs:1077-1095 | an array filled exactly by its initializer holds no string |
| Soundness.FlowsToTarget | src/walk.rs:231-252 | what is included into the length at an offset reaches the buffer's own length, moved back by the offset |
| Soundness.CallSound | src/walk.rs:265-380 | every modelled call keeps the store inside every straight solution, and its value inside the context the model returns, unless it is outside its guard |
| Soundness.SearchSound | src/walk.rs:307-320 | a place found in a string has a size and a length between 1 and those of the whole string |
| Soundness.StrncpySound | src/walk.rs:271-276 | within its guard, what `strncpy` leaves behind, padding and missing terminator included, lies inside every straight solution |
| Soundness.StrncatSound | src/walk.rs:298-306 | `strncat` appends as much of the source as its bound, converted to a size, lets through; the string in place, so extended, lies inside every straight solution unless the bound is negative and lets something through |
| Soundness.StrcatSound | src/walk.rs:293-297 | `strcat` appends the whole source; within its guard the result lies inside every straight solution |
| Soundness.SnprintfSound | src/walk.rs:818-848 | for every bound, 0, negative and unknown ones included, and every format, literal or not, what `snprintf` leaves behind lies inside every straight solution, within its guard |
| Soundness.HostSound | src/walk.rs:362-365 | a host name of any length the bound lets through lies inside every straight solution, within its guard |
| Soundness.StatusSound | src/walk.rs:366-377 | every status from 0 to 48, or to 25, lies in the context of the call |
| Soundness.SprintfSound | src/walk.rs:789-816 | `sprintf` writes the rendered bytes and the terminator, or, if the format is not a literal, any number of bytes: the buffer lies inside every straight solution as long as no conversion prints more than the analyser allows for it |
| Soundness.OperateSound | src/walk.rs:670-706 | the value of an operator on values inside their contexts lies inside the combined context |
| Soundness.MergeSound | src/walk.rs:532-551 | the value of the chosen branch of `?:` lies inside the merged context |
| Soundness.StoreSound | src/walk.rs:216-228 | storing a value whose context flows into the variable's keeps the run inside |
| Soundness.KindSound | src/walk.rs:506-564 | an expression of known kind is given a context of that kind |
| Soundness.EvalSound | src/walk.rs:506-718 | evaluating any expression keeps the run inside every straight solution, and its value inside its context, up to the first routine outside its guard |
| Soundness.DeclSound | src/walk.rs:1061-1112 | declarations, sized and unsized arrays and their literals included, zero-filled or cut off, keep the run inside |
| Soundness.ExecSound | src/walk.rs:997-1058 | so does every statement, loops included, for any number of rounds |
| Soundness.EveryRunStaysInside | src/walk.rs:997-1058 | every store of every run of a function body, for every input, up to the first routine outside its guard, lies inside every straight solution of its constraints |
| Exactness.IncludeAsks | src/constraint.rs:229-252 | a term included into a bare variable whose class is not pinned asks that the class's range take in the term's, and nothing else: the other solutions are those before |
| Exactness.UnionReaches | src/constraint.rs:281-287 | every solution extends to one in which the fresh variable of a union is the hull of its operands |
| Exactness.UnionNeeds | src/constraint.rs:281-287 | and in none is it less |
| Exactness.MinReaches | src/constraint.rs:254-279 | every solution extends to one in which the fresh variable of a `min` is the `rmin` of its operands, whatever shape they have |
| Exactness.MinNeeds | src/constraint.rs:254-279 | and in none is it less |
| Exactness.ForceAsks | src/walk.rs:159-165 | forcing a bare variable asks that its range take in 1 and everything above, and nothing else |
| Demands.CopyAsks | src/walk.rs:267-297 | `strcpy` and `strcat` ask exactly that the range of the length written take in that of the length read |
| Demands.StrncpyAsks | src/walk.rs:271-276 | a solution extends over `strncpy` exactly if the target's length takes in the `rmin` of source length and bound |
| Demands.StrncatAsks | src/walk.rs:298-306 | and over `strncat` exactly if it takes in itself plus the `rmin` of source length − 1 and bound |
| Demands.FgetsAsks | src/walk.rs:320-324 | `fgets` asks exactly for 1 and the bound |
| Demands.GetsAsks | src/walk.rs:325-330 | `gets` asks exactly for 1 and everything above |
| Demands.HostAsks | src/walk.rs:362-365 | `gethostname` asks exactly for the bound |
| Demands.SnprintfReaches | src/walk.rs:818-836 | with a literal format a solution extends over `snprintf` if the target's length takes in the `rmin` of the format's bounds and the limit |
| Demands.SnprintfNeeds | src/walk.rs:818-836 | and only then, as long as the fresh variables are not negative |
| Demands.StrlenMeans | src/walk.rs:277 | `strlen` adds nothing, and its value is the length's minus 1 under every valuation |
| Demands.SpanHolds | src/walk.rs:278-284 | the result of `strspn` must take in 0 and the length − 1, with what lies between, and may be anything that does |
| Demands.StrdupHolds | src/walk.rs:285-292 | size and length of a duplicate must each take in the length of the original, and may be anything that does |
| Demands.FoundHolds | src/walk.rs:307-319 | size and length of a place found must take in 1 and those of the whole string, and may be anything that does |
| Demands.GetenvHolds | src/walk.rs:331-338 | size and length of what `getenv` returns are one variable, which must take in 1 and everything above, and may be anything that does |
| Demands.MallocHolds | src/walk.rs:339-345 | the size of allocated memory must take in the argument; its length is free |
| Demands.MadeIsAsked | src/walk.rs:138-157 | `malloc` and `strdup` ask one question, whether the new size covers the new length, under the next allocation number |
| Demands.VariableIsAsked | src/walk.rs:168-189 | a string variable seen first is asked about once, under its own name; no other variable is |
| Demands.StatusHolds | src/walk.rs:366-377 | the results must take in 0..48 and 0..25, and may be anything that does |
| Demands.TruthHolds | src/walk.rs:662-668 | a truth value must take in 0..1, and may be anything that does |
| Demands.CombineMeans | src/walk.rs:670-706 | sums, differences and products by a constant are exact under every valuation and add nothing; quotients and other products are pinned to the full range; every other operator gives exactly 0..1 |
| Demands.AdvanceMeans | src/walk.rs:241-252 | a pointer moved by an integer has that much less size and length under every valuation |
| Demands.UnaryMeans | src/walk.rs:638-652 | `-e` is the negated value and adds nothing, `!e` is exactly 0..1, `~e` is taken for `e` |
| Demands.ConditionalHolds | src/walk.rs:535-559 | `c ? a : b` must take in both branches, integers by value, strings by size and by length, with what lies between, and may be anything that does |
| Demands.AssignAsks | src/walk.rs:708-718 | assigning to an integer variable asks exactly that its range take in the value's |
| Demands.StepAsks | src/walk.rs:653-658 | `++` and `--` ask exactly that the variable's range take in itself moved by 1 and by −1 |
| Demands.FlowAsks | src/walk.rs:216-228 | assigning a string asks exactly that length take in length and size take in size |
| Demands.VariableHolds | src/walk.rs:168-205 | a variable seen first is free, except that the size of an array declared with one must take it in |
| Demands.InitAsks | src/walk.rs:1077-1095 | initialising an array of size N asks its length to take in exactly min(strlen + 1, N) for a literal, and for any other string its length; its size is asked for nothing |
| Spans.ScanReaches | src/walk.rs:851-991 | for every literal format whose arguments have known contexts, every solution extends to one in which the scanned term evaluates to exactly the two ends that a table of conversions, widths and precisions, added up along the format, gives |
| Spans.ScanNeeds | src/walk.rs:851-991 | and in no solution does it evaluate to less, as long as the fresh variables are not negative |
| EndToEnd.ResultSolves | src/solver.rs:85-88 | straight ranges that solve the snapshot and absorb its pins solve the generated system |
| EndToEnd.TopPinsAbsorb | src/constraint.rs:186-195 | pins of the top variable absorb whatever flows in |
| EndToEnd.BodyPinsAbsorb | src/walk.rs:1099-1108 | in a body that assigns to variables only, and to no array declared without a size, each of which has one initializer, nothing flows past a pin in any solution |
| EndToEnd.ConvergedCleanVerdictIsSafe | src/walk.rs:138-150 | when every loop converges to straight ranges and the pins absorb (by the shape of the body, or in the result), no string and no write in a buffer without a report extends past its size, in every store of every run up to the first routine outside its guard |
| EndToEnd.SettledCleanVerdictIsSafe | src/walk.rs:138-150 | the same when some loops only settle without widening, if the least solution is straight |
| EndToEnd.Analyse | src/walk.rs:1278-1285 | walking, solving and reading the reports: under those conditions, silence about a name means no run overruns it before its first routine outside its guard |
| Programs.ConstantWalked | src/walk.rs:670-706 | an expression of integer constants, unary and binary minus, `+` and `*` adds nothing and is given its value as a constant |
| InitPrograms.SizedVerdict | src/walk.rs:1077-1095 | `char d[size] = a;` for all sizes above 0 and all literals, exact fits and overlong ones included: the final ranges are the size and min(strlen + 1, size), `d` is not reported, and no run overruns it |
| InitPrograms.TwiceVerdict | src/walk.rs:1099-1108 | `{ char a[] = s; } { char a[] = t; }`, both declarations going by one name, for all literals below infinity: the final size is that of the second, the final length spans both, the name is reported exactly if the first literal is longer, and no run overruns it |
| CopyPrograms.CopyVerdict | src/walk.rs:265-276 | `char b[size]; strncpy(b, s, n);` for all sizes, literals and constant expressions as bound below infinity, negative ones included: every condition of the safety theorem holds; the analyser is silent exactly if min(length, n) fits, C overruns exactly if n, as a size, does not, so an overrun goes unreported exactly if the first holds and the second does not |
| CatPrograms.CatVerdict | src/walk.rs:298-306 | `char d[size] = a; char e[room]; strncat(d, s, n); strcpy(e, d);` for all sizes, fitting literals and constant expressions as bound below infinity: the loop on the length of `d` converges; the analyser is silent about `e` exactly if min(length, n) ≤ 0 and `a` fits, C overruns `e` exactly if what the bound, as a size, lets through does not fit, so an overrun goes unreported exactly if the bound is negative, `a` fits, and the whole does not |
| ReadPrograms.ReadRuns | src/walk.rs:320-324 | `char b[size]; fgets(b, n, stdin);` runs on after every line of 1 to n bytes, and the line is in the array, in the last store of the trail |
| ReadPrograms.ReadVerdict | src/walk.rs:320-324 | that program is reported exactly if max(1, n) exceeds the size, which is exactly if some run overruns the array |
| FormatPrograms.FormatVerdict | src/walk.rs:789-800 | `char b[size]; sprintf(b, f, ...);` for all sizes below infinity, all literal formats without a negative `*`, and all lists of arguments that are constant expressions, literals, characters, other constants or names the analyser does not follow: the final ranges are exactly the size and the format's two ends, and `b` is reported exactly if the upper end exceeds the size |
| FormatPrograms.ConversionVerdict | src/walk.rs:941-983 | for a single conversion the final length is 2..21 for `%d`, `%i`, `%u`, `%U`, `%x`, `%X` and `%p`, 2..23 for `%o`, 2..33 for floating point, 2 for `%c`, strlen + 1 for `%s` of a literal, and 2..+Inf for any other `%s`; `b` is reported exactly if the upper end exceeds the size |
| FormatPrograms.WidthArgVerdict | src/walk.rs:949-957 | `%*s` of a width w ≥ 0 and a literal: the final length goes from min(w, strlen) + 1 to max(w, strlen) + 1 |
| FormatPrograms.PrecisionArgVerdict | src/walk.rs:949-957 | `%.*s` of a precision p ≥ 0 and a literal: the final length is min(p, strlen) + 1 |
| FormatPrograms.NumberIsRead | src/walk.rs:915-926 | a number written in decimal in a format is read back, wherever it stands, as long as it fits 64 bits, and as 0 otherwise |
| FormatPrograms.WidthVerdict | src/walk.rs:900-957 | `%ns` of a literal, n > 0 written in decimal: `b` is reported exactly if max(n, strlen) + 1 exceeds the size, n beyond 64 bits counting as 0 |
| FormatPrograms.OpenVerdict | src/walk.rs:801-811 | `char b[size]; sprintf(b, fmt);` with a format that is not a literal, for all sizes below infinity: the final length is exactly 1..+Inf, `b` is always reported, and some run overruns it |
| Cycles.TwoCycleIsLeastOnlyOnEqualSeeds | src/solver.rs:117-159 | a ⊆ x0, b ⊆ x1, x0 ⊆ x1 ⊆ x0 converges whichever variable is visited first, and returns the least solution exactly if a = b |
| Cycles.RingIsEmittedBackwards | src/solver.rs:225-267 | in every system of three variables that feed one another in a ring and nothing else, the search emits them last discovered first, as 2, 1, 0 |
| Cycles.ThreeCycleConvergesOnlyOnEqualSeeds | src/solver.rs:115-117 | in that order a three-variable cycle converges, and ends in a solution, exactly if its three seeds are equal |
| Cycles.CappedClimbMissesLeast | src/solver.rs:115-159 | on s ⊆ x2, x0 + 1 ⊆ x1, x1 ⊆ x2, x2 ⊆ x0, in the emitted order: the loop settles, converges, and covers the least solution exactly if s + 499 reaches infinity; it ends with x0 at s..s + 499, where every finite size is violated in the least solution but passes from s + 499 on |
| Cycles.NegativeSelfLoopConvergesOnlyAtZero | src/solver.rs:115-117 | a ⊆ x, −x ⊆ x converges, and ends in a solution, exactly if a = 0, although −|a|..|a| always is one |
| Counterexamples.OnlyUnitMinIsHarmless | src/constraint.rs:266-279 | feedback through `min` leaves every lone variable with least or infinite ends, whatever the system, exactly if the coefficient is 1 |
| Counterexamples.PinnedInflowIsIgnored | src/solver.rs:121-123 | a pinned variable keeps its pin, and the constraint into it holds exactly if it agrees with the pin |
| Counterexamples.SaturatedSizesPass | src/range.rs:4-7 | a length greater than the size passes the query exactly if both have saturated to the same infinity |

## Left out

- Depends.BuildDepends: returns the list of names shown, not the text made of it.
- Soundness.EvalSound: says nothing about the value of `strcpy`, of postfix `++` and `--`, of the remainder, bitwise and shift operators (0..1) and of `~` (the identity): those rules of the walker are unsound, and their values are left open in a run, as is that of a variable whose type is neither integer nor string.
- Soundness.CallSound: a run stops at a call of any routine the walker does not recognise, or with arguments of kinds it does not recognise it with (for `snprintf` the bound may be of any kind); the value of `strspn` and `strcspn` is left open, because the walker recognises them only with a single argument (`src/walk.rs:280`), which C never passes.
- Soundness.KindSound: among calls, the kind is known for `strlen`, `strdup` and `malloc` only; a `?:` over other calls has an open value.
- Walker.Walker.CheckStrOp: does not model `gethostbyname`, `gethostbyaddr` and `gethostbyname2`, whose constraints concern the fields of a library structure.
- EndToEnd.Analyse: asks for convergence and straight ranges of the result instead of proving them; neither holds for every program, as `Cycles` and `Counterexamples` show, and `CopyPrograms`, `CatPrograms` and `ReadPrograms` have programs that meet both.
- EndToEnd.Analyse: says nothing of a run after its first routine outside its guard, where silence is not safety, as `CopyPrograms.CopyVerdict` and `CatPrograms.CatVerdict` show.
- EndToEnd.BodyPinsAbsorb: says nothing of bodies that assign to an unsized array or initialise it twice, which C forbids; there the pins are asked of the result.
- Feedback.TameLoopsConverge: says nothing of leastness when a `min` is on a self-loop, because the lower end may then be infinite, and a negative coefficient further on turns it into an upper end.
- Literals with an embedded NUL or a character beyond ASCII, and `%c` with a multiple of 256, whose strings C takes to be shorter or longer than their characters: runs stop there.
- The order of evaluation: arguments and operands are evaluated from left to right, where C leaves the order open; a run stops where evaluating one changes a string that an earlier one denotes a place in.
- The contents of strings beyond terminators: a byte is a terminator, some other byte, or unknown; input supplies no embedded terminators.
- Parsing (`src/parse.rs`), types beyond integer, string and other (`src/ctype.rs`), the command line and the test harnesses.
- Message formatting, warnings, and `ep_str`/`range_str`.
- User-defined functions, their formals and returns, global variables, structs and fields, casts, `sizeof`, dereference, indexing, `switch`, `goto`, labels, `return`, and the `argv` special case.
- Scoping: names are taken as already canonical, so one name is one variable; a second declaration with another type stops a run.
- Pointer aliasing: a string lives in at most one variable; only offsets that are sums of constants, integer variables and string lengths stay writable, and a pointer that moves backwards stops a run.
- Reading a string, or appending to one, at an offset that lies outside the string a buffer now holds: a run stops there, though the bytes may be defined.
- Allocation: `malloc` and `strdup` never fail, `malloc` of a negative size stops a run, and a string is always true in a condition.
- Integer widths: integers are mathematical, without overflow or unsigned wrap-around, except that a bound converted to `size_t` is taken modulo 2^64.
- Conversions that the fragment gives no meaning: `%n`, letters the analyser does not know, `%ls` and `%lc`, negative `*` arguments, an argument of the wrong kind, numbers beyond 64 bits: rendering stops there, while the constraints are generated as in the code.
- Runs.Render: does not compute the digits of floating-point numbers and pointers, or of numbers under flags, a width, a precision or a length modifier; the input supplies their number of bytes.
- FormatPrograms.FormatVerdict: says nothing of formats with a negative `*` argument, or of arguments that are variables the analyser follows; `Printf.FormatSound` covers those from one side.
- Spans.ScanNeeds: asks that the fresh variables of the scan be non-negative or empty, which they are in every solution below the one `ScanReaches` names, the least one included.
- Demands.CopyAsks: is about bare target lengths, as are the other members of `Demands` that write into a buffer; a target with an offset is rewritten first, which `Systems.SolvedForIsEquivalent` and `Systems.IncludeFlows` are about.
- Overflow of 64-bit coefficients: coefficients and endpoints are mathematical integers; only the 64-bit parse of a width is modelled.
- The hash-map iteration order never matters in the modelled code; hash maps are maps from variables.
- The sentinel `usize::MAX` of the component search is −1.
