# HERESY-SEC in Dafny

A model of the deterministic engine HERESY-SEC and of its geometry layer HERESY-GEOM, with proofs of
what its documentation relies on. The engine takes a policy and a stream of proposed actions, decides
each action, looks at windows of the stream through exact graph sensors, and writes a run directory
that can be verified and replayed.

The modules, from the bottom up:

- **Exact arithmetic.** `Fractions`, `Polynomials`, `PolynomialRing`, `Euclid`, `SquareFree`, `Sturm`,
  `Isolation`, `KnownRoots`, `Spectrum`: rational polynomials as coefficient sequences over `real`,
  division, Euclid, square-free factorization, Sturm sequences, bisection under a work counter. `Integers`, `Matrices`,
  `PowerSeries`, `NewtonIdentities`, `FaddeevLeVerrier`, `CayleyHamilton`: the characteristic polynomial,
  with proofs that every division by `k` is exact and that a symmetric matrix is a root.
- **Graph sensors.** `Graphs`, `Actions`, `BreadthFirst`, `Holonomy`, `Rotations`, `ForbiddenCycles`,
  `Laplacian`, `Eigenvalues`, `Spectral`, `Forman`: the action graph and the four sensors on it.
- **Registries and windows.** `Effects`, `Registry`, `Obstructions`, `RoleRegistry`, `Evidence`,
  `ShadowGuard`, `Verdicts`, `Schedules`, `Receipts`, `WindowsV1`, `WindowsV2`: obstructions, the fuse, and
  whole runs of both geometry profiles.
- **Policies.** `Paths`, `Network`, `Policy`, `PolicyLaws`, `Choices`: normalisation and evaluation on
  typed values.
- **Canonical JSON.** `Json`, `JsonText`, `JsonGrammar`, `CanonicalJson`: the writer, the parser, and the
  grammar that the parser is compared with.
- **Contracts.** `Fields`, `ActionContract`, `GeometryContract`, `PolicyContract`, `GeometryPolicies`:
  normalisation on JSON values, and the typed values that come out of it.
- **Records and runs.** `Records`, `Manifest`, `RunFiles`, `GeometryFiles`: receipts, manifests and run
  directories. `Engine`, `Verifier`, `Replay`, `Completeness`: runs, verification and replay, for any
  functions with the laws of `Engine.IsLawful`. `Lineage`, `RunIds`: what the last receipt and the
  identifier of a run stand for.
  `Implementation`, `EngineKernel`: the functions that the engine has, with proof of those laws.
  `FinalStates`: what the files and the summary of a run say of it.
- `Outcomes` (error codes) and `Sorting` are shared.

How the source is represented:

- A `Fraction` is a `real`. A digest is an integer in the graph modules, where digests are only
  compared, and a string of 64 hexadecimal digits in the record modules.
- SHA-256 is an unknown function. Where particular inputs must not collide (the edges of one window, the
  receipts of two logs, the records of two chains, the inputs of two runs, two implementation records), a
  hypothesis says so of those inputs.
- A JSON dictionary is its list of members in insertion order. `CanonicalJson.SortedIsMeaning` proves
  that the sorted list stands for the dictionary, and the record modules work with sorted lists.
- A run directory is a map from relative paths to the texts that the bytes of the files decode to.
- Exceptions are the failure case of `Outcomes.Result`, with the error code of the source.
- An obstruction is its core rather than the digest of its core, so the dictionary of obstructions is
  a set.
- Where the order of a stored list is by digest (curvature rows, obstructions), the model lists rows in
  the order of the edges, or as a set.

## Main results

1. *Spectral arithmetic.* Square-free factorization multiplies back to the input; Euclid yields a
   greatest common divisor; the integer division in Faddeev-LeVerrier never leaves a remainder, for any
   integer matrix; a symmetric matrix is a root of its characteristic polynomial, so every real eigenvalue
   of the Laplacian is a root of a factor that is isolated; isolation lists every bucket as often as sign
   variations count roots in it, times the multiplicity, which for known roots is the floor of each root on
   the grid; and the limit of 1024 isolation points cannot be reached by admissible input.
2. *Sensors.* Residuals of the breadth-first potentials are empty just when authority is
   path-independent, weigh the authorities that the labels leave unexplained, and are determined by the
   graph, whatever the order of its edges. The cycle search is sound, complete and exactly bounded, and
   blind to rotations of its pattern. The Laplacian is the energy of the graph, with eigenvalues between 0
   and twice the maximum degree. Forman curvature is conserved, and stays within the safe integers in every
   run.
3. *Runs of windows.* The Shadow Guard is armed just when nothing has tripped it since an allowed,
   revalidated rearm. Load-bearing allowance is final ALLOW, and the summary of a run says ALLOWED just when
   every window is load-bearing. Denials persist through the long window. Structural evidence in the short
   window reappears in the long one. What each window holds, registers and gives as its reasons is stated
   in terms of its actions. The last geometry receipt determines every window.
4. *Contracts and policies.* Which actions, producers, rules, boundaries and geometry policies are accepted,
   and that the normal form of each keeps what was read, with literal defaults. The decision is stated in
   terms of the policy as given and does not depend on the order of its rules. Two claims are false of
   the code and are replaced by exact conditions: normalising twice (`PolicyLaws.NormalizingTwice` on typed
   policies and `PolicyContract.NormalizingPolicyTwice` on JSON, with `TwoPrefixesOneDirectory` and
   `LongestPrefix` as counterexamples; such a policy is accepted and then stops every run,
   `EngineKernel.RunNeedsStablePrefixes`) and reading a decision back (`Choices.DecisionIsReadBack`, with
   `PolicyLaws.CrowdIsTooLarge` as the counterexample).
5. *Canonical JSON.* The parser accepts exactly the texts of a grammar, which decodes by itself, whose
   integers are safe and whose nesting is bounded; two accepted texts have one canonical form just when
   they spell the same value, whatever their gaps, escapes and order of keys; hash preimages are injective
   in domain and value.
6. *Replay.* Replay accepts exactly the directories that hold a run of the engine, up to the order of
   manifest rows, which is never checked (`Manifest.RowOrderIsFree`). What the engine writes verifies, and
   replays, just when at most 256 rules match each action; the writer has no such limit. Both are proved of
   the engine with its own normalisers, evaluation and file names (`EngineKernel`). The last receipt
   determines all captures, actions, decisions and receipts of a run (`Lineage.HeadFixesDirectory`), and the
   identifier of a run determines the run (`RunIds.RunIdFixesRun`). Each decision that a run records is the
   decision of its captured action under the policy that was read (`EngineKernel.RecordedDecision`).

## Model

| member | source | states |
|---|---|---|
| Euclid.TrimInPlace | heresy_sec/geometry_math.py:18-22 | dropping trailing zeros, by popping, yields the trimmed polynomial |
| Euclid.Evaluate | heresy_sec/geometry_math.py:44-48 | Horner evaluation is the value of the polynomial as a sum of powers |
| Euclid.Divide | heresy_sec/geometry_math.py:51-66 | fails only for a zero divisor; otherwise dividend = quotient · divisor + remainder, with the remainder zero or of smaller degree |
| Euclid.DivisionUnique | heresy_sec/geometry_math.py:51-66 | quotient and remainder are the only ones with that property |
| Euclid.ExactDivide | heresy_sec/geometry_math.py:69-76 | succeeds just when the divisor is not zero and divides, and then the product gives the dividend back |
| Euclid.Gcd | heresy_sec/geometry_math.py:79-85 | the result is monic or zero, divides both arguments, and is a combination of them |
| Euclid.GcdIsGreatest | heresy_sec/geometry_math.py:79-85 | so every common divisor divides it |
| SquareFree.SquareFreeFactors | heresy_sec/geometry_math.py:88-104 | the factors are monic, square-free, pairwise coprime, of positive degree and ascending multiplicity, and their powers multiply to the monic input; no exact division fails and the loop ends |
| SquareFree.RadicalIsSquareFree | heresy_sec/geometry_math.py:92-93 | dividing out the common divisor with the derivative leaves a square-free polynomial |
| SquareFree.RoundKeepsValue | heresy_sec/geometry_math.py:96-103 | one round of the loop keeps factors · remaining^m · repeated |
| SquareFree.RoundKeepsDerivative | heresy_sec/geometry_math.py:96-103 | one round keeps that what is repeated divides the remaining times its derivative |
| SquareFree.LoopEnds | heresy_sec/geometry_math.py:96-104 | when nothing remains, nothing is repeated: the last factor is 1, as no polynomial of positive degree divides its own derivative |
| SquareFree.DividesOwnDerivative | heresy_sec/geometry_math.py:37-41 | a monic polynomial that divides its own derivative is constant |
| PolynomialRing.DerivativeOfProduct | heresy_sec/geometry_math.py:37-41 | the derivative obeys the product rule |
| Polynomials.Unique | heresy_sec/geometry_math.py:18-22 | trimmed polynomials with equal values everywhere are equal, which is what lets values stand for coefficients |
| Sturm.SturmSequence | heresy_sec/geometry_math.py:107-114 | the sequence starts with the monic polynomial and its derivative, each later term is the negated remainder of the two before, degrees descend, and the length is at most the degree plus one |
| Sturm.CountVariations | heresy_sec/geometry_math.py:117-125 | the loop counts sign changes with zeros left out |
| Isolation.WorkCounter.constructor | heresy_sec/geometry_math.py:265-270 | the shared counter starts at zero |
| Isolation.Isolator.constructor | heresy_sec/geometry_math.py:137-138 | nothing is sampled yet and nothing has been put out |
| Isolation.Isolator.State | heresy_sec/geometry_math.py:140-153 | whether the factor vanishes at q / scale and the sign changes of the sequence there, sampled once and counted once; fails just when a new point would pass the limit |
| Isolation.Isolator.HalfOpenCount | heresy_sec/geometry_math.py:155-169 | the count of a half-open interval, sampling only its new ends; fails on a negative count or the limit |
| Isolation.Isolator.Isolate | heresy_sec/geometry_math.py:173-187 | what is appended is ascending, inside the interval and count times the multiplicity long, within the budget of points; if no bucket count is negative, it is the linear scan of the buckets; fails only if some bucket count is negative or the budget passes the limit |
| Isolation.ScanSplits | heresy_sec/geometry_math.py:173-187 | the linear scan over an interval splits at any point in between, so bisection equals the scan |
| Isolation.CountsFall | heresy_sec/geometry_math.py:155-169 | counts telescope: with natural bucket counts an interval counts at least its parts |
| Isolation.BudgetSplits | heresy_sec/geometry_math.py:173-187 | the budgets of both halves, and the middle point, fit into the budget of the whole |
| Spectrum.QuantizedFactorRoots | heresy_sec/geometry_math.py:128-200 | accepted output is ascending, inside the interval and multiplicity times degree long; for a factor x - c with 0 <= c <= bound it is multiplicity copies of floor(c · scale), and whenever the sequence counts the known roots, as for every factor up to degree two that has them in the interval, it is the floor of each of them; a rejection means the counts do not settle, or a budget of 2 + 12 · degree points was not left |
| KnownRoots.ScanOfRoots | heresy_sec/geometry_math.py:173-187 | where the sequence counts given roots, the scan of the buckets lists the floor of each root on the grid, and nothing else |
| KnownRoots.LinearCounts | heresy_sec/geometry_math.py:107-125 | the sequence of a linear factor counts its root |
| KnownRoots.QuadraticCounts | heresy_sec/geometry_math.py:107-125 | the sequence of a quadratic factor with two roots counts both of them |
| Spectrum.KnownSettles | heresy_sec/geometry_math.py:189-199 | a factor whose roots are counted and lie in the interval settles |
| Spectrum.KnownBuckets | heresy_sec/geometry_math.py:189-199 | and accepted output lists the floor of each root, multiplicity times |
| Spectrum.TotalBudgetBound | heresy_sec/geometry_math.py:265-292 | over all factors the budgets stay within 14 times the degree, at most 896 |
| Spectrum.QuantizedRealSpectrum | heresy_sec/geometry_math.py:257-299 | never fails for work; the result is the characteristic polynomial with the sorted bucketed roots of its square-free factors, as many as the order; admissible input fails only if some factor does not settle |
| Matrices.Multiply | heresy_sec/geometry_math.py:207-217 | skipping zeros gives the plain matrix product |
| FaddeevLeVerrier.AddToDiagonal | heresy_sec/geometry_math.py:251-253 | adding to the diagonal adds a multiple of the identity |
| FaddeevLeVerrier.CharacteristicPolynomial | heresy_sec/geometry_math.py:220-254 | succeeds just for square matrices of order 1 to 64, so no division leaves a remainder; the coefficients satisfy Newton's identities with the traces of the powers |
| FaddeevLeVerrier.CharacteristicUnique | heresy_sec/geometry_math.py:220-254 | those identities determine the coefficients |
| FaddeevLeVerrier.PartialShifts | heresy_sec/geometry_math.py:242-251 | loop invariant: the matrix times the sum of c_i A^(k-i) is the next such sum but for its last term |
| FaddeevLeVerrier.TraceIsNewton | heresy_sec/geometry_math.py:243-249 | the trace of that sum is -k · c_k, so dividing it by k is exact |
| NewtonIdentities.IntegerSolution | heresy_sec/geometry_math.py:242-249 | every integer matrix has integer coefficients that satisfy Newton's identities |
| NewtonIdentities.ClosedSplits | heresy_sec/geometry_math.py:242-249 | a closed walk through the last vertex splits at its first return: closed walks are the convolution of first returns with closed walks |
| PowerSeries.ConvolveAssociates | heresy_sec/geometry_math.py:242-249 | products of power series associate |
| CayleyHamilton.LongCayleyHamilton | heresy_sec/geometry_math.py:220-254 | for a symmetric integer matrix Newton's identities, continued past the order, have no further coefficients, and the matrix is a root of the polynomial |
| CayleyHamilton.CayleyHamilton | heresy_sec/geometry_math.py:241-254 | the last auxiliary matrix is zero: a symmetric matrix is a root of its characteristic polynomial |
| CayleyHamilton.WalksCancel | heresy_sec/geometry_math.py:241-254 | induction on the order: walks that leave the minor, weighed with the coefficients of the minor, cancel |
| CayleyHamilton.SquareTrace | heresy_sec/geometry_math.py:241-254 | the square of the value of the polynomial at the matrix has trace zero |
| Eigenvalues.EigenvalueIsRoot | heresy_sec/geometry_math.py:220-254 | so every real eigenvalue of a symmetric matrix is a root of the polynomial that is returned |
| Eigenvalues.EigenvaluesAreRoots | heresy_sec/geometry.py:353-382 | every real eigenvalue of the Laplacian is a root of one of the square-free factors that are isolated, and lies in the interval that is searched |
| Actions.BuildActionGraph | heresy_sec/geometry.py:258-307 | fails just for no actions; otherwise one edge an action in stream order, and exactly the ends of edges as ascending vertices, at most two an action |
| Actions.ActionGraphIsGraph | heresy_sec/geometry.py:258-307 | if no two edges of the window collide, edges are told apart and end at listed vertices |
| Actions.EdgeMeans | heresy_sec/geometry.py:233-296 | which descriptors an edge joins, in which direction, with which name and which authority |
| Actions.AuthorityBits | heresy_sec/geometry.py:281-296 | every authority but SIM_ONLY is a bit of its own |
| Actions.WeightIsAuthorities | heresy_sec/geometry.py:439-451 | the bit count of a mask is the number of authorities in it |
| Graphs.ExplainedIsPathIndependent | heresy_sec/geometry.py:410-451 | a labelling that explains every mask makes every closed walk trivial |
| Graphs.ExplainedTransport | heresy_sec/geometry.py:410-451 | transport along a walk is the difference of the labels at its ends |
| Holonomy.BuildAdjacency | heresy_sec/geometry.py:411-422 | every edge is listed at both ends and nothing else is |
| Holonomy.Visit | heresy_sec/geometry.py:431-445 | processing the neighbours of a vertex handles each of them and keeps the invariant of the search |
| Holonomy.FindPotentials | heresy_sec/geometry.py:424-445 | the search reaches every vertex, with potentials that are transports along walks from the roots, and records every contradicted edge |
| Holonomy.ResidualsMeanPathDependence | heresy_sec/geometry.py:424-451 | no residual, every closed walk trivial, some labelling explains all masks: the same |
| Holonomy.BuildHolonomy | heresy_sec/geometry.py:410-471 | labels are those of a breadth-first search from the least vertex of each component, neighbours in ascending order; rows are exactly the contradicted edges, one each, ascending; there are none just when authority is path-independent; maximum and delta_P follow from the rows |
| BreadthFirst.OrderIsUnique | heresy_sec/geometry.py:426-438 | the order in which the search reaches vertices, and its labels, are determined by the vertices and the edges as a set |
| Holonomy.HolonomyIsUnique | heresy_sec/geometry.py:410-471 | so there is one report for every graph, in whatever order its edges are listed |
| Holonomy.DeltaPMeaning | heresy_sec/geometry.py:450-451 | the bit is set just when the labels contradict some edge in at least epsilon single authorities; for epsilon one, just when authority is path-dependent |
| Holonomy.ReportedMeans | heresy_sec/geometry.py:436-449 | a residual names its edge, what the labels of its ends leave of its mask, and the number of authorities in that |
| Rotations.CanonicalIsLeast | heresy_sec/geometry.py:90-92 | the canonical rotation is a rotation and no rotation is smaller |
| Rotations.SameCanonical | heresy_sec/geometry.py:474-479 | texts have the same canonical rotation just when they are rotations of each other |
| Rotations.StringOrder | heresy_sec/canonical.py:97-105 | the order of keys and identifiers: a proper prefix, or the smaller code point at the first difference |
| ForbiddenCycles.CycleSearch.Walk | heresy_sec/geometry.py:491-521 | adds exactly the reports of the cycles that extend the path, in exactly the counted number of calls, and fails just when that number passes the bound |
| ForbiddenCycles.BuildAdjacency | heresy_sec/geometry.py:483-487 | edges are listed at their sources |
| ForbiddenCycles.MatchingCycles | heresy_sec/geometry.py:482-525 | within the step bound the result is sorted and lists exactly the canonical rotations of simple directed cycles that spell the pattern; beyond it there is none |
| ForbiddenCycles.FollowsMeans | heresy_sec/geometry.py:511-517 | which edges the search follows, in terms of the path so far; each one followed is a step |
| ForbiddenCycles.RotatedPatternSameCycles | heresy_sec/geometry.py:482-525 | a rotated pattern reports the same cycles |
| ForbiddenCycles.NormalizedPatternSameCycles | heresy_sec/geometry.py:95-129 | so normalising a pattern changes no report |
| Laplacian.BuildLaplacian | heresy_sec/geometry.py:353-369 | the loops build the Laplacian of the multigraph without its loops, and the largest degree |
| Laplacian.LaplacianEntries | heresy_sec/geometry.py:353-369 | the matrix is symmetric, with the degrees on the diagonal |
| Laplacian.RowsSumToZero | heresy_sec/geometry.py:353-369 | every row adds up to zero |
| Laplacian.FormIsEnergy | heresy_sec/geometry.py:353-369 | the quadratic form is the sum over edges of the squared difference of their ends |
| Laplacian.FormBounds | heresy_sec/geometry.py:376-382 | it lies between 0 and twice the maximum degree times the squared length, for all real vectors |
| Laplacian.EigenvalueBounds | heresy_sec/geometry.py:376-382 | so does every real eigenvalue: the interval of the isolation is justified |
| Spectral.BuildSpectral | heresy_sec/geometry.py:372-407 | for at most 32 actions no guard on order, scale, bound or work fires; the result is the spectrum of the Laplacian with its change, and fails only if a factor does not settle |
| Spectral.DeltaZero | heresy_sec/geometry.py:383-390 | the change is zero just when the padded spectra are equal |
| Spectral.DeltaMeans | heresy_sec/geometry.py:383-390 | the change is the integer root of the sum of squared differences, with both spectra aligned at their upper ends |
| Forman.BuildPlainCurvature | heresy_sec/geometry.py:310-350 | entries are 4 minus both degrees; an edge trips just when its own bound is passed; content just when none trips |
| Forman.BuildWeightedDegrees | heresy_sec/geometry_profile_v2_policy.py:339-350 | weighted degrees with loops counted twice; fails just when some weight is missing |
| Forman.BuildCurvature | heresy_sec/geometry_profile_v2_policy.py:326-401 | entries are 4w minus both weighted degrees; content just when every edge bound and the window bound hold; a window trip lists every edge |
| Forman.UnweightedIsPlain | heresy_sec/geometry_profile_v2_policy.py:313-315 | unweighted curvature is the curvature of profile v1, edge by edge |
| Forman.UnweightedSameVerdict | heresy_sec/geometry_profile_v2_policy.py:374-399 | and the edge trips and entries are those of profile v1 |
| Forman.ReportMeans | heresy_sec/geometry_profile_v2_policy.py:313-399 | every number of a report: weight, four weights less all weights that meet either end, its multiple of the scale, and the sum of absolute values |
| Forman.Conservation | heresy_sec/geometry_profile_v2_policy.py:339-363 | curvatures add up to four times the weights less, for each vertex, its edge ends times its weighted degree |
| Forman.SafeIntegers | heresy_sec/geometry_profile_v2_policy.py:353-399 | for legal weights every emitted integer of a window stays below 2^53 |
| Registry.BuildRegistry | heresy_sec/geometry.py:546-701 | the rows are exactly the obstructions that the declarative definitions name; fails only if a cycle search passes its bound |
| Registry.PenroseRows | heresy_sec/geometry.py:558-566 | one obstruction a residual, of the mode the policy asks for |
| Registry.CycleRows | heresy_sec/geometry.py:568-576 | one obstruction a reported cycle of a forbidden pattern |
| Registry.StaircaseRows | heresy_sec/geometry.py:578-593 | one obstruction for every file read followed by traffic out of the same agent |
| Registry.TridentRows | heresy_sec/geometry.py:595-623 | one obstruction for every actor with the three authorities over three targets or more |
| Registry.OcclusionRows | heresy_sec/geometry.py:624-643 | one obstruction for every denied action on a target that is touched before and after |
| Registry.SlotRows | heresy_sec/geometry.py:645-656 | one obstruction for every ipc action without a legal slot |
| Registry.IndexEdges | heresy_sec/geometry.py:578-600 | the dictionary by action finds the edge of every action |
| Registry.EmptyRegistry | heresy_sec/geometry.py:658-687 | an empty registry means no residual, a content curvature and a content spectrum |
| Obstructions.PenroseMeans | heresy_sec/geometry.py:558-566 | one row for each residual, with its weight, its edge and the mode the policy asks for |
| Obstructions.CycleMeans | heresy_sec/geometry.py:568-576 | the closed paths that spell a forbidden pattern, with the edges of the path |
| Obstructions.StaircaseMeans | heresy_sec/geometry.py:579-594 | a file read before traffic out by the same agent, with the distance of their sequence numbers |
| Obstructions.TridentMeans | heresy_sec/geometry.py:596-622 | an actor that uses the three authorities over at least three targets, with all of its edges |
| Obstructions.OcclusionMeans | heresy_sec/geometry.py:624-643 | a denied action on a target that is touched before and after |
| Obstructions.SlotMeans | heresy_sec/geometry.py:645-656 | a message without a slot below the bound |
| Obstructions.ThresholdsMean | heresy_sec/geometry.py:658-674 | the trips of curvature and spectrum, with their edges and amounts |
| Obstructions.EffectMeans | heresy_sec/geometry.py:683-688 | the registry denies just when it lists a kind other than staircase, trident or, unless the policy demands their absence, Penrose loop; it allows just when it is empty |
| RoleRegistry.BuildRoleRegistry | heresy_sec/geometry_profile_v2_sensors.py:96-190 | inherited rows but for threshold trips, which are rebuilt with their kind |
| RoleRegistry.SameVerdict | heresy_sec/geometry_profile_v2_sensors.py:96-190 | rebuilding changes neither the verdict nor the kinds that are listed |
| RoleRegistry.FormanExcess | heresy_sec/geometry_profile_v2_sensors.py:131-155 | a tripped curvature has a positive excess, so the floor of 1 never decides and the threshold kind is never empty; each kind is named just when its own excess is positive |
| RoleRegistry.FormanRowMeans | heresy_sec/geometry_profile_v2_sensors.py:131-155 | the residual of a tripped curvature is the largest amount by which a bound is passed, and its threshold kind names the bounds that are |
| Evidence.HolonomyGrows | heresy_sec/geometry_profile_v2_runtime.py:51-72 | path dependence of the short window is path dependence of the long one |
| Evidence.ObstructionGrows | heresy_sec/geometry_profile_v2_runtime.py:51-72 | cycles, staircases, occlusions and slot errors of the short window are listed unchanged in the long one; path dependence and forks leave one of their kind |
| Effects.Strictest | heresy_sec/geometry.py:834-838 | the least effect by order is one of them and none is stricter |
| Effects.StrictestMeans | heresy_sec/geometry.py:834-838 | it denies just when some effect does, and allows just when all do |
| ShadowGuard.ArmedMeans | heresy_sec/geometry.py:841-860 | after any signals: armed just when nothing ever tripped, or a revalidated rearm has come with no trip since |
| ShadowGuard.DownStaysDown | heresy_sec/geometry.py:841-860 | a tripped fuse stays down until a revalidated rearm |
| ShadowGuard.FuseMeaning | heresy_sec/geometry.py:841-860 | the same in terms of windows |
| Verdicts.OnlyCleanWindowsAreAllowed | heresy_sec/geometry.py:950-957 | the clean reason code stands alone, and only for clean windows |
| Verdicts.ReasonsMean | heresy_sec/geometry.py:950-957 | every reason that a verdict names, and when |
| Verdicts.FinalIsNeverWeaker | heresy_sec/geometry.py:935-949 | the final effect: denied by either verdict or by the fuse alone, allowed just when both verdicts allow and the fuse is armed |
| Verdicts.DenialMeans | heresy_sec/geometry.py:935-957 | a window is denied by its decisions, by its geometry, or with the fuse as its only reason |
| Schedules.WindowsPartition | heresy_sec/geometry.py:1029-1031 | profile v1: every action lies in exactly one window and no window is empty |
| Schedules.StartIs | heresy_sec/geometry.py:1029-1031 | window i starts at i times the width, as long as that lies in the stream |
| Schedules.EndpointsAscend | heresy_sec/geometry_profile_v2_runtime.py:261-264 | profile v2: endpoints strictly increase by at most the stride and end at the length |
| Schedules.EndpointIs | heresy_sec/geometry_profile_v2_runtime.py:261-264 | endpoint i is the next multiple of the stride, or the length of the stream |
| Schedules.EndpointsIncrease | heresy_sec/geometry_profile_v2_runtime.py:261-264 | a later endpoint is strictly greater |
| Schedules.FirstEndpointAfter | heresy_sec/geometry_profile_v2_runtime.py:261-264 | the first endpoint beyond an action comes within one stride |
| Schedules.EveryActionIsCovered | heresy_sec/geometry_profile_v2_runtime.py:51-72 | every action is new in exactly one window, and lies in the short and the long part of that window |
| Receipts.HeadFixesLog | heresy_sec/geometry.py:985-1000 | if no receipt of the one log collides with one of the other, the last geometry receipt determines the whole log, with all that its receipts commit to |
| WindowsV1.BuildWindow | heresy_sec/geometry.py:872-1011 | one window: graph, sensors, registry, verdict and receipt as specified; fails only for an unsettled spectrum or an unbounded cycle search |
| WindowsV1.BuildWindows | heresy_sec/geometry.py:1014-1047 | the run: each window follows from the one before through spectrum, receipt and fuse; fails only for a window that cannot be evaluated |
| WindowsV1.WindowOfRun | heresy_sec/geometry.py:985-1047 | window i holds the actions from i times the width on; its receipt names their range, the classical receipt at its end and the receipt before it |
| WindowsV1.VerdictMeans | heresy_sec/geometry.py:929-957 | the reasons of a window one by one, and when it is denied |
| WindowsV1.SensorRowsMean | heresy_sec/geometry.py:558-674 | the rows of a window that come from its sensors: edges beyond their bound, the change of the spectrum, and edges that carry authority which no labelling of their ends explains |
| WindowsV1.FuseOverRuns | heresy_sec/geometry.py:1029-1047 | after every window of every run: armed just when no window has tripped, or one after the last trip begins with an allowed rearm and is itself clean |
| WindowsV1.ReviewLeavesFuse | heresy_sec/geometry.py:935-949 | a window under classical review only neither trips nor rearms |
| WindowsV1.LoadBearingMeansAllow | heresy_sec/geometry.py:929-977 | load-bearing just when the final effect is ALLOW, which is never weaker than any classical decision |
| WindowsV1.RunIsAllowed | heresy_sec/geometry.py:1014-1047 | in a whole run all windows are load-bearing just when all are allowed, and then so is every single action |
| WindowsV1.RunReceiptsChain | heresy_sec/geometry.py:985-1000 | the receipts of a run form a log |
| WindowsV1.HeadFixesRun | heresy_sec/geometry.py:904-1000 | so two runs with the same last receipt are the same window by window: actions, effects, graph, sensors, registry and verdict |
| WindowsV2.BuildSensor | heresy_sec/geometry_profile_v2_sensors.py:193-231 | the sensors of a role as specified; fails only for an empty view, a missing weight, an unsettled spectrum or an unbounded cycle search |
| WindowsV2.BuildWindow | heresy_sec/geometry_profile_v2_runtime.py:36-236 | one window from its two views and what is carried over |
| WindowsV2.BuildWindows | heresy_sec/geometry_profile_v2_runtime.py:239-294 | the run over all endpoints, each window following from the one before; fails only at an endpoint whose view fails, as it does for the empty stream |
| WindowsV2.EndpointOfRun | heresy_sec/geometry_profile_v2_runtime.py:261-264 | window i ends at the next multiple of the stride, or with the stream |
| WindowsV2.ViewsOfRun | heresy_sec/geometry_profile_v2_runtime.py:51-72 | each view holds the last actions before the endpoint, as many as its width; the receipt names the range of the long one |
| WindowsV2.VerdictMeans | heresy_sec/geometry_profile_v2_runtime.py:141-181 | the reasons of a window one by one, and when it is denied |
| WindowsV2.ThresholdRowsMean | heresy_sec/geometry_profile_v2_sensors.py:131-166 | which threshold rows a sensor lists |
| WindowsV2.OtherRowsMean | heresy_sec/geometry_profile_v2_sensors.py:116-129 | every other row repeats an obstruction of the view, under the name of the role |
| WindowsV2.PenroseRowsMean | heresy_sec/geometry_profile_v2_sensors.py:116-129 | Penrose loops are edges that carry authority which no labelling of their ends explains |
| WindowsV2.RunIsSafe | heresy_sec/geometry_profile_v2_policy.py:353-399 | in every run under a legal policy no weight, curvature or sum of curvatures leaves the safe integers |
| WindowsV2.GeometryOkMeansAllow | heresy_sec/geometry_profile_v2_runtime.py:104-117 | the six-fold conjunction holds just when the aggregate registry allows, that is when both registries are empty |
| WindowsV2.LoadBearingMeansAllow | heresy_sec/geometry_profile_v2_runtime.py:141-181 | load-bearing just when the final effect is ALLOW; never weaker than any decision in the long window |
| WindowsV2.RunIsAllowed | heresy_sec/geometry_profile_v2_runtime.py:239-294 | in a whole run all windows are load-bearing just when all are allowed, and then so is every single action |
| WindowsV2.ShortEvidenceInLong | heresy_sec/geometry_profile_v2_runtime.py:51-72 | every structural kind the short role lists, the long role lists too |
| WindowsV2.ShortAddsThresholds | heresy_sec/geometry_profile_v2_runtime.py:51-117 | so beside the long window the short one decides by its two thresholds only |
| WindowsV2.FuseOverRuns | heresy_sec/geometry_profile_v2_runtime.py:142-161 | after every window of every run: armed just when no window has tripped, or one after the last trip begins with an allowed rearm while everything in its view is clean |
| WindowsV2.ReviewLeavesFuse | heresy_sec/geometry_profile_v2_runtime.py:148-163 | a window under classical review only neither trips nor rearms |
| WindowsV2.DenialPersists | heresy_sec/geometry_profile_v2_runtime.py:141-161 | a denied action makes every window denied and disarmed whose long view holds it, and there is at least one |
| WindowsV2.RunReceiptsChain | heresy_sec/geometry_profile_v2_runtime.py:207-224 | the receipts of a run form a log |
| WindowsV2.HeadFixesRun | heresy_sec/geometry_profile_v2_runtime.py:207-224 | so two runs with the same last receipt are the same window by window, with both sensors of each |
| Paths.PrefixIsDirectory | heresy_sec/policy.py:59-65 | a normalised prefix matches exactly the targets below its directory, by whole names |
| Paths.PrefixIsAccepted | heresy_sec/contracts.py:219-230 | which prefixes are accepted; the first look at the parts never decides |
| Paths.PrefixIsStable | heresy_sec/contracts.py:219-230 | an accepted prefix is its own normal form after one round |
| Paths.AllowedTargetIsBelow | heresy_sec/policy.py:52-65 | a safe target under an accepted prefix lies strictly below its directory, with proper names only |
| Paths.SafeTargetMeans | heresy_sec/policy.py:52-56 | which file targets are safe, by their components |
| Paths.ComponentMeans | heresy_sec/artifacts.py:216-226 | splitting at slashes finds exactly the names that stand between slashes |
| Network.EndpointMeans | heresy_sec/policy.py:24-49 | a target has an endpoint just when the grammar of targets derives it, and then it is the scheme and the host of that derivation in lower case |
| Network.SchemeMeans | heresy_sec/policy.py:18-20 | which schemes the target may have |
| Network.PortMeans | heresy_sec/policy.py:36-46 | which ports: decimal numbers from 1 to 65535 outside brackets, any digits behind them |
| Network.HostIsExact | heresy_sec/policy.py:24-49 | the host that is looked up is in lower case and holds no slash, question mark, hash, at sign or NUL |
| Policy.BoundaryReasons | heresy_sec/policy.py:82-122 | names exactly the boundaries that are crossed |
| Policy.EvaluateAction | heresy_sec/policy.py:125-165 | succeeds just for legal policies; a crossed boundary denies, else the first matching rule decides, else the default; matched identifiers each once in order |
| Policy.DecideIsDecision | heresy_sec/policy.py:125-165 | the decision as a function of action and normalised policy meets the same specification |
| PolicyLaws.DecisionIsUnique | heresy_sec/policy.py:125-165 | that leaves one decision |
| PolicyLaws.DecisionMeans | heresy_sec/policy.py:68-165 | the decision in terms of the policy as it was given: a boundary that is crossed denies; else the applying rule that beats all others decides; else the default; all applying rules are listed |
| PolicyLaws.AuthorityNames | heresy_sec/policy.py:74-80 | the name of each authority |
| PolicyLaws.PolicyMeans | heresy_sec/contracts.py:233-373 | which typed policies are legal: counts, lengths, no duplicates, safe prefixes |
| PolicyLaws.IdentifierMeans | heresy_sec/contracts.py:64-68 | which texts are identifiers |
| PolicyLaws.SourceOrderIsIrrelevant | heresy_sec/contracts.py:341-373 | any permutation of the source rules normalises to the same policy, or fails alike |
| PolicyLaws.ChosenAmongSource | heresy_sec/policy.py:133-152 | the rule that decides is the unique least of the matching source rules, by descending priority, stricter effect, identifier |
| PolicyLaws.NormalizingTwice | heresy_sec/contracts.py:233-305 | normalising again is accepted, and changes nothing, just when the cleaned prefixes are distinct and at most 2048 long |
| PolicyLaws.TwoPrefixesOneDirectory | heresy_sec/contracts.py:301-304 | counterexample: a directory with and without its slash |
| PolicyLaws.LongestPrefix | heresy_sec/contracts.py:301-304 | counterexample: a prefix of 2048 letters, which the added slash makes too long |
| PolicyLaws.MatchedAreRules | heresy_sec/policy.py:133-141 | matched identifiers are identifiers, sorted and distinct, with the selected one among them |
| PolicyLaws.CrowdIsTooLarge | heresy_sec/contracts.py:358-360 | counterexample: a legal policy of 257 rules, each of which matches every action |
| Choices.DecisionsAreChoices | heresy_sec/contracts.py:386-419 | every decision can be recorded as it is: its reasons are identifiers, at least one and few |
| Choices.ChooseIsChoice | heresy_sec/contracts.py:386-419 | the sorted names of its reasons and the matched identifiers of that decision form such a record, under every normalised policy |
| Choices.DecisionIsReadBack | heresy_sec/contracts.py:445-450 | the record is read back unchanged just when at most 256 rules matched |
| ActionContract.ProducerIsStable | heresy_sec/contracts.py:126-159 | a normalised producer is flat, accepted JSON in sorted form, and its own normal form |
| ActionContract.ActionIsStable | heresy_sec/contracts.py:162-199 | a normalised action is accepted JSON in sorted form, has all its fields, and is its own normal form |
| ActionContract.ProducerMeans | heresy_sec/contracts.py:126-159 | which producers are accepted |
| ActionContract.ProducerKeeps | heresy_sec/contracts.py:150-159 | a normalised producer has its eight fields as they were given, or null |
| ActionContract.ActionMeans | heresy_sec/contracts.py:162-199 | which actions are accepted |
| ActionContract.ActionKeeps | heresy_sec/contracts.py:182-199 | a normalised action has its twelve fields as they were given, or null, an empty dictionary or SIM_ONLY where the source says so |
| ActionContract.ActionOfKeeps | heresy_sec/contracts.py:177-199 | the typed action that is evaluated says what the fields of the normalised one say, with the length of its canonical parameters |
| GeometryContract.CyclesAreStable | heresy_sec/geometry.py:95-129 | normalised forbidden cycles are canonical rotations, sorted and distinct, and their own normal form |
| GeometryContract.GeometryIsStable | heresy_sec/geometry_profile_v2_policy.py:266-270 | a normalised geometry policy of either profile is accepted JSON in sorted form and its own normal form |
| GeometryContract.CyclesMean | heresy_sec/geometry.py:95-129 | which lists of forbidden cycles are accepted: none may be a rotation of another |
| GeometryContract.CyclesKeep | heresy_sec/geometry.py:122-129 | the normal form lists the canonical rotation of every pattern, in order, and nothing else |
| GeometryContract.V1Means | heresy_sec/geometry.py:132-207 | which geometry policies of profile v1 are accepted |
| GeometryContract.V1Keeps | heresy_sec/geometry.py:171-207 | a normalised one has the bounds that were given |
| GeometryContract.V2Means | heresy_sec/geometry_profile_v2_policy.py:120-238 | which geometry policies of profile v2 are accepted |
| GeometryContract.V2Keeps | heresy_sec/geometry_profile_v2_policy.py:199-238 | a normalised one has the bounds that were given, with its weights sorted by name |
| GeometryPolicies.PolicyV1IsLegal | heresy_sec/geometry.py:132-207 | and its typed form has the bounds that the windows of profile v1 rely on |
| GeometryPolicies.PolicyV2IsLegal | heresy_sec/geometry_profile_v2_policy.py:120-238 | as it does for profile v2, weights included |
| GeometryPolicies.PolicyV1Says | heresy_sec/geometry.py:171-207 | the typed policy of profile v1 has every bound of the document |
| GeometryPolicies.PolicyV2Says | heresy_sec/geometry_profile_v2_policy.py:199-238 | as does that of profile v2, weight by weight |
| PolicyContract.RuleRoundTrip | heresy_sec/contracts.py:308-338 | a typed rule that is written is read back as it was |
| PolicyContract.BoundariesRoundTrip | heresy_sec/contracts.py:233-305 | typed boundaries that are written are read back as they were, with no default taken |
| PolicyContract.RuleMeans | heresy_sec/contracts.py:308-338 | which rules are read |
| PolicyContract.RuleKeeps | heresy_sec/contracts.py:321-338 | a rule is read as it stands, with a wildcard for every list that is missing |
| PolicyContract.BoundariesMean | heresy_sec/contracts.py:233-305 | which boundaries are read |
| PolicyContract.BoundariesKeep | heresy_sec/contracts.py:206-216 | boundaries are read as they stand, with the documented defaults |
| PolicyContract.PolicyMeans | heresy_sec/contracts.py:341-373 | which policies are accepted |
| PolicyContract.SourceKeeps | heresy_sec/contracts.py:358-373 | the typed policy has the effect, the boundaries and the rules of the document |
| PolicyContract.PolicyKeeps | heresy_sec/contracts.py:364-373 | the normal form has them too, with identifier, version and geometry |
| PolicyContract.NormalizingPolicyTwice | heresy_sec/contracts.py:341-373 | a normalised policy is accepted JSON in sorted form; normalising it again is accepted just when the cleaned prefixes of its source are distinct and at most 2048 long, and then changes nothing |
| Json.ValidateMeans | heresy_sec/canonical.py:49-87 | validation accepts exactly the values with safe integers and at most 128 levels of nesting |
| Json.SortedKeeps | heresy_sec/canonical.py:90-106 | sorting the keys keeps what is accepted, and sorting twice is sorting once |
| JsonText.DecimalRoundTrip | heresy_sec/canonical.py:90-106 | decimal text reads back as the number, without a leading zero |
| JsonGrammar.GlyphsRead | heresy_sec/canonical.py:137-198 | a string, with each character plain or in any of its escapes, reads as its characters |
| JsonGrammar.HexReads | heresy_sec/canonical.py:137-198 | four hexadecimal digits, in either case, read as the number that they are in place value |
| JsonGrammar.UnicodeReads | heresy_sec/canonical.py:137-198 | an escape of a code point outside the surrogates reads as that code point |
| JsonGrammar.PairOfReads | heresy_sec/canonical.py:137-198 | a pair of surrogate escapes reads as the code point that it stands for |
| JsonGrammar.ShortReads | heresy_sec/canonical.py:137-198 | the short escapes read as section 7 of RFC 8259 lists them |
| JsonGrammar.WriterChooses | heresy_sec/canonical.py:90-106 | which characters the writer escapes, and how |
| JsonGrammar.SpellingReads | heresy_sec/canonical.py:137-198 | every derivation of the grammar, with its own white space in each gap, is read as the value it spells, up to what follows it |
| JsonGrammar.SpellingFound | heresy_sec/canonical.py:137-198 | whatever the parser reads is such a derivation |
| JsonGrammar.FloatsMean | heresy_sec/canonical.py:155-156 | numbers with a fraction or an exponent, and only those, are refused as floating-point values |
| JsonGrammar.WriterRenders | heresy_sec/canonical.py:90-106 | what the writer writes is a derivation without gaps |
| CanonicalJson.ParseJson | heresy_sec/canonical.py:137-198 | the loop over white space, the parser, the trailing data and the canonical limits, in that order |
| CanonicalJson.ParseIsValid | heresy_sec/canonical.py:147-198 | only values with distinct keys, safe integers and bounded nesting are ever accepted |
| CanonicalJson.CanonicalAccepts | heresy_sec/canonical.py:90-106 | a value has a canonical text just when its integers and nesting are in bounds |
| CanonicalJson.ParseIsGrammar | heresy_sec/canonical.py:137-198 | a text parses to a value just when it spells that value by the grammar and the value has safe integers and bounded nesting |
| CanonicalJson.SpellingIsForgotten | heresy_sec/canonical.py:90-198 | two accepted texts have one canonical form just when they spell the same value, whatever their gaps, escapes, signs of zero and order of keys |
| CanonicalJson.CanonicalRoundTrip | heresy_sec/canonical.py:113-114 | parsing the canonical text of a valid value gives the value with sorted keys |
| CanonicalJson.CanonicalIsIdempotent | heresy_sec/canonical.py:90-114 | canonicalising any accepted text twice is canonicalising it once |
| CanonicalJson.SortedIsMeaning | heresy_sec/canonical.py:97-105 | sorted forms are equal just when the values are, with dictionaries as maps |
| CanonicalJson.CanonicalIsInjective | heresy_sec/canonical.py:90-114 | equal canonical texts mean equal values, and the other way round |
| CanonicalJson.PreimageIsInjective | heresy_sec/canonical.py:123-126 | domain, NUL and canonical text determine the domain and the value |
| Records.DecisionRoundTrip | heresy_sec/contracts.py:386-455 | a built decision is read back as it was, or refused when it lists more than 256 rules |
| Records.ReadDecisionIsShort | heresy_sec/contracts.py:445-450 | no decision is read back with more than 256 matches |
| Records.DecisionMeans | heresy_sec/contracts.py:423-455 | which values are read as which decisions, hash included |
| Records.ReceiptRoundTrip | heresy_sec/contracts.py:458-515 | a built receipt is read back as it was |
| Records.ReceiptMeans | heresy_sec/contracts.py:485-515 | which values are read as which receipts, hash included |
| Manifest.BuildManifest | heresy_sec/artifacts.py:63-78 | fails just when a file is longer than the safe integers; otherwise the rows are an inventory of the files, sorted by path |
| Manifest.VerifyRows | heresy_sec/artifacts.py:216-249 | the loop accepts exactly the lists of rows that describe existing files, each once |
| Manifest.VerifyManifest | heresy_sec/artifacts.py:178-261 | accepts exactly the directories whose manifest is the canonical text of an inventory of the other files, and reports the run that it names |
| Manifest.RowOrderIsFree | heresy_sec/artifacts.py:216-249 | the order of the rows is never checked: any permutation, with the manifest rewritten, is accepted |
| Manifest.SafePathMeans | heresy_sec/artifacts.py:216-226 | safe paths are relative, never step up, and are not the manifest |
| RunFiles.RecordPathsDiffer | heresy_sec/engine.py:209-216 | no two records share a file |
| RunFiles.StemMeans | heresy_sec/engine.py:209-216 | file names carry the index in six digits, or in as many as it needs |
| RunFiles.ArtifactsMean | heresy_sec/engine.py:189-218 | the map holds exactly the expected paths with their bodies, and no two entries meet |
| GeometryFiles.WindowPathsDiffer | heresy_sec/geometry_profile_v2_runtime.py:315-327 | no two parts of any two windows share a file, and none is the log |
| GeometryFiles.ArtifactMapMeans | heresy_sec/geometry_profile_v2_runtime.py:297-328 | the geometry map holds every part of every window under its own path, the log of the receipts, and nothing else |
| GeometryFiles.ArtifactMapIsGeometry | heresy_sec/geometry.py:1050-1071 | geometry paths are safe and apart from all other paths of a run |
| Engine.BuildRecords | heresy_sec/engine.py:116-138 | succeeds just when every action can be decided; then record i holds the decision of action i and a receipt with index i that binds capture, action, policy and decision of record i and names the receipt before it |
| Engine.StreamMeans | heresy_sec/engine.py:80-92 | which streams are accepted: distinct identifiers and increasing sequence numbers; and which fault is named first |
| Engine.AllAreNormalized | heresy_sec/engine.py:80-92 | every capture is read and normalised by itself |
| Engine.CountsAddUp | heresy_sec/engine.py:151-154 | every decision is counted under one effect |
| Engine.FinalStateMeans | heresy_sec/engine.py:155-161 | denied just when some decision or window is, allowed just when all are |
| Engine.RunActions | heresy_sec/engine.py:221-275 | succeeds just when the run can be computed and no file is too long for the inventory; writes the computed files and an inventory of them |
| Verifier.ReadRecords | heresy_sec/engine.py:353-396 | accepted records are stored as they are, their captures normalise to their actions, and their receipts chain and bind what belongs to them |
| Verifier.ExpectedPaths | heresy_sec/engine.py:417-435 | the set that is built is the set of expected paths |
| Verifier.SemanticRecords | heresy_sec/engine.py:312-456 | what it accepts is a run: the frame, chained records, the normalised stream, the log, the geometry of those records, and no other file |
| Verifier.SemanticsAreRead | heresy_sec/engine.py:312-456 | the same of the specification of those checks |
| Verifier.VerifyRun | heresy_sec/engine.py:459-509 | passes just when the semantic checks do, the summary is the computed one and the manifest is one of the computed run |
| Verifier.ReplayRun | heresy_sec/engine.py:512-587 | passes just when verification does and the run computed again agrees |
| Implementation.BuiltIsAccepted | heresy_sec/implementation.py:41-104 | the record that is built of the modules is accepted JSON in sorted form and passes its own checks, hash included |
| Implementation.BuiltSays | heresy_sec/implementation.py:41-61 | the record names the version and the path, length and hash of every module |
| Implementation.ImplementationMeans | heresy_sec/implementation.py:64-97 | which records are accepted, but for their hash |
| EngineKernel.AcceptedRecords | heresy_sec/implementation.py:64-104 | and with it: the hash must be that of the other fields |
| Replay.BundleFixesImplementation | heresy_sec/implementation.py:64-104 | the bundle hash stands for the whole implementation record, if the two at hand do not collide |
| Replay.ReplayIsSound | heresy_sec/engine.py:512-569 | if replay passes, every file but the manifest is what the engine makes of the captured bytes, and the manifest is an inventory for that run |
| Completeness.RecordsRead | heresy_sec/engine.py:353-396 | the records of a run are read back one after the other |
| Completeness.ReplayIsComplete | heresy_sec/engine.py:221-275 | every run with at most 256 matching rules an action verifies and replays |
| Completeness.ReplayIsExact | heresy_sec/engine.py:512-569 | replay accepts exactly the directories that hold such a run |
| Completeness.SemanticAccepts | heresy_sec/engine.py:312-456 | the semantic checks accept what the engine wrote and recover the run from it |
| Completeness.WrittenRunReplays | heresy_sec/engine.py:459-569 | a directory that the engine wrote verifies, and replays, just when no decision in it lists more than 256 rules |
| EngineKernel.EngineIsLawful | heresy_sec/engine.py:221-275 | the normalisers, the decision and the geometry files of the engine have the properties that replay rests on, for any hash that returns digests |
| EngineKernel.EngineReplayIsExact | heresy_sec/engine.py:512-569 | so replay accepts exactly the directories that hold a run of this engine |
| EngineKernel.RunRules | heresy_sec/engine.py:221-245 | the rules that a run decides by are the normalised rules of the policy that was read |
| EngineKernel.RecordedDecision | heresy_sec/engine.py:116-138 | in every run, each recorded decision is the decision of its captured action under the policy that was read, with effect, reasons, matches and selection |
| EngineKernel.WrittenRunReplays | heresy_sec/engine.py:459-569 | and what this engine wrote verifies, and replays, just when at most 256 rules of the policy match each action |
| EngineKernel.RunNeedsStablePrefixes | heresy_sec/contracts.py:376-383 | the policy identity normalises again, so a policy whose cleaned prefixes coincide or grow too long is accepted and then stops every run with CONTRACT_INVALID |
| Lineage.HeadFixesChain | heresy_sec/engine.py:116-138 | if SHA-256 does not collide on the records at hand, two chains of records with the same last receipt are equal: captures, actions, decisions, receipts and the digest of the policy |
| Lineage.RunIsChain | heresy_sec/engine.py:221-245 | the records of every run form such a chain |
| Lineage.HeadFixesDirectory | heresy_sec/engine.py:312-456 | two directories that pass the semantic checks under the same last receipt hold the same captures, actions, decisions and receipts |
| RunIds.RunIdFixesRun | heresy_sec/engine.py:95-113 | if SHA-256 does not collide on the runs at hand, two runs have one identifier just when policy bytes, captures and implementation agree, and then they are the same run |
| FinalStates.RunHasStream | heresy_sec/engine.py:80-92 | the decided actions of every run form a stream that the geometry takes: ascending sequence numbers and distinct identifiers |
| FinalStates.RunFilesSay | heresy_sec/engine.py:189-218 | what a run writes beside records and geometry, by path and body |
| FinalStates.RunRecordsSay | heresy_sec/engine.py:209-216 | the four files of every record, by path and body |
| FinalStates.SummarySays | heresy_sec/engine.py:141-186 | the summary: digests, head, and decisions and windows counted by their effects |
| FinalStates.StateWithoutGeometry | heresy_sec/engine.py:155-161 | under a policy of the first version the final state is that of the decisions alone |
| FinalStates.GeometrySays | heresy_sec/geometry.py:1050-1078 | profile, head and counts of the geometry of a run |
| FinalStates.AllowedMeansLoadBearingV1 | heresy_sec/engine.py:155-161 | under profile v1 the summary says ALLOWED just when every window of the run is load-bearing |
| FinalStates.AllowedMeansLoadBearingV2 | heresy_sec/engine.py:155-161 | under profile v2 the summary says ALLOWED just when every window of the run is load-bearing |
| EngineKernel.WindowsAddUp | heresy_sec/geometry.py:1074-1078 | every window is counted under one effect |

## Left out

- Spectrum.QuantizedRealSpectrum: Sturm's theorem is not proved, nor that the roots of a symmetric matrix's
  polynomial are all real: both rest on the completeness of the real numbers. Where roots are counted, the
  statement holds for the counts of sign variations, and a failure for admissible input is tied to a factor
  whose counts do not settle in the interval. That real eigenvalues are roots and lie there is proved.
- Spectrum.QuantizedFactorRoots: that the accepted output is the floor of each root is proved for factors
  whose sequence counts their roots, which is shown up to degree two; beyond, Sturm's theorem would supply it.
  Without it, the output is the scan of the buckets if no bucket count is negative
  (`Problem.CountsAreNatural`); the source accepts on the total alone.
- Isolation.Isolator.Isolate: equality with the scan is stated under the same hypothesis.
- Actions.BuildActionGraph: SHA-256 is an unknown function; a graph whose edge digests collide is a graph
  of the model only up to `Actions.EdgesDoNotCollide` for the actions of its window.
- Registry.BuildRegistry: two obstructions whose digests collide would share an entry of the source's
  dictionary; the model identifies an obstruction with its core. Rows are a set: their stored order, by
  digest, is not modelled.
- Forman.BuildCurvature: rows stand in the order of the edges; the source sorts them by digest.
- Forman.BuildPlainCurvature: the same order, for profile v1.
- WindowsV1.BuildWindow: a receipt holds the parts of its window themselves, where the source holds digests
  of digests of them; the captures and the policy, to which the evidence manifest commits, are not among
  them.
- WindowsV2.BuildWindow: the same of its receipts; evidence atoms are kinds only, without ordinals and
  references.
- Policy.BoundaryReasons: the list has no order; `Choices.Choose` sorts the names of the reasons.
- Network.EndpointOf: letters and digits are those of ASCII; the source folds the case of all letters, and
  takes the digits of any script for a port. The same holds of the lower case of hosts in
  PolicyContract.ReadBoundaries.
- JsonText.ParseValue: bytes that are no UTF-8 are not modelled; a lone surrogate escape is rejected at
  once, where the source rejects the finished value, or raises an encoding error if it stands in a key;
  so which of several faults is named first can differ. The limit of Python on digits of an integer and
  its recursion limit are not modelled; both only reject what is rejected here too.
- PolicyContract.NormalizeDocument: which of several faults of a policy is named first is not modelled. The
  same holds of the other contracts.
- Manifest.VerifyManifest: symbolic links, directories and unreadable files do not exist in a map.
- EngineKernel.BuildGeometry: the contents of the geometry windows are a parameter. `WindowsV1` and
  `WindowsV2` build the windows as methods on typed actions; how their parts are written as JSON is not
  modelled. `FinalStates` takes it as a hypothesis that the stored effects are those of such a run.
- Engine.RunActions: the run name and the place of the directory are not modelled.
- Replay.ReplayIsSound: that the stored and the current implementation records do not collide is a
  hypothesis; how the modules of the source bundle are read is left out.
- Lists that the source mutates inside one function are sequences that the methods reassign.
- The type checks on exact integers and booleans of typed values have no counterpart.
- The command line, the self test, demo data, archives, the profile lock and the dispatch between
  geometry versions are left out, as is reading and writing of files.
- Reports that verification and replay return, other than the run they name, are left out.
