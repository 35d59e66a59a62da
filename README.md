# OC1 oblique decision trees in Dafny

This project models the engine of OC1, a system that induces oblique
decision trees. An internal node of such a tree tests a point against a
hyperplane Σ c_j·x_j + c_{D+1}: the point goes left when the value is
negative and right otherwise. Each node's hyperplane is found by search:

- An axis-parallel sweep over the features.
- Hill climbing on one coefficient at a time (suggest_perturbation).
- Random jumps (perturb_randomly).
- Random restarts.
- CART-style linear combinations (cart_perturb, cart_perturb_constant).

Every candidate is scored by an impurity measure over the per-category
counts on the two sides. The project also models the rest of the engine:

- growing the tree recursively;
- cost-complexity pruning;
- writing and reading tree files;
- classifying points and measuring accuracy;
- k-fold cross-validation;
- the data hygiene of the loader (shuffling, filling in missing values, discovering categories).

The model is in imperative Dafny where OC1 changes state:

- The global workspace of mktree.c is the class `Oc1.Workspace`.
  - Its arrays are the coefficient vectors, the count vectors, the candidate buffer, temp_val and attribute_min.
  - Its mutable fields are coeff_modified and the stagnation counter.
- Points are objects of class `Oc1.Point`. Their dimensions, category and cached value `val` are updated in place.
- drand48 is an oracle object, `Util.Oracle`: a fixed sequence of draws in [0, 1) with a moving index.
- The impurity measure behind IMPURITY is a function parameter.

Each method's specification ties its results or its new state to pure
functions of its inputs, and lemmas prove what OC1 relies on:

- the count vectors are the tallies of the two sides;
- linear_split returns the value of a best cut between runs of equal values;
- a perturbation changes only the entries it should;
- every tree grown keeps the label, count and depth invariants;
- pruning only removes subtrees and selects the most accurate of the pruned trees;
- reading a written tree gives back the same tree, with coefficients as exact numbers rather than the six decimals write_hp prints;
- the cross-validation folds tile the data.

Conventions: arrays are indexed from 0, so category c is count entry c-1,
feature j is coefficient j-1 and the constant term is coefficient D.
Floating-point numbers are Dafny reals. TOLERANCE is 0.0001 and the limits
are those of oc1.h: MAX_DT_DEPTH 50, MAX_NO_OF_STAGNANT_PERTURBATIONS 10,
MAX_CART_CYCLES 100 and TOO_SMALL_FOR_ANY_SPLIT 3.

Modules and the files they model:

| module | file | models |
|---|---|---|
| Oc1 | oc1.dfy | points, the workspace, tallies, hyperplane values |
| Util | util.dfy | util.c and the random oracle |
| Counts | counts.dfy | compute_impurity.c |
| Measures | measures.dfy | impurity_measures.c |
| Sorting | sorting.dfy | the qsort of linear_split |
| Perturb | perturb.dfy | linear_split, suggest_perturbation, perturb_randomly |
| Cart | cart.dfy | cart_perturb, cart_perturb_constant |
| Mktree | mktree.dfy | alter_coefficients, axis_parallel_split |
| Oblique | oblique.dfy | oblique_split, cart_split |
| Normalize | normalize.dfy | normalize_data, unnormalize_data, unnormalize_hyperplane |
| Build | build.dfy | build_subtree, create_tree_node, build_tree |
| Trees | trees.dfy | the tree datatype, leaf_count, tree_depth, the label tests |
| TreeIO | treeio.dfy | the writers and readers of tree files |
| Classify | classify.dfy | classify, estimate_accuracy |
| Prune | prune.dfy | myprune.c |
| LoadData | loaddata.dfy | the category, missing-value and shuffle logic of load_data.c |
| Datasets | readdata.dfy | read_data |
| CrossVal | crossval.dfy | cross_validate |
| Wrappers | wrappers.dfy | Option and Result |

## Model

| member | source | states |
|---|---|---|
| Oc1.Workspace.constructor | oc1_source/mktree.c:376-393 | allocate_structures: fresh buffers for D dimensions and K categories, with the candidate buffer of the given size, and no hyperplane marked as modified |
| Oc1.TallyCounts | oc1_implementation/compute_impurity.c:97-100 | entry e of a tally is the number of items of category e+1 |
| Oc1.TallySum | oc1_implementation/compute_impurity.c:97-100 | the entries of a tally add up to the number of items whose category is in 1..K |
| Oc1.SplitCountsAreTallies | oc1_implementation/compute_impurity.c:109-112 | the vectors accumulated point by point, left when the value is negative, are the tallies of the two sides |
| Oc1.SidesPartition | oc1_implementation/compute_impurity.c:109-112 | every point lands on exactly one side, keeping its category |
| Oc1.SplitCountsTotal | oc1_implementation/compute_impurity.c:109-112 | the two count vectors together account for all n points |
| Oc1.HyperplaneUpdate | oc1_source/mktree.c:1021-1029 | replacing one coefficient moves the hyperplane's value at a point by the change times that coordinate (the constant by the change itself) |
| Oc1.HyperplaneLinear | oc1_implementation/perturb.c:358-363 | moving the coefficients alpha times along r adds alpha times r's value at every point |
| Util.MyAbs | oc1_source/util.c:53-58 | the result is non-negative and equals x or -x |
| Util.MyRandom | oc1_source/util.c:84-90 | above + u·(below - above) lies in [above, below) for a draw u in [0, 1) |
| Util.Oracle.Next | oc1_source/util.c:84-90 | one drand48 call: the next draw, in [0, 1), and the index moves on by one |
| Util.Min | oc1_source/util.c:116-126 | the result is one of a[0..n) and is at most each of them |
| Util.Average | oc1_source/util.c:99-108 | the result times n is the sum of a[0..n) |
| Util.GenerateRandomHyperplane | oc1_source/util.c:263-272 | entries 0..length-1 get myrandom(-max, max) from successive draws, so each lies in [-max, max); the rest of the array is unchanged |
| Counts.FirstMaxIsFirstMaximum | oc1_implementation/compute_impurity.c:149-158 | the position chosen holds the maximum of the prefix and every earlier entry is strictly smaller |
| Counts.LargestElement | oc1_implementation/compute_impurity.c:149-158 | largest_element returns a position in 1..count holding the maximum, with every earlier entry strictly smaller |
| Counts.StopSplittingMeaning | oc1_implementation/compute_impurity.c:177-195 | stop_splitting holds iff each side is homogeneous in its first-maximum category and the two categories differ; an empty side is homogeneous in category 1 |
| Counts.FullAtMaxIffPure | oc1_implementation/compute_impurity.c:185-190 | a side holds its whole total at its first maximum iff it is homogeneous in that category |
| Counts.PureFirstMax | oc1_implementation/compute_impurity.c:149-158 | a non-empty homogeneous side has its first maximum at its category |
| Counts.StopSplitting | oc1_implementation/compute_impurity.c:177-195 | the method's answer is the stop condition on the workspace's count vectors |
| Counts.ResetCounts | oc1_implementation/compute_impurity.c:129-135 | every entry of both count vectors becomes 0 |
| Counts.FindValues | oc1_implementation/compute_impurity.c:225-240 | when coeff_modified is set every val becomes the hyperplane's value at the point; otherwise no val changes; the flag ends cleared and features and categories are unchanged |
| Counts.SetCounts | oc1_implementation/compute_impurity.c:90-114 | flag 0: left all zero and right the tally of all points, values untouched; flag ≠ 0: values brought up to date, then left and right are the tallies of the points with negative and with non-negative values |
| Counts.RecountBySign | oc1_implementation/compute_impurity.c:101-113 | the flag ≠ 0 branch: refreshed values and the two tallies by sign |
| Counts.CountAllRight | oc1_implementation/compute_impurity.c:98-100 | the right vector becomes the tally of all points |
| Counts.CountBySign | oc1_implementation/compute_impurity.c:109-112 | the vectors become the left and right accumulations by sign |
| Counts.ComputeImpurity | oc1_implementation/compute_impurity.c:47-63 | 0 for at most one point or when stop_splitting holds, the measure of the two count vectors otherwise; the consistency check Σ(left+right) = n is the precondition |
| Measures.MinorityMeaning | oc1_source/impurity_measures.c:60-77 | a side's minority is its total less its count at largest_element, between 0 and the total, and 0 exactly for a homogeneous side |
| Measures.MinoritiesBounded | oc1_source/impurity_measures.c:60-106 | 0 ≤ maxminority ≤ summinority ≤ number of points, and maxminority is 0 iff both sides are homogeneous |
| Measures.SideMinority | oc1_source/impurity_measures.c:66-74 | the loop computes the side's minority |
| Measures.ComputeMaxMinority | oc1_source/impurity_measures.c:60-77 | maxminority over the workspace counts is the larger minority |
| Measures.ComputeSumMinority | oc1_source/impurity_measures.c:91-106 | summinority over the workspace counts is the sum of the minorities |
| Measures.SortedCountsMultiset | oc1_source/impurity_measures.c:127-141 | sorting the counts only rearranges them |
| Measures.SortedCountsAscending | oc1_source/impurity_measures.c:183-190 | the counts end in ascending order of var_compare |
| Measures.AscendingUnique | oc1_source/impurity_measures.c:183-190 | an ascending arrangement of the counts is unique, so the in-place sort's result is determined |
| Measures.SortCounts | oc1_source/impurity_measures.c:136-141 | qsort with var_compare leaves the unique ascending arrangement of the counts |
| Measures.VarianceNonNegative | oc1_source/impurity_measures.c:143-173 | with non-negative counts the variance measure, a sum of count·(i − avg)², is non-negative |
| Measures.SideSquaredError | oc1_source/impurity_measures.c:143-158 | the loop computes the side's squared error about its mean category |
| Measures.SortedSideError | oc1_source/impurity_measures.c:127-171 | the k > 2 branch measures the sorted side and puts the counts back exactly as they were |
| Measures.ComputeVariance | oc1_source/impurity_measures.c:120-175 | variance over the workspace counts; both count vectors end exactly as they started |
| Measures.RestoreCounts | oc1_source/impurity_measures.c:160-171 | the saved entries are put back |
| Measures.PureSideGiniZero | oc1_source/impurity_measures.c:265-300 | a side made of a single category contributes 0 gini impurity |
| Measures.PureSidesGiniZero | oc1_source/impurity_measures.c:265-300 | two homogeneous sides give a gini index of 0 |
| Measures.ComputeGini | oc1_source/impurity_measures.c:265-300 | gini_index over the workspace counts is the count-weighted mean of the sides' 1 − Σp² |
| Measures.SideGiniLoop | oc1_source/impurity_measures.c:281-296 | the second loop computes one side's 1 − Σ(a_i/t)² |
| Measures.Totals | oc1_source/impurity_measures.c:274-278 | the first loop computes the two sides' totals |
| Measures.TwoingCases | oc1_source/impurity_measures.c:367-399 | twoing is HUGE_VAL when a side is empty and otherwise HUGE_VAL or a positive finite value |
| Measures.ComputeTwoing | oc1_source/impurity_measures.c:367-399 | twoing over the workspace counts: 0 with no points, HUGE_VAL for a twoing value of 0, its reciprocal otherwise |
| Measures.Goodness | oc1_source/impurity_measures.c:384-390 | the loop computes Σ abs(l_i/tl − r_i/tr) |
| Measures.ComputeInfoGain | oc1_source/impurity_measures.c:243-253 | info_gain's branches for a given gain: 0 for a zero gain when one category holds every point, HUGE_VAL for another zero gain, 1/gain otherwise |
| Measures.VarianceOfCounts | oc1_source/impurity_measures.c:120-175 | the variance of the two count vectors, both left exactly as they were |
| Measures.CopyCounts | oc1_source/impurity_measures.c:132-138 | temp1 and temp2 are fresh copies of the count vectors |
| Measures.SquaredErrorNonNegative | oc1_source/impurity_measures.c:154-158 | with non-negative counts every side's squared error is non-negative |
| Measures.SortedCountsNonNegative | oc1_source/impurity_measures.c:139-140 | sorting non-negative counts keeps them non-negative |
| Measures.InsertAscendingMultiset | oc1_source/impurity_measures.c:139-140 | placing one count in an ascending run only adds it |
| Measures.InsertAscendingSorted | oc1_source/impurity_measures.c:139-140 | placing a count in an ascending run keeps it ascending |
| Measures.PureSquaredShares | oc1_source/impurity_measures.c:281-296 | on a side holding a single category the squared shares add up to 1 once that category is reached |
| Measures.GoodnessNonNegative | oc1_source/impurity_measures.c:382-390 | the twoing goodness, a sum of absolute differences, is non-negative |
| Sorting.QSort | oc1_implementation/perturb.c:439-441 | the first n candidates end sorted by the key and are a permutation of what they were; entries beyond n are unchanged |
| Sorting.Insert | oc1_implementation/perturb.c:439-441 | one insertion step extends the sorted prefix by one and permutes only the first n entries |
| Sorting.Swap | oc1_implementation/perturb.c:439-441 | exchanges two neighbouring candidates, nothing else changes |
| Perturb.CutConserves | oc1_implementation/perturb.c:443-461 | at every cut, left + right of each category is the number of candidates of that category |
| Perturb.CutCountsSum | oc1_implementation/perturb.c:443-461 | the counts of a cut add up to the number of candidates |
| Perturb.CutStep | oc1_implementation/perturb.c:457-461 | moving a candidate left adds one to its category on the left and removes one on the right |
| Perturb.RunEndIsRunEnd | oc1_implementation/perturb.c:452-455 | the inner scan ends where the value changes or the candidates end |
| Perturb.SweepKeepsBoundaries | oc1_implementation/perturb.c:450-473 | the sweep keeps only cuts at run boundaries, its kept impurity never grows and is the impurity of the kept cut |
| Perturb.SweepStopsOnlyAtZero | oc1_implementation/perturb.c:466-472 | the sweep runs to the end or stops right after keeping a cut of impurity 0 |
| Perturb.NoBoundaryInsideRun | oc1_implementation/perturb.c:450-463 | no cut separates two equal values |
| Perturb.SweepIsMinimal | oc1_implementation/perturb.c:466-472 | the kept impurity is at most that of every run boundary the sweep passed |
| Perturb.LinearSweepMeaning | oc1_implementation/perturb.c:443-473 | the kept cut is 0 or a run boundary, its impurity is at most the all-right impurity and at most that of every boundary passed, and the sweep ends at the end or at a kept impurity of 0 |
| Perturb.SplitValueSeparates | oc1_implementation/perturb.c:475-480 | the returned value is below every candidate for cut 0; strictly between the two sides for an inner cut; at least every value for cut N |
| Perturb.CountCandidatesRight | oc1_implementation/perturb.c:443-445 | every candidate is counted on the right |
| Perturb.FindRunEnd | oc1_implementation/perturb.c:452-455 | the scan finds the end of the run of equal values |
| Perturb.MoveRunLeft | oc1_implementation/perturb.c:457-461 | the run's candidates move from the right counts to the left counts |
| Perturb.SweepStart | oc1_implementation/perturb.c:443-448 | the sweep starts with all candidates on the right and that cut's impurity |
| Perturb.SweepRound | oc1_implementation/perturb.c:450-472 | one round moves a run left and keeps its cut when strictly better, or equal with a draw below 0.5 |
| Perturb.SweepCandidates | oc1_implementation/perturb.c:443-473 | the sweep's kept cut, draws used and final counts are those of the specification sweep |
| Perturb.LinearSplit | oc1_implementation/perturb.c:430-483 | linear_split sorts the candidates (a permutation), sweeps them and returns the three-case value of the kept cut |
| Perturb.CutValue | oc1_implementation/perturb.c:475-480 | the three-case return value |
| Perturb.SuggestedValueZeroes | oc1_implementation/perturb.c:233-240 | a suggested value puts its point on the hyperplane |
| Perturb.FillFeatureCandidates | oc1_implementation/perturb.c:232-240 | the candidates are the points with a non-zero coordinate, at c_j − val/x_j |
| Perturb.FillConstantCandidates | oc1_implementation/perturb.c:224-231 | for the constant every point is a candidate, at c − val |
| Perturb.ShiftedIsHyperplane | oc1_implementation/perturb.c:245-254 | the shifted values are those of the hyperplane with coefficient j replaced |
| Perturb.ShiftAndCount | oc1_implementation/perturb.c:245-254 | temp_val gets each moved value and the points are counted by its sign |
| Perturb.Decide | oc1_implementation/perturb.c:258-273 | rejects a worse move or a tie once the counter exceeds MAX; keeps a tie and increments the counter; keeps an improvement and resets the counter; the result is never above cur_error |
| Perturb.SuggestPerturbation | oc1_implementation/perturb.c:207-274 | only entry j of modified_coeff_array can change, to linear_split's value, by the stagnation rules; coeff_array is unchanged; the result is ≤ cur_error |
| Perturb.NoRandomCandidates | oc1_implementation/perturb.c:324-343 | there are no candidates iff the random direction's value is 0 at every point |
| Perturb.RandomStepZeroes | oc1_implementation/perturb.c:330-336 | a candidate step puts its point on the moved hyperplane |
| Perturb.MovedIsHyperplane | oc1_implementation/perturb.c:347-354 | the counted values are those of the hyperplane moved alpha times along r |
| Perturb.RandomStart | oc1_implementation/perturb.c:316-320 | modified_coeff_array starts as a copy and the direction takes D+1 draws of myrandom(-1, 1) |
| Perturb.RandomDecide | oc1_implementation/perturb.c:358-364 | a strict improvement moves modified_coeff_array by alpha·r and resets the counter; otherwise nothing changes |
| Perturb.PerturbRandomly | oc1_implementation/perturb.c:304-368 | with no effective points the result is FALSE and nothing changes; otherwise linear_split picks alpha and a strict improvement is kept as c + alpha·r, and the result is ≤ cur_error |
| Perturb.CountPoint | oc1_implementation/perturb.c:252-253 | one point adds one to its category on the left when its value is negative and on the right otherwise |
| Perturb.CopyCoefficients | oc1_implementation/perturb.c:219-220 | modified_coeff_array becomes a copy of coeff_array |
| Perturb.SplitCandidates | oc1_implementation/perturb.c:242 | linear_split over the first n candidates, leaving the rest of the buffer alone |
| Perturb.SuggestSplit | oc1_implementation/perturb.c:224-242 | the candidates for coefficient j are gathered and linear_split proposes the new value |
| Perturb.ShiftedImpurity | oc1_implementation/perturb.c:245-256 | the counts and impurity are those of the points once coefficient j moves by the change |
| Perturb.Refresh | oc1_implementation/perturb.c:219-222 | modified_coeff_array is a copy of coeff_array and the values are brought up to date when marked as modified |
| Perturb.CurrentValues | oc1_implementation/perturb.c:222 | find_values: the values are those of the hyperplane when it was marked as modified, and otherwise unchanged |
| Perturb.SuggestMove | oc1_implementation/perturb.c:224-273 | on current values: the proposal, the recount at the shifted values, the stagnation decision, and a result ≤ cur_error |
| Perturb.DirectionValue | oc1_implementation/perturb.c:326-328 | temp_val is the random direction's value at the point |
| Perturb.ProposeRandom | oc1_implementation/perturb.c:326-336 | point i gets the direction's value and, when it is non-zero, a candidate at −val/temp_val |
| Perturb.FillRandomCandidates | oc1_implementation/perturb.c:324-337 | temp_val holds the direction's values and the candidates are the points where it is non-zero |
| Perturb.ScaleAndCount | oc1_implementation/perturb.c:347-354 | temp_val becomes val + alpha·temp_val and the points are counted by its sign |
| Perturb.ScaledImpurity | oc1_implementation/perturb.c:347-356 | the counts and impurity are those of the hyperplane moved alpha times along the direction |
| Perturb.RandomSplit | oc1_implementation/perturb.c:324-345 | there are candidates iff the direction is non-zero at some point; without them no draw is used and the counts are unchanged; with them linear_split picks alpha |
| Perturb.RandomMove | oc1_implementation/perturb.c:322-367 | on current values, the outcome of perturb_randomly for the drawn direction |
| Perturb.RandomFromValues | oc1_implementation/perturb.c:322-367 | the values are refreshed and then the outcome of perturb_randomly for the drawn direction |
| Cart.NoCartCandidates | oc1_implementation/perturb.c:78-87 | there are no candidates iff x_j + gamma is 0 at every point |
| Cart.CartIsHyperplane | oc1_implementation/perturb.c:91-96 | the counted values are those of the hyperplane with c_j less lambda and the constant less lambda·gamma |
| Cart.CartCandidateZeroes | oc1_implementation/perturb.c:84-86 | a candidate step puts its point on the moved hyperplane |
| Cart.FirstMinIsFirstMinimum | oc1_implementation/perturb.c:100-111 | the kept round has the least impurity and every earlier round is strictly worse |
| Cart.CartSearch | oc1_implementation/perturb.c:73-112 | the three rounds gamma = -0.25, 0, 0.25 each split and recount; the kept round is the first of least impurity |
| Cart.CartUpdate | oc1_implementation/perturb.c:114-116 | only c_j and the constant change: by the best lambda and by lambda·gamma |
| Cart.CartPerturb | oc1_implementation/perturb.c:58-119 | the result is the best round's impurity and modified_coeff_array is the hyperplane moved on c_j and the constant only |
| Cart.ConstantIsHyperplane | oc1_implementation/perturb.c:160-165 | the counted values are those of the hyperplane with its constant lowered by lambda |
| Cart.CartPerturbConstant | oc1_implementation/perturb.c:136-171 | linear_split over all values picks lambda, the result is the impurity at val − lambda and only the constant of modified_coeff_array changes |
| Cart.CartPointMoves | oc1_implementation/perturb.c:92-94 | at a point, the moved hyperplane's value is the old value less lambda·(x_j + gamma) |
| Cart.FillCartCandidates | oc1_implementation/perturb.c:78-87 | the buffer holds, in order, the points with x_j + gamma ≠ 0, each at val/(x_j + gamma) with its category |
| Cart.CartCount | oc1_implementation/perturb.c:91-96 | starting from zero counts, the count vectors become the tallies of the points by the sign of val − lambda·(x_j + gamma) |
| Cart.CartTry | oc1_implementation/perturb.c:78-98 | one round: linear_split of the round's candidates picks lambda, and the counts and impurity are those of the moved values |
| Cart.CartKeep | oc1_implementation/perturb.c:100-111 | after each round the best is the first round of least impurity, with its lambda and gamma |
| Cart.CartRound | oc1_implementation/perturb.c:73-112 | one more round of the gamma loop is tried and recorded, keeping the first minimum |
| Cart.CartMove | oc1_implementation/perturb.c:73-116 | on current values, the three rounds and the update of c_j and the constant by the best round |
| Cart.FillConstantCart | oc1_implementation/perturb.c:149-156 | every point becomes a candidate at its value, with its category |
| Cart.ConstantCount | oc1_implementation/perturb.c:160-165 | starting from zero counts, the count vectors become the tallies of the points by the sign of val − lambda |
| Cart.ConstantTry | oc1_implementation/perturb.c:151-167 | linear_split of all values picks lambda, and the counts and impurity are those at val − lambda |
| Cart.ConstantMove | oc1_implementation/perturb.c:149-168 | on current values, the proposal, its impurity and the constant of modified_coeff_array lowered by lambda |
| Cart.ConstantUpdate | oc1_implementation/perturb.c:168 | only the constant of modified_coeff_array changes, lowered by lambda |
| Mktree.KeptMeaning | oc1_source/mktree.c:1021-1032 | every coefficient ends within TOLERANCE of the modified one, changes only where it differed by more, the hyperplane is unchanged iff none did, and altering twice changes nothing more |
| Mktree.AlterCoefficients | oc1_source/mktree.c:1016-1037 | copies exactly the coefficients that moved by more than TOLERANCE, updates every val by the change, returns true iff some moved, and then the counts are the tallies by sign |
| Mktree.AlteredMatch | oc1_source/mktree.c:1024-1029 | values that matched the old hyperplane match the new one after the incremental update |
| Mktree.ShiftValues | oc1_source/mktree.c:1023-1029 | every val moves by the change times its coordinate (by the change for the constant) |
| Mktree.AxisPlaneValue | oc1_source/mktree.c:1064-1072 | the hyperplane of round j has the value x_j + b at every point |
| Mktree.AxisSplit | oc1_source/mktree.c:1067-1072 | coefficient j becomes 1 and linear_split picks the threshold on coordinate j |
| Mktree.AxisRecount | oc1_source/mktree.c:1072-1077 | the constant becomes the threshold’s negation, the values are brought up to date and counted by sign, and the impurity is recorded |
| Mktree.KeptIsFirstMin | oc1_source/mktree.c:1079-1083 | the choice kept after n rounds is the first round of least impurity, with its constant and impurity |
| Mktree.AxisSearch | oc1_source/mktree.c:1066-1089 | the loop runs until the last feature or a zero impurity, and its record holds every round |
| Mktree.PlaceBest | oc1_source/mktree.c:1091-1093 | the best feature's coefficient is 1, the constant its stored bias, every other coefficient 0, marked as modified |
| Mktree.AxisParallelSplit | oc1_source/mktree.c:1057-1096 | leaves the hyperplane of the first round of least impurity, and the loop ended early only at impurity 0 |
| Mktree.AxisChoiceIsBest | oc1_source/mktree.c:1057-1096 | the chosen feature has the least impurity of the rounds run, every earlier feature is strictly worse, and a round before the last never had impurity 0 |
| Mktree.AlteredShift | oc1_source/mktree.c:1023-1031 | shifting the values for one more copied coefficient gives the values of the hyperplane with that coefficient replaced |
| Mktree.AlterLoop | oc1_source/mktree.c:1021-1032 | after the loop every coefficient is kept or copied as the tolerance rule says and every value has been shifted accordingly |
| Mktree.AxisIsHyperplane | oc1_source/mktree.c:1067-1077 | the values set_counts sees in round j are those of the axis-parallel hyperplane x_j + b |
| Mktree.FillAxisCandidates | oc1_source/mktree.c:1068-1071 | the candidates are every point's coordinate j, with its category |
| Mktree.AxisValuesUpdate | oc1_source/mktree.c:1074-1075 | find_values sets every value to x_j + b and clears coeff_modified |
| Mktree.AxisTry | oc1_source/mktree.c:1067-1083 | one round splits on feature j, recounts on x_j + bias and keeps the better choice |
| Mktree.AxisRound | oc1_source/mktree.c:1066-1089 | one more round is recorded, with the record still holding every round so far |
| Mktree.AxisKeep | oc1_source/mktree.c:1079-1083 | the first round or a strictly better one replaces the best choice |
| Mktree.ZeroCoefficients | oc1_source/mktree.c:1064 | every coefficient becomes 0 |
| Mktree.ClearAxis | oc1_source/mktree.c:1085-1086 | the round's coefficient and the constant are put back to 0 |
| Mktree.AxisSearchAndPlace | oc1_source/mktree.c:1064-1095 | the search and the placement of the best axis-parallel hyperplane, starting from all coefficients 0 |
| Oblique.Evaluate | oc1_source/mktree.c:850-852 | find_values, set_counts and compute_impurity give the impurity of the current hyperplane |
| Oblique.HillClimb | oc1_source/mktree.c:870-880 | a suggested value is kept when no worse and alter_coefficients changes the hyperplane; the impurity never grows and is unchanged when nothing is kept |
| Oblique.RandomJumps | oc1_source/mktree.c:881-897 | at most max_no_of_random_perturbations jumps, stopping at impurity 0 or at the first that changes the hyperplane; the impurity never grows |
| Oblique.DrawCoefficient | oc1_source/mktree.c:866-868 | the coefficient is (int) myrandom(1, D+2), and one draw suffices |
| Oblique.CycleBound | oc1_source/mktree.c:863 | the random order runs cycle_count steps, or 10 per coefficient when cycle_count is not positive |
| Oblique.SequentialSweep | oc1_source/mktree.c:914-934 | hill climbing on each feature in turn; the impurity never grows, and with no change it and the hyperplane are as before |
| Oblique.BestFirstSweep | oc1_source/mktree.c:908-923 | each feature is tried without being kept, the stagnation counter is put back, and the best feature found is no worse than cur_error |
| Oblique.RecordIsLeast | oc1_source/mktree.c:973-977 | least_error is the least impurity over all restarts, never above the starting one, and never increasing |
| Oblique.KeepRestart | oc1_source/mktree.c:973-977 | a restart replaces the best when strictly better, or equal with a draw above 0.5, and only then copies into best_coeff_array |
| Oblique.NewStart | oc1_source/mktree.c:979-986 | a new random hyperplane, recounted, with its impurity |
| Oblique.ObliqueStart | oc1_source/mktree.c:845-854 | the start is a random hyperplane unless axis-parallel splits are on, and it is recorded as best |
| Oblique.RandomPlane | oc1_implementation/train_util.c:40-48 | generate_random_hyperplane gives every coefficient a draw of myrandom(-1, 1), marked as modified |
| Oblique.ObliqueFinish | oc1_source/mktree.c:989-994 | best_coeff_array becomes the current hyperplane and the points are recounted on it |
| Oblique.ObliqueSplit | oc1_source/mktree.c:830-996 | the result is the least impurity over the restarts, never above the starting impurity, and the hyperplane left is the best restart's |
| Oblique.CartSplit | oc1_source/mktree.c:718-770 | CART cycles run until the impurity is 0, more than MAX_CART_CYCLES cycles have run, or two cycles differ by less than TOLERANCE; the points keep their features, and when the starting hyperplane was marked as modified or matched the values, the values at the end are those of the hyperplane left in coeff_array |
| Oblique.Recount | oc1_source/mktree.c:850-851 | find_values and set_counts(…, 1) bring the values up to date and count the points by sign on the current hyperplane |
| Oblique.StartImpurity | oc1_source/mktree.c:850-852 | the starting impurity is that of the current hyperplane whenever it was marked as modified |
| Oblique.Suggest | oc1_source/mktree.c:870-871 | suggest_perturbation never reports an impurity above cur_error |
| Oblique.Jump | oc1_source/mktree.c:887 | perturb_randomly reports no more than cur_error, or leaves the modified hyperplane equal to the current one |
| Oblique.Alter | oc1_source/mktree.c:873 | alter_coefficients reports true exactly when the hyperplane changes, and only when the modified one differed; values that matched the hyperplane match the one it leaves |
| Oblique.ClimbAt | oc1_source/mktree.c:870-880 | one hill-climbing attempt on a coefficient: the impurity never grows and changes only with the hyperplane |
| Oblique.JumpStep | oc1_source/mktree.c:887-895 | one random jump: the impurity never grows and changes only with the hyperplane |
| Oblique.RandomStep | oc1_source/mktree.c:865-897 | one step of the random order, a climb on a drawn coefficient and random jumps when it fails: the impurity never grows |
| Oblique.RandomRestart | oc1_source/mktree.c:862-898 | the cycle_count steps of the random order never increase the impurity |
| Oblique.OrderedCycle | oc1_source/mktree.c:903-970 | one cycle of the sequential or best-first order, with random jumps when it does not improve: the impurity never grows |
| Oblique.OrderedRestart | oc1_source/mktree.c:899-971 | the cycles of the sequential or best-first order never increase the impurity, and their count is within the fuel |
| Oblique.Climb | oc1_source/mktree.c:861-971 | one restart's climb never increases the impurity; cycle_count is CycleBound in the random order and the number of cycles otherwise |
| Oblique.LeastToIsMinimum | oc1_source/mktree.c:973-977 | the least impurity over the first n restarts is one of theirs, at most each, and never above that over fewer |
| Oblique.CopyToBest | oc1_source/mktree.c:976 | best_coeff_array becomes a copy of coeff_array |
| Oblique.RestartRound | oc1_source/mktree.c:857-987 | one restart is climbed and recorded, the best so far kept by the restart rule, and restart_count moves on unless the impurity is 0 |
| Oblique.Restarts | oc1_source/mktree.c:857-987 | restarts run until least_error is 0 or no_of_restarts are done, and best_coeff_array holds the recorded best |
| Oblique.CartStepAt | oc1_source/mktree.c:739 | cart_perturb on one coefficient leaves the points' features, the hyperplane and the values as they were, so values that matched the hyperplane still match it |
| Oblique.CartConstantStep | oc1_source/mktree.c:750 | cart_perturb_constant leaves the points' features, the hyperplane and the values as they were, so values that matched the hyperplane still match it |
| Oblique.CartProposal | oc1_source/mktree.c:739 | cart_perturb leaves the points in the state it found them in and the values not marked stale |
| Oblique.ConstantProposal | oc1_source/mktree.c:750 | cart_perturb_constant leaves the points in the state it found them in and the values not marked stale |
| Oblique.CartCycle | oc1_source/mktree.c:738-758 | one CART cycle over every coefficient and the constant, each step followed by alter_coefficients, keeps the points' features, leaves the values not marked stale, and keeps values that matched the hyperplane matching the one it leaves |
| Normalize.RestoredTranslated | oc1_source/mktree.c:1435-1471 | translating by the minima and restoring are inverse to each other |
| Normalize.TranslatedNonNegative | oc1_source/mktree.c:1435-1443 | after translation every attribute is non-negative, and a negative minimum becomes 0 at some point |
| Normalize.UnnormalizedValue | oc1_source/mktree.c:1489-1495 | the adjusted hyperplane's value at an original point equals the old hyperplane's value at the translated point |
| Normalize.ColumnMinimum | oc1_source/mktree.c:1436-1438 | the column minimum, as min computes it |
| Normalize.NormalizeData | oc1_source/mktree.c:1427-1445 | attribute_min holds the column minima and every point is translated by them; categories and values are unchanged |
| Normalize.UnnormalizeData | oc1_source/mktree.c:1462-1472 | every point's dimensions are restored; categories and values are unchanged |
| Normalize.UnnormalizeHyperplane | oc1_source/mktree.c:1489-1495 | the constant moves by −Σ c_i·min_i over the negative minima |
| Build.SidesPermutation | oc1_source/mktree.c:672-678 | the left and right arrays together are a permutation of the points |
| Build.SidesMembers | oc1_source/mktree.c:672-678 | a point is on the left iff its value is negative and on the right iff it is not |
| Build.SidesCats | oc1_source/mktree.c:672-678 | the sides' categories, in their original order, are those counted left and right |
| Build.SidesTally | oc1_source/mktree.c:641-644 | the two sides' tallies add up entrywise to the tally of all points |
| Build.SplitPoints | oc1_source/mktree.c:653-678 | a side's array, in the original order, is built only when wanted |
| Build.CreateTreeNode | oc1_source/mktree.c:785-807 | the node copies the coefficients and both count vectors, and its categories are the first maxima |
| Build.StartImpurity | oc1_source/mktree.c:588-590 | the baseline impurity with every point on the right |
| Build.NormalizedOblique | oc1_source/mktree.c:602-614 | with normalisation the points are restored and the hyperplane unnormalised, with attribute_min reset to 0 |
| Build.CartChoice | oc1_source/mktree.c:593-597 | cart_split runs iff the axis-parallel impurity is not 0 and the node is the root or has more than 2D points; afterwards the hyperplane is marked as modified or the values match it |
| Build.BuildSubtree | oc1_source/mktree.c:567-698 | NULL iff n ≤ 3, the label is too long, the baseline impurity is 0 or the best impurity is no better; otherwise a node of n points whose counts are the tallies of the two sides of its own hyperplane, with subtrees grown the same way and none at impurity 0 |
| Build.GrowNode | oc1_source/mktree.c:628-651 | the node has the counts of the two sides of its hyperplane, its label and n points, and no children when its impurity is 0 |
| Build.GrowChildren | oc1_source/mktree.c:680-694 | children are grown under labels node_str+"l" and node_str+"r" only when wanted |
| Build.BuildTree | oc1_source/mktree.c:437-526 | the root grown under the empty label, or the fatal message when it does not split; the tree has the grown invariants and depth at most MAX_DT_DEPTH |
| Build.DepthWithinLimit | oc1_source/mktree.c:582-586 | a tree grown under label s is at most MAX_DT_DEPTH − abs(s) deep |
| Build.GrownAlpha | oc1_source/myprune.c:269-286 | the cost-complexity measure of every grown tree is non-negative |
| Build.LabelBufferAsWritten | oc1_source/mktree.c:577 | some tree allowed by the depth test writes a child label past a MAX_DT_DEPTH byte buffer |
| Build.LabelBufferCorrected | oc1_source/mktree.c:681-690 | with MAX_DT_DEPTH + 1 bytes every child label fits |
| Build.SidesLength | oc1_source/mktree.c:672-678 | the two sides together hold exactly the n points divided |
| Build.SidesDistinct | oc1_source/mktree.c:672-678 | dividing distinct points gives sides of distinct points |
| Build.SidesDisjoint | oc1_source/mktree.c:672-678 | no point goes to both sides |
| Build.SidesWellFormed | oc1_source/mktree.c:672-678 | every point of a side is one of the node's points, and the sides stay well formed |
| Build.NodeCounts | oc1_source/mktree.c:641-644 | the two sides' tallies account for every point and add up entrywise to the node's tally |
| Build.SplitReady | oc1_source/mktree.c:653-678 | each side handed to a recursive call is distinct, well formed, no larger than the node, drawn from its points and disjoint from the other, and its tally is the node's count vector |
| Build.GrownNode | oc1_source/mktree.c:646-694 | a fitting node whose children fit their labels and count vectors, with no child on a homogeneous side, forms a grown tree |
| Build.SideTotals | oc1_source/mktree.c:641-644 | lpt and rpt are the totals of the left and right count vectors |
| Build.AxisStage | oc1_source/mktree.c:599-600 | the axis-parallel stage leaves a hyperplane x_j + bias for some feature j, marked as modified, and the points keep their features |
| Build.ObliqueStep | oc1_source/mktree.c:609 | oblique_split's result is the least impurity over its restarts and the hyperplane left is the best restart's, with the values up to date |
| Build.Unnormalize | oc1_source/mktree.c:610-614 | the points get their original features back, the hyperplane is unnormalised with its value at every point unchanged, and attribute_min is all 0 |
| Build.CartStage | oc1_source/mktree.c:597 | cart_split runs at most MAX_CART_CYCLES + 1 cycles, the points keep their features, and a hyperplane marked as modified on entry leaves values that match the hyperplane cart_split ends with |
| Build.ObliqueStage | oc1_source/mktree.c:602-621 | when ap_bias·oblique ≥ cur the axis-parallel hyperplane and impurity are kept and marked as modified; otherwise the oblique impurity is taken with its hyperplane |
| Build.RestoreCoefficients | oc1_source/mktree.c:616-618 | coeff_array becomes the saved axis-parallel coefficients |
| Build.PlainChoice | oc1_source/mktree.c:599-622 | the oblique stage runs iff the impurity so far is not 0, oblique splits are on and there are more than 2D points; the result is the better of the two stages by ap_bias |
| Build.ChooseSplit | oc1_source/mktree.c:593-623 | the points keep their features and categories, and when the split improves, in CART mode as well as outside it, the values match the hyperplane unless it is marked as modified |
| Build.CountSides | oc1_source/mktree.c:628-629 | find_values and set_counts(…, 1) leave the values equal to those of the hyperplane and the count vectors as the tallies of the two sides by them |
| Build.PrepareNode | oc1_source/mktree.c:628-648 | the node carries the count vectors of the two sides of its hyperplane, its label and the number of points, and lpt, rpt are the sides' totals |
| Build.SplitNode | oc1_source/mktree.c:651-694 | the node's non-homogeneous sides are divided off by sign and grown, giving a grown tree with that node at the root |
| Build.GrowSide | oc1_source/mktree.c:680-694 | a side grown under its label fits that label and the side's count vector, and its points keep their features |
| Trees.LeafCount | oc1_source/tree_util.c:299-306 | leaf_count is at least 1 |
| Trees.LeafCountIsSizePlusOne | oc1_source/tree_util.c:299-306 | leaf_count is the number of nodes plus one |
| Trees.DepthBounds | oc1_source/tree_util.c:320-331 | depth 0 iff the empty tree, at most the number of nodes, and at most 2^depth leaves |
| Trees.ChildTests | oc1_source/tree_util.c:237-265 | in a labelled tree the left child passes isleftchild only and the right child isrightchild only |
| Trees.ChildTestsExclusive | oc1_implementation/classify_util.c:249-280 | no node is both a left and a right child of another, and a child's label is one longer |
| Trees.Preorder | oc1_source/tree_util.c:379-388 | the preorder lists every node once |
| TreeIO.ReadRecordOfWritten | oc1_source/tree_util.c:155-225 | read_hp reads back a record written by write_hp, alpha aside, and uses exactly its tokens |
| TreeIO.AppliedEntry | oc1_source/tree_util.c:198-202 | the terms set exactly the non-zero coefficients and leave the others at 0 |
| TreeIO.Majority | oc1_source/tree_util.c:212-222 | read_hp's categories are the first maxima of the counts |
| TreeIO.ReadEquation | oc1_implementation/classify_util.c:176-211 | a successful equation has D+1 coefficients and uses at least one token |
| TreeIO.ReadsBack | oc1_source/tree_util.c:101-139 | read_subtree reads back the records of labelled subtrees as those subtrees and leaves the rest of the input and its lookahead as they follow |
| TreeIO.ReadsWholeTree | oc1_source/tree_util.c:101-139 | the records of a whole tree are read back as the tree, with nothing left over and no lookahead |
| TreeIO.HeaderRoundTrip | oc1_source/tree_util.c:280-287 | read_header reads back write_header's name and sizes exactly when the name has no comma |
| TreeIO.HeaderTrainRoundTrip | oc1_implementation/classify_util.c:297-308 | the three-line header round-trips, order word included, exactly when the name is readable and the order is known |
| TreeIO.RoundTrip | oc1_source/tree_util.c:55-77 | read_tree reads back what write_tree wrote, each coefficient being one exact token |
| TreeIO.RoundTripTrainCorrected | oc1_implementation/classify_util.c:53-78 | with the constant always written, read_tree reads back train_util.c's file |
| TreeIO.ZeroConstantUnreadable | oc1_implementation/train_util.c:154-161 | a root with a zero constant, written by train_util.c, makes reading fatal |
| TreeIO.WritersAgree | oc1_implementation/train_util.c:133-162 | the two writers agree on trees whose constants are all non-zero |
| TreeIO.TrainRecordsStart | oc1_implementation/train_util.c:103-114 | train_util.c's records start with a heading |
| TreeIO.RecordsInPreorder | oc1_source/tree_util.c:379-388 | write_subtree writes one record per node, in preorder |
| TreeIO.ReadTreeLinked | oc1_implementation/classify_util.c:102-144 | every tree read_tree returns has each node as the left or right child, by label, of its parent |
| TreeIO.Digits | oc1_implementation/train_util.c:184-190 | the decimal digits of cycle_count in "Random<n>" |
| TreeIO.Reader.ReadHeader | oc1_implementation/classify_util.c:297-308 | consumes exactly the header fields, or fails as the specification does |
| TreeIO.Reader.ReadHp | oc1_implementation/classify_util.c:163-235 | reads one record term by term as the specification does, moving the position by the tokens used |
| TreeIO.Reader.Next | oc1_implementation/classify_util.c:107-112 | the next node is extra_node if set, which is cleared, and read_hp's record otherwise |
| TreeIO.Reader.ReadSubtree | oc1_implementation/classify_util.c:102-144 | the subtrees read and the lookahead left agree with the read_subtree specification |
| TreeIO.Reader.ReadTree | oc1_implementation/classify_util.c:53-78 | the header, root and subtrees read agree with the read_tree specification |
| TreeIO.ReadHeaderFields | oc1_implementation/classify_util.c:297-308 | a header read leaves a suffix of the input, has a readable name, and carries parameters exactly in classify_util.c's version |
| TreeIO.ReadRecord | oc1_implementation/classify_util.c:163-235 | a record read uses at least one token and gives D+1 coefficients and K counts per side |
| TreeIO.ReadChildren | oc1_implementation/classify_util.c:102-144 | read_subtree never reads past the end of its input |
| TreeIO.Reader.ReadEquationAt | oc1_implementation/classify_util.c:176-211 | the equation loop read from position i0 agrees with the equation specification |
| TreeIO.Reader.ReadRight | oc1_implementation/classify_util.c:134-143 | the candidate right child is read as the right subtree or kept as extra_node, as the specification does |
| TreeIO.Reader.ReadRootTree | oc1_implementation/classify_util.c:69-77 | after the header, the root and its subtrees are read as the read_tree specification does |
| TreeIO.ReadLinked | oc1_implementation/classify_util.c:115-140 | each subtree read_subtree attaches is a child of its root by label |
| TreeIO.ZeroConstantExample | oc1_implementation/train_util.c:154-161 | a one-dimensional root with a zero constant: train_util.c's file is unreadable, the corrected writer's file reads back |
| Classify.PredictInRange | oc1_source/classify.c:66-88 | a prediction is a category in 1..K |
| Classify.Descend | oc1_source/classify.c:60-90 | the walk goes left iff the value is negative and stops at the first absent child with that side's category |
| Classify.ClassifyPoints | oc1_source/classify.c:47-94 | only categories change, each to the prediction; an empty tree changes nothing |
| Classify.CorrectPlusIncorrect | oc1_source/classify.c:173-215 | correct[c] + incorrect[c] is the number of points labelled c |
| Classify.ClassTallyEntries | oc1_source/classify.c:230-235 | class[2c−1] = correct[c] and class[2c] = the number of points labelled c |
| Classify.OutcomeMeaning | oc1_source/classify.c:221-235 | the accuracy lies in [0, 100] and the totals are the tallies of the categories |
| Classify.CountPredictions | oc1_source/classify.c:173-215 | the correct and incorrect arrays are the per-category counts of right and wrong predictions |
| Classify.EstimateAccuracy | oc1_source/classify.c:151-242 | fatal on a NULL root; otherwise the outcome of the tree on the points |
| Classify.PlaneSum | oc1_source/classify.c:180-182 | the sum is the hyperplane's value at the point |
| Classify.CountPoint | oc1_source/classify.c:177-214 | one point adds one to correct or to incorrect of its category, by whether the tree predicts it |
| Classify.CorrectTotal | oc1_source/classify.c:173-215 | the correct predictions among n points number between 0 and n, and no entry is negative |
| Classify.Total | oc1_source/classify.c:221-226 | total_corrects and total_incorrects are the sums of the per-category counts |
| Classify.TallyArray | oc1_source/classify.c:230-235 | a fresh array holding, for each category, its correct count and then its number of points |
| Prune.SubtreeCostIsErrors | oc1_source/myprune.c:299-326 | subtree_cost is the errors of the absent child slots over the total |
| Prune.SubtreeWithinNode | oc1_source/myprune.c:299-352 | when children's counts add up to their parent's, subtree errors are at most node errors |
| Prune.AlphaDivisor | oc1_source/myprune.c:276-285 | leaf_count − 1 ≥ 1 for a non-empty node |
| Prune.AlphaNonNegative | oc1_source/myprune.c:269-286 | alpha is non-negative for consistently counted trees |
| Prune.AlphasInPreorder | oc1_source/myprune.c:269-286 | compute_alpha records one alpha per internal node, in preorder |
| Prune.CutIsPruning | oc1_source/myprune.c:420-442 | cut_subtrees only removes subtrees, resets the alphas it visits, and never cuts the root |
| Prune.CutShrinks | oc1_source/myprune.c:420-442 | a cut at a non-root threshold shrinks the tree |
| Prune.FirstMinMeaning | oc1_source/myprune.c:231-236 | the weakest link is the first minimum over indices 2..internal_nodes |
| Prune.WeakestCutShrinks | oc1_source/myprune.c:220-247 | NULL iff one internal node; otherwise a pruning with strictly fewer leaves |
| Prune.ChainDecreasing | oc1_source/myprune.c:136-155 | the trees of the pruning sequence have strictly decreasing leaf counts |
| Prune.ChainSuffix | oc1_source/myprune.c:180-187 | replaying cuts from a tree of the sequence gives the rest of the sequence |
| Prune.PrunedKeepsShape | oc1_source/myprune.c:420-442 | pruning keeps the planes, counts and sizes of the kept nodes |
| Prune.FirstMaxAccuracyMeaning | oc1_source/myprune.c:159-162 | largest_element picks the first most accurate tree |
| Prune.WithinZeroErrors | oc1_source/myprune.c:169-177 | with NO_OF_STD_ERRORS = 0 a tree is within range iff its accuracy equals the best |
| Prune.SelectToMeaning | oc1_source/myprune.c:168-177 | the selection is the best or a smaller tree within range, and no tree within range has fewer leaves |
| Prune.SelectedIsLastMostAccurate | oc1_source/myprune.c:159-177 | the tree selected is a most accurate one and the last of them in the sequence |
| Prune.PrunedIsMostAccurateSmallest | oc1_source/myprune.c:100-190 | error_complexity_prune returns the selected tree of the pruning sequence |
| Prune.NoSamplesNoPruning | oc1_source/myprune.c:159-177 | with no pruning points every accuracy is undefined and the tree is unpruned |
| Prune.PruneIsPruning | oc1_source/myprune.c:61-77 | prune returns a pruning with no more leaves, and its input when leaf_count ≤ 2 |
| Prune.TreeArrayOverflows | oc1_source/myprune.c:118-144 | the sequence and its NULL terminator do not fit the internal_nodes entries allocated |
| Prune.TreeArrayFits | oc1_source/myprune.c:118-144 | leaf_count entries hold the sequence and its terminator |
| Prune.Pruner.ComputeAlpha | oc1_source/myprune.c:269-286 | appends the tree's alphas in preorder to alpha_array and returns the tree with them set |
| Prune.Pruner.NodeCostOf | oc1_source/myprune.c:337-352 | node_cost is the combined total less the combined first maximum, over the total |
| Prune.Pruner.SubtreeCostOf | oc1_source/myprune.c:299-326 | subtree_cost as specified |
| Prune.Pruner.WeakestLink | oc1_source/myprune.c:231-236 | the first minimum of alpha_array from its second entry on |
| Prune.Pruner.CutWeakestLinks | oc1_source/myprune.c:220-247 | the result is the weakest-link cut of the tree |
| Prune.Pruner.BuildChain | oc1_source/myprune.c:125-157 | tree_array holds the entries of the pruning sequence, followed by the terminator |
| Prune.Pruner.Replay | oc1_source/myprune.c:180-187 | replaying the cuts gives the selected tree of the sequence |
| Prune.Pruner.ErrorComplexityPrune | oc1_source/myprune.c:100-190 | the result is the tree selected by accuracy and size |
| Prune.SelectTree | oc1_source/myprune.c:159-177 | the selection loop picks the specified tree |
| Prune.Prune | oc1_source/myprune.c:61-77 | prune's result is the specified pruning |
| Prune.SidesWithinNode | oc1_source/myprune.c:305-349 | labelling each side by its own first maximum misclassifies no more than labelling both sides with any one category |
| Prune.CutSubtrees | oc1_source/myprune.c:420-442 | cut_subtrees never adds nodes |
| Prune.WithAlphasIsPruning | oc1_source/myprune.c:269-286 | compute_alpha changes the alpha fields and nothing else |
| Prune.ChainShapes | oc1_source/myprune.c:136-155 | every tree of the pruning sequence is a pruning of the first, and the tree at position i has at least i fewer leaves |
| Prune.ChainStep | oc1_source/myprune.c:142-144 | each tree of the sequence but the last is cut into the next, and the last cannot be cut |
| Prune.ChainLength | oc1_source/myprune.c:136-157 | the sequence has at most as many trees as the first tree has nodes |
| Prune.FirstMaxAccuracyUndefined | oc1_source/myprune.c:159-162 | with no accuracy defined, largest_element takes the first tree |
| Prune.SelectToUndefined | oc1_source/myprune.c:168-177 | when the best accuracy is undefined no tree is within range and the best stays selected |
| Prune.AccuraciesDefined | oc1_source/myprune.c:127-147 | with pruning points every tree's accuracy is defined and its recorded leaf count is its own |
| Prune.CombinedMax | oc1_source/myprune.c:340-345 | the first category of largest combined count, 1 when there are no categories |
| Prune.Misclassified | oc1_source/myprune.c:307-309 | the count of points outside the side's category |
| Prune.LargestAccuracy | oc1_source/myprune.c:162 | largest_element over the accuracies is their first maximum |
| Prune.CopyAccuracies | oc1_source/myprune.c:159-161 | the accuracies vector is a fresh copy of the accuracies of the trees evaluated |
| Prune.SelectionLoop | oc1_source/myprune.c:168-177 | the selection loop ends at the specified selection |
| Prune.Pruner.AlphaOf | oc1_source/myprune.c:278-281 | one node's alpha is (node_cost − subtree_cost)/(leaf_count − 1) |
| Prune.Pruner.FreshAlphas | oc1_source/myprune.c:233-236 | a fresh alpha_array holds every node's alpha in preorder and the tree carries them |
| Prune.Pruner.StartChain | oc1_source/myprune.c:118-128 | a fresh tree_array of leaf_count entries, more than the sequence needs, holding the tree and its evaluation first |
| Prune.Pruner.Extend | oc1_source/myprune.c:142-147 | one round of the first loop stores either the next tree of the sequence with its evaluation or the terminator, and no other entry changes |
| LoadData.DiscoveredMeaning | oc1_implementation/load_data.c:210-223 | category_array holds the distinct labels, each once, in the order they first appear |
| LoadData.DiscoveredCount | oc1_implementation/load_data.c:210-223 | no_of_categories is the number of distinct labels |
| LoadData.DiscoverCategories | oc1_implementation/load_data.c:210-223 | the loop builds the discovered labels |
| LoadData.KnownLabel | oc1_implementation/load_data.c:224-229 | a label outside 1..K is fatal with the source's message |
| LoadData.OutOfRange | oc1_implementation/load_data.c:239-245 | the remapping test is whether some discovered label lies outside 1..K |
| LoadData.RemappedMeaning | oc1_implementation/load_data.c:246-266 | the remapped category is the label's index in category_array, in range and one-to-one |
| LoadData.FinalCategoryInRange | oc1_implementation/load_data.c:239-266 | final categories lie in 1..K and are remapped only when needed |
| LoadData.RemapCategories | oc1_implementation/load_data.c:246-266 | each point's category becomes its final category and nothing else changes |
| LoadData.FilledMeaning | oc1_implementation/load_data.c:402-416 | after filling, no value is missing, known values are unchanged and missing ones get the column's mean |
| LoadData.ColumnMeanMeaning | oc1_implementation/load_data.c:405-412 | the fill value times n is the column's sum with missing entries counted as 0 |
| LoadData.FillIdempotent | oc1_implementation/load_data.c:393-420 | filling twice is filling once |
| LoadData.CompleteUnchanged | oc1_implementation/load_data.c:393-420 | a table with nothing missing is unchanged |
| LoadData.FillMissingValues | oc1_implementation/load_data.c:393-420 | the rows become the filled table |
| LoadData.ShufflePosition | oc1_implementation/load_data.c:370-372 | the position drawn lies in 1..count, below count when count > 1 |
| LoadData.ShuffledIsPermutation | oc1_implementation/load_data.c:367-375 | the shuffle is a permutation and leaves entries beyond count alone |
| LoadData.ShufflePoints | oc1_implementation/load_data.c:360-376 | the array becomes the specified shuffle, a permutation, using count draws |
| LoadData.NoteCategory | oc1_implementation/load_data.c:212-222 | the label is appended to category_array exactly when it is not already there |
| LoadData.DiscoveredCategoriesInRange | oc1_implementation/load_data.c:239-266 | a point of the training set ends with a category in 1..no_of_categories after discovery and remapping |
| LoadData.Lookup | oc1_implementation/load_data.c:259-264 | the search stops at the label's first position in category_array, and runs past the end exactly when the label is absent |
| LoadData.FilledComplete | oc1_implementation/load_data.c:402-416 | no value is missing once every attribute is filled |
| LoadData.ColumnValues | oc1_implementation/load_data.c:404-408 | temp holds attribute j with missing values as 0, and count is the number missing |
| LoadData.ReplaceMissing | oc1_implementation/load_data.c:410-416 | every missing value of attribute j becomes avg and nothing else changes, although the loop stops once count reaches 0 |
| LoadData.MissingCountAfter | oc1_implementation/load_data.c:413-415 | once the missing values seen account for them all, none follows, so the early stop skips nothing |
| LoadData.FillColumn | oc1_implementation/load_data.c:402-416 | one pass over attribute j fills its missing values with the column mean and changes nothing else |
| LoadData.SwapIsPermutation | oc1_implementation/load_data.c:370-374 | one exchange of shuffle_points only rearranges the points |
| Datasets.TrainCount | oc1_source/mktree.c:1365-1374 | 0 or count asks for every point, -1 for none, any other number for that many |
| Datasets.ReadData | oc1_source/mktree.c:1343-1406 | the four fatal errors in source order; otherwise the points are shuffled unless -1, and the sets are fresh copies with the first TrainCount for training |
| Datasets.SplitSets | oc1_source/mktree.c:1376-1398 | the copies of the first points and of the rest |
| Datasets.CopyPoints | oc1_source/mktree.c:1380-1397 | fresh distinct points with the same features, category and value |
| CrossVal.AsWrittenTiles | oc1_source/mktree.c:1174-1202 | the folds as written tile 0..n, each of size n/k except the last, of size in [n/k, 2·n/k) |
| CrossVal.AsWrittenCount | oc1_source/mktree.c:1174-1202 | the number of folds as written is n div (n/k), which can exceed k |
| CrossVal.FoldCountAsWritten | oc1_source/mktree.c:1152-1202 | for n = 10 and k = 4 the loop makes 5 folds |
| CrossVal.FoldsTile | oc1_source/mktree.c:1158-1178 | the corrected k folds tile 0..n, of size n/k except the last, of size n/k + n mod k |
| CrossVal.AsWrittenAgrees | oc1_source/mktree.c:1174-1202 | when n mod k < n/k, the folds as written are the corrected folds |
| CrossVal.FoldEndMeaning | oc1_source/mktree.c:1177-1178 | the fold end of the loop is that of the corrected fold |
| CrossVal.SplitFold | oc1_source/mktree.c:1181-1186 | test is the fold's points, train the rest in order; every val becomes 0 and features are unchanged |
| CrossVal.RunFold | oc1_source/mktree.c:1189-1193 | a tree grown on the training points and tested on the fold: its outcome is sound and its totals are the fold's tallies |
| CrossVal.RunFolds | oc1_source/mktree.c:1174-1202 | every fold is run in order, and the outcomes' totals are the folds' tallies |
| CrossVal.Summarize | oc1_source/mktree.c:1207-1222 | the summary is the fold average of leaves and depth, the summed class tallies, and 100·Σcorrect/n |
| CrossVal.SummaryMeaning | oc1_source/mktree.c:1207-1222 | when the folds' totals are the tallies of the data, the overall accuracy lies in [0, 100] |
| CrossVal.TallyAppend | oc1_source/mktree.c:1211-1216 | the tally of joined folds is the sum of their tallies |
| CrossVal.CrossValidate | oc1_source/mktree.c:1141-1237 | the folds tile the data, the summed totals are the tallies of all points, and 0 ≤ accuracy ≤ 100 |
| CrossVal.Folds | oc1_source/mktree.c:1158-1179 | the corrected fold rule makes exactly k folds |
| CrossVal.SpliceDistinct | oc1_source/mktree.c:1181-1186 | the training points of a fold, the rest of the distinct points, are distinct |
| CrossVal.TrainFold | oc1_source/mktree.c:1181-1191 | the test points are the fold's points, the rest train a tree that is grown from the empty label or the fatal no-split message, and the points keep their features |
| CrossVal.TestFold | oc1_source/mktree.c:1193 | the fold's outcome reports the tree's leaf count and depth, is sound, and counts each category's test points |
| CrossVal.OutcomeSound | oc1_source/mktree.c:1193 | every outcome estimate_accuracy reports has, per category, correct counts between 0 and the number tested |
| CrossVal.ColumnStep | oc1_source/mktree.c:1211-1216 | adding an outcome that tests the next run of points extends the summed tested counts to that run |
| CrossVal.ColumnSound | oc1_source/mktree.c:1214-1221 | each summed correct count lies between 0 and the summed count tested |
| CrossVal.AccuracyBound | oc1_source/mktree.c:1220-1222 | when the correct counts total at most n, the overall accuracy lies in [0, 100] |
| CrossVal.FoldsDoneStep | oc1_source/mktree.c:1174-1202 | one more fold, testing the points that follow, keeps the record that the folds so far tested a prefix of the points |

## Left out

- Floating point: coordinates, coefficients, impurities and accuracies are reals, with idealised equality (the alpha threshold test in cut_subtrees, ties in linear_split, and float/double conversions).
- drand48 and its seeding: draws come from `Util.Oracle`, an arbitrary sequence in [0, 1).
- The impurity measure is a parameter. The entropy arithmetic of info_gain is not modelled: `Measures.ComputeInfoGain` takes the gain as a parameter. hellinger_distance, mylog2, sdev and the standard error's sqrt are not modelled. The standard error is a parameter, which does not matter with NO_OF_STD_ERRORS = 0.
- compute_impurity's fatal consistency error is a precondition of `Counts.ComputeImpurity`, shown to hold at every call.
- Memory allocation and its failures, free and deallocate_tree, parent pointers, and the animation file (write_hyperplane) are not modelled. replicate_tree is identity on tree values. The aliasing of tree_array roots does not affect the result, since only the recorded outcomes are read before the replay.
- I/O is not modelled:
  - verbose and per-fold printing;
  - fopen/fclose;
  - main's option parsing;
  - the dt_file written by build_tree and cross_validate;
  - the character-level parsing of load_points.
  Files are token sequences (`TreeIO.Token`). Whether read_data's file opens is a parameter, and the loaded points are given as an array.
- Build.BuildSubtree: recursion is bounded by the label length. The oblique and CART loops take a `fuel` bound on cycles of the sequential and best-first orders, which the source runs while they improve.
- Oblique.CartSplit: the contract states the loop's stopping rule, that the points keep their features and that the values follow the hyperplane. The impurity of each CART cycle is not related to the starting one.
- Oblique.ObliqueSplit: the climb within a restart is stated through the impurity never increasing. The sequence of perturbations is not spelt out.
- Build.BuildTree: pruning is commented out in build_tree and is not called from it. `Prune.Prune` models prune on its own. The pruning set split is not modelled.
- TreeIO: write_hp and write_subtree print coefficients with "%f", six decimals (train_util.c:158-160, tree_util.c:437-440), so a tree read back from a file has its coefficients rounded. The model writes each coefficient as one exact token, and the round trips hold for those tokens only.
- TreeIO: labels are unbounded strings. Trees are read as values, without parent links. alpha is not written, so it reads back as 0.
- The type mismatch of order_of_improvement between train_util.c and classify_util.c is not modelled.
- LoadData: the missing marker MISSING_VALUE is the constructor `Missing`.
- LoadData.DiscoverCategories: starts from no known category, as load_points does when it reads the dimensions from the first line. With -d given and no -c, load_points skips that path and compares the first label with category_array[1], which was allocated but never set (load_data.c:68-74, 209-222). It then normally adds a spurious category. That read of uninitialised memory is not modelled.
- LoadData.FillMissingValues: oc1.h:123 and load_data.c:398 declare average as returning float, while util.c:99 defines it on a double array returning double. fill_missing_values passes it a float buffer, so the C code reads the buffer with the wrong width. The model takes the mean of the column's values, as intended.
- Util.MyRandom: oc1.h:120 declares myrandom as returning float, while util.c:84 defines it as returning double. Callers that see the declaration, such as shuffle_points at load_data.c:369, read the result with the wrong type. The model gives the value util.c computes, and LoadData.ShufflePosition uses it.
- Datasets.ReadData: freeing the loaded points is not modelled.
- CrossVal.RunFold: the outcome relates the tree's leaf count and depth, and the class tallies of the fold. The accuracy of each fold is what estimate_accuracy gives.
- CrossVal.CrossValidate: the results array is allocated for k folds. The model runs exactly k folds (see Findings), so results[i].class is not preallocated.
- Classify.EstimateAccuracy: with no points, estimate_accuracy divides by zero. The model then gives the accuracy as None.
- display.c, gendata.c and the Python wrappers are not part of this model.

## Findings

| source | as written | input that shows it | evidently intended | confidence | as-written member | corrected member |
|---|---|---|---|---|---|---|
| oc1_implementation/train_util.c:154-161 | write_hp writes the constant term and its "= 0" only when the constant is non-zero | a tree whose root hyperplane has constant 0 (`TreeIO.ExampleTree`) | always write the constant, as tree_util.c:437-440 does, so the reader finds the end of the equation | not executed | TreeIO.ZeroConstantUnreadable | TreeIO.RoundTripTrainCorrected |
| oc1_source/myprune.c:118-144 | tree_array is allocated with internal_nodes entries, but the loop stores its NULL terminator at index no_of_trees + 1 | a tree of two internal nodes: two trees plus the terminator need three entries | allocate leaf_count(root) entries | not executed | Prune.TreeArrayOverflows | Prune.TreeArrayFits |
| oc1_source/mktree.c:1152-1202 | results holds no_of_folds entries, but the fold loop keeps going while the remainder is at least fold_size | n = 10 points and k = 4 folds give 5 folds of 2 points | exactly k folds, the last taking the remainder | not executed | CrossVal.FoldCountAsWritten | CrossVal.FoldsTile |
| oc1_source/mktree.c:577-590 | the child label buffers have MAX_DT_DEPTH bytes, but the depth test allows labels of MAX_DT_DEPTH − 1 characters, whose children need MAX_DT_DEPTH + 1 bytes | a node labelled with 49 characters | buffers of MAX_DT_DEPTH + 1 bytes | not executed | Build.LabelBufferAsWritten | Build.LabelBufferCorrected |
