# A verified model of the repository's algorithms

The Dafny modules here model the parts of the repository whose correctness is not visible from one body, and prove what
their documentation and their callers rely on. `dafny verify dfyconfig.toml` checks everything.

| module | what it models |
|---|---|
| Basics | optional values, the order of texts and other small things several modules share |
| Graphs, ImportCycles | the strongly connected components search behind the import-cycle gate |
| ImpactAnalysis | inverting the import graph, the worklist over it, and the tests it selects |
| Cells, BinaryIndexedTree, RollingRank, RollingCorr | the Fenwick tree, the rolling midrank built on it, and the prefix-sum correlation |
| OrdinalRanks, FactorEval, FactorEvalLaws | ordinal ranks, row-wise Pearson and rank correlation, mean and score, and what they are in terms of pairs and numbers |
| FactorDsl, Formula, Similarity | the factor language: validation, JSON printer and parser, canonical text, abstract genes, similarity |
| Evaluator, EvaluatorRun, OperatorLaws | what a factor means row by row, the algorithms that compute it, and each operator in elementary terms |
| TopSelection, AlphaZoo | the family-capped selection, and the deduplicating store with its index and journal |
| JournalText, ZooJournal | the text of a journal: JSON strings, lines, and when a file reads back; the zoo's records as such text |
| MiningHooks | the generator's answers, what evaluating a tree needs of the panel, and what is stored of a tree |
| MctsSearch, MiningRound | the growing search tree, and one gated mining round |
| Propagation | planning and applying an incremental copy of a file tree |
| Budget, Progress, AttackLoop | the budget ladder, the ledger of solved problems, and the attack that uses both |

Code that changes state step by step is a class or a loop proved against a specification function or relation: the cycle
search, the Fenwick tree, the zoo, the search tree, the mining loop, the counters of a copy, the budget and the ledger. A
float is a real number, and NaN is the cell value `Missing`. Square roots, `log1p`, the selection bound of the tree search,
the verifiers and the text generators are parameters; where a proof needs the root to be one, `IsSqrt` says so. A digest
is a parameter too, collision-free where that is needed.

What the proofs found:

- `validate_expr` accepts an inner node that also carries a field, and such a tree does not survive
  `parse_expr(to_dict(e))`. The documented round trip holds exactly for the trees without such nodes
  (`FactorDsl.RoundTripIff`). The constructors and the parser build no others, so stored factors are not affected.
- `run_round` means to turn bad answers of the generator into rejections, but it handles only the ValueErrors of parsing.
  The round ends, and its later plans are lost, on a list or object as window (TypeError), on an infinite number as window
  (OverflowError), on a well-formed answer that names a column the panel lacks and passes the gates (a ValueError outside
  the handler), and on a panel without closing prices (KeyError). `MiningRound.RoundEscapesIff` shows that, hooks that
  raise by themselves aside, there are no other causes as long as all columns of the panel have one shape: a factor of
  another shape than the closing prices is a ValueError too (harness/alpha_mining/factor_eval.py:124-125).
  `MctsSearch.StepRaisesIff` says the same of the tree search, and `MctsSearch.StoppedSearch` is an instance.
- A copy that fails still gets its line in the saved manifest, with the time a successful copy would have had. The next run
  retries it exactly when the stale destination file differs from the source in size or time
  (`Propagation.FailedRetriedIff`); if both agree, the stale file counts as unchanged.
- The episode cap is documented as one per problem, but every attack starts a fresh budget. `AttackLoop.ProblemCost` gives
  the exact total over any series of attacks, `AttackLoop.NextIsSafeIff` the test a caller can make before the next one, and
  `AttackLoop.CapIsPerAttack` two attacks that spend twice the cap.
- Late attempts are documented to get more compute; the cap can leave the last one less than the one before.
  `Budget.GrantsGrowIff` says exactly when, and `Budget.GrantShrinks` is an instance.
- The ledger keeps first evidence within a process. Across sessions the last line about a problem wins
  (`Progress.FirstEvidenceSurvivesIff`).
- Both journals are written with `ensure_ascii=False` and read with `splitlines()`, which also ends lines at U+0085, U+2028
  and U+2029. A record with one of these in a string is accepted, but the file it is written to does not open any more
  (`Progress.SeparatorBreaksJournal`, `ZooJournal.SeparatorBreaksZoo`). Without them every file opens again with what was in
  memory, so these characters are the exact condition (`Progress.NextSession`, `ZooJournal.RunReopensIff`). The mining code
  writes none (`MiningRound.RoundReopens`, `MctsSearch.DepositsReopen`); ids and evidence come from the caller.

## Model

| member | source | states |
|---|---|---|
| ImportCycles.CheckImportCycles | scripts/check_architecture.py:284-319 | For every closed import graph the report lists exactly the strongly connected components with at least two modules, each once, and the components popped along the way are all components, pairwise disjoint, covering every module, in reverse topological order. |
| ImportCycles.ReportedTogether | scripts/check_architecture.py:307-319 | Two distinct modules appear in one reported cycle exactly when each reaches the other. |
| ImportCycles.GatePasses | scripts/check_architecture.py:314-319 | The gate reports nothing exactly when no two distinct modules import each other, directly or through others. |
| ImportCycles.NoEdgeToLaterComponent | scripts/check_architecture.py:294-315 | No import leads from a component into one popped later. |
| ImportCycles.ReportIsExact | scripts/check_architecture.py:314-315 | Dropping the one-module components from any complete reverse topological list gives exactly the cycles. |
| ImportCycles.CycleSearch.constructor | scripts/check_architecture.py:286-292 | A new search has nothing numbered, stacked, popped or reported. |
| ImportCycles.CycleSearch.StrongConnect | scripts/check_architecture.py:294-315 | The recursive call terminates on undiscovered modules, keeps the search invariant, and on return has either popped v's whole component or left v on the stack with a link below its number. |
| ImportCycles.CycleSearch.VisitSuccessor | scripts/check_architecture.py:300-305 | One turn of the loop over successors keeps the invariant of a running call, whichever of the three branches is taken. |
| ImportCycles.CycleSearch.Push | scripts/check_architecture.py:295-299 | Numbers and stacks the module, keeping the invariant; all other links are unchanged. |
| ImportCycles.CycleSearch.Finish | scripts/check_architecture.py:306-315 | The test low == idx decides between popping a component and returning a lower link; both leave the invariant. |
| ImportCycles.CycleSearch.PopComponent | scripts/check_architecture.py:307-315 | The pop loop takes exactly the modules from v's position up, and they are reported when there are two or more. |
| ImportCycles.CycleSearch.PopDownTo | scripts/check_architecture.py:307-313 | The loop itself takes off exactly the stack from v up, each module once. |
| ImportCycles.Discover | scripts/check_architecture.py:295-299 | Numbering a new module keeps the whole invariant of the search. |
| ImportCycles.TopIsComponent | scripts/check_architecture.py:306-313 | If v's link is its own number, the modules from v up on the stack are exactly v's strongly connected component. |
| ImportCycles.PopComponentStep | scripts/check_architecture.py:306-315 | Popping that component keeps the invariant. |
| ImportCycles.LeaveStep | scripts/check_architecture.py:306 | A call that leaves v on the stack with a lower link keeps the invariant: the link leads to an older open module. |
| ImportCycles.RunKnown | scripts/check_architecture.py:304-305 | Looking at a successor already numbered, on the stack or not, keeps what the loop has established. |
| ImportCycles.RunReturn | scripts/check_architecture.py:301-303 | Folding in the link of a successor just explored keeps what the loop has established, whether or not that call popped. |
| ImportCycles.ReturnPopped | scripts/check_architecture.py:306-315 | A call whose link is its own number returns with its component popped. |
| ImportCycles.ReturnLinked | scripts/check_architecture.py:306 | A call whose link is lower returns with v on the stack and a link to an older open module. |
| ImportCycles.SearchDone | scripts/check_architecture.py:316-319 | When no call is running, everything numbered has been popped. |
| ImpactAnalysis.ReverseDependencies | scripts/tdad_select.py:219-232 | The inverted graph has an edge from b to a exactly when a imports b, and no empty entries. |
| ImpactAnalysis.TransitiveDependents | scripts/tdad_select.py:235-253 | The worklist ends, although it may hold duplicates, with exactly the modules reached by one edge or more, cycles included. |
| ImpactAnalysis.ReverseReaches | scripts/tdad_select.py:219-253 | Reachability in the inverted graph is reachability in the import graph, turned round. |
| ImpactAnalysis.PathReversed | scripts/tdad_select.py:219-232 | A path of imports read backwards is a path of the inverted graph. |
| ImpactAnalysis.TestsOf | scripts/tdad_select.py:301-316 | For one file: the existing tests test_s.py in the tests directory where s is its own name or what follows the last dot of a module importing it, directly or not; a test file selects itself; other files select nothing. |
| ImpactAnalysis.SelectTests | scripts/tdad_select.py:279-317 | The result is sorted, without duplicates, and exactly the tests of the modified files; the warnings are exactly the files that select none, one each time such a file is listed, in the order of the list. |
| ImpactAnalysis.SortedPathsUnique | scripts/tdad_select.py:317 | A set of paths has exactly one sorted list. |
| ImpactAnalysis.SelectionIsDetermined | scripts/tdad_select.py:279-317 | So tests and warnings are determined by the files, the graph and the existing tests, whatever order the sets are iterated in. |
| ImpactAnalysis.DependentSelected | scripts/tdad_select.py:308-314 | If a module named s, or ending in .s, imports a modified file's module, directly or not, its existing test test_s.py is selected. |
| ImpactAnalysis.NameEndsIn | scripts/tdad_select.py:311 | The last segment has no dot and is the whole name or follows a dot in it. |
| ImpactAnalysis.EndsInUnique | scripts/tdad_select.py:311 | No other text does. |
| Basics.TextAtMostIff | harness/alpha_mining/alpha_zoo.py:199 | Texts are ordered as in a dictionary: one begins the other, or has the smaller character where they first differ. |
| BinaryIndexedTree.LowBitDivides | harness/alpha_mining/rolling_rank.py:46 | The low bit is the power of two that leaves an odd number when divided out. |
| BinaryIndexedTree.NextCovering | harness/alpha_mining/rolling_rank.py:42-46 | Stepping by the low bit goes from one node covering a position to the next one covering it, skipping none. |
| BinaryIndexedTree.Fenwick.constructor | harness/alpha_mining/rolling_rank.py:38-40 | A new tree holds zero everywhere. |
| BinaryIndexedTree.Fenwick.Add | harness/alpha_mining/rolling_rank.py:42-46 | Adds delta to one position of the abstract contents; outside 1..size nothing changes. |
| BinaryIndexedTree.Fenwick.Prefix | harness/alpha_mining/rolling_rank.py:48-54 | Returns the sum of the contents at positions 1..index. |
| BinaryIndexedTree.PrefixOfRun | harness/alpha_mining/rolling_rank.py:29-54 | After any run of additions a prefix sum is the total of the deltas added at or below the position. |
| RollingRank.RankOf | harness/alpha_mining/rolling_rank.py:63-66 | Compression maps the sorted distinct values to 1..n in order. |
| RollingRank.RankMonotone | harness/alpha_mining/rolling_rank.py:63-66 | Compressed ranks are ordered as the values are. |
| RollingRank.PrefixesCount | harness/alpha_mining/rolling_rank.py:80-82 | Two prefix queries give the number of window cells below the current value and equal to it. |
| RollingRank.Enter | harness/alpha_mining/rolling_rank.py:70-73 | The row entering is counted in the tree; a missing cell is not. |
| RollingRank.Leave | harness/alpha_mining/rolling_rank.py:74-77 | The row leaving is taken out of the tree; a missing cell is not. |
| RollingRank.Slide | harness/alpha_mining/rolling_rank.py:70-77 | After both, the tree holds exactly the window ending at t and the counter its finite cells. |
| RollingRank.CurrentRank | harness/alpha_mining/rolling_rank.py:80-83 | The two queries and the formula give the midrank of the current row in its window, ties counted half. |
| RollingRank.RankColumn | harness/alpha_mining/rolling_rank.py:57-84 | Row by row the incremental algorithm gives: missing unless the window is complete, the row finite and another row in it finite; otherwise a rank that, twice over and times the number of other finite rows, is the rows strictly below and the other rows at or below, counted as sets of rows. |
| RollingRank.RankAtRows | harness/alpha_mining/rolling_rank.py:83 | The midrank formula means just that, ties included. |
| RollingRank.MidRankInUnitInterval | harness/alpha_mining/rolling_rank.py:83 | The midrank lies in [0, 1]. |
| RollingRank.MidRankOfMaximum | harness/alpha_mining/rolling_rank.py:83 | A strict maximum of the window ranks 1. |
| RollingRank.MidRankOfMinimum | harness/alpha_mining/rolling_rank.py:83 | A strict minimum ranks 0. |
| RollingCorr.CauchySchwarz | harness/alpha_mining/rolling_rank.py:160-163 | The scaled variances are never negative, so clamping them changes nothing, and the squared covariance is at most their product. |
| RollingCorr.CorrBounded | harness/alpha_mining/rolling_rank.py:163-166 | Every defined correlation lies in [-1, 1]. |
| RollingCorr.EndsAreMoments | harness/alpha_mining/rolling_rank.py:118-142 | Entry k of the prefix sums is the six sums over the complete pairs of the first k rows. |
| RollingCorr.MomentsDifference | harness/alpha_mining/rolling_rank.py:154-159 | The difference of two entries is the six sums over the rows between them. |
| RollingCorr.PrefixCorrIsWindowed | harness/alpha_mining/rolling_rank.py:145-167 | Each row of the column is the correlation of that row's own window, correctly aligned; earlier rows are missing. |
| RollingCorr.CorrIsPearson | harness/alpha_mining/rolling_rank.py:160-166 | The scaled-sums formula is Pearson's definition over the complete pairs: centred products over the root of the centred squares, undefined in the same cases. |
| RollingCorr.CorrObeys | harness/alpha_mining/rolling_rank.py:160-166 | Missing below two complete pairs or without spread; otherwise the root of the product of the squared deviations from the two means times the coefficient is the sum of the products of the deviations, each a sum over the pairs. |
| OrdinalRanks.ArgSort | harness/alpha_mining/factor_eval.py:253 | A stable argsort: every position once, ordered by value and then position. |
| OrdinalRanks.PlaceIsRank | harness/alpha_mining/factor_eval.py:253-255 | The i-th position of a stable order has exactly i positions before it. |
| OrdinalRanks.Ranks | harness/alpha_mining/factor_eval.py:251-256 | Scattering 0..n-1 along the order gives each position the number of positions before it. |
| OrdinalRanks.RanksArePermutation | harness/alpha_mining/factor_eval.py:251-256 | The ranks are 0..n-1 in some order, whatever the values. |
| OrdinalRanks.RanksAscend | harness/alpha_mining/factor_eval.py:251-256 | The smaller value, or the earlier of two equal ones, has the smaller rank. |
| FactorEval.RankSpread | harness/alpha_mining/factor_eval.py:259-262 | The centred sum of squares of n ordinal ranks is n(n*n - 1)/12. |
| FactorEval.SpearmanDefinedIff | harness/alpha_mining/factor_eval.py:238-262 | A row has a rank correlation exactly when it has at least three complete pairs. |
| FactorEval.PearsonImpliesSpearman | harness/alpha_mining/factor_eval.py:230-234 | A row with a defined Pearson coefficient has a defined rank coefficient. |
| FactorEval.RowPearsonBounded | harness/alpha_mining/factor_eval.py:238-248 | A defined coefficient is Pearson's correlation of the complete pairs and lies in [-1, 1]. |
| FactorEval.RowCorrelations | harness/alpha_mining/factor_eval.py:224-235 | Both lists have one entry for each row with a defined Pearson coefficient, in [-1, 1]; no other row appears and neither list ever holds an undefined value. |
| FactorEval.MeanBounded | harness/alpha_mining/factor_eval.py:132-133 | The reported mean, zero for no rows, lies in [-1, 1]. |
| FactorEval.ScoreInUnit | harness/alpha_mining/factor_eval.py:279-287 | A p-value in [0, 1] gives a rounded score in [0, 1], and 1 exactly when the weighted sum is at least half a millionth below 1. |
| FactorEvalLaws.PearsonIs | harness/alpha_mining/factor_eval.py:238-248 | A row's information coefficient in terms of its complete pairs: missing below three of them or with a root below 1e-12, otherwise that root times it is the sum of the products of the deviations. |
| FactorEvalLaws.SpearmanIs | harness/alpha_mining/factor_eval.py:259-262 | A row's rank coefficient is Spearman's formula: one less six times the squared differences of places over n (n n - 1), a pair's place being the number of complete pairs that sort before it. |
| FactorEvalLaws.MeanIs | harness/alpha_mining/factor_eval.py:132-133 | The reported mean is the number from which the values deviate by none together, zero for no values. |
| FactorEvalLaws.RawScoreIs | harness/alpha_mining/factor_eval.py:279-287 | Half the score is the coefficient's magnitude, full from a tenth on, and half how far the p-value is from one. |
| FactorEvalLaws.ScoreIs | harness/alpha_mining/factor_eval.py:287 | The score is the nearest multiple of a millionth, the even one of two. |
| FactorDsl.NodeLimit | harness/alpha_mining/factor_dsl.py:179-219 | Checking the node limit at every level is checking it at the root; a bare leaf is never measured. |
| FactorDsl.NodeRules | harness/alpha_mining/factor_dsl.py:179-219 | What a node must be: arity, window from 2 to 250 for the rolling operators and none for others, a field for a leaf. |
| FactorDsl.RollingNames | harness/alpha_mining/factor_dsl.py:61-80 | The registered names of the rolling operators. |
| FactorDsl.RowNames | harness/alpha_mining/factor_dsl.py:61-80 | The registered names of the other operators. |
| FactorDsl.FieldNames | harness/alpha_mining/factor_dsl.py:50-58 | The registered names of the fields. |
| FactorDsl.NumbersRead | harness/alpha_mining/factor_dsl.py:304 | A window with a fraction is cut towards zero; a truth value is one or zero. |
| FactorDsl.ParseSound | harness/alpha_mining/factor_dsl.py:259-304 | Whatever the parser accepts passes validation and has no field on an inner node. |
| FactorDsl.ParsePrinted | harness/alpha_mining/factor_dsl.py:239-304 | Printing and parsing a valid tree gives it back without the fields its inner nodes may carry. |
| FactorDsl.RoundTripIff | harness/alpha_mining/factor_dsl.py:265-267 | The documented round trip holds for a valid tree exactly when no inner node carries a field. |
| FactorDsl.RoundTripFails | harness/alpha_mining/factor_dsl.py:189-215 | A tree validation accepts that does not survive the round trip. |
| FactorDsl.ParsesIff | harness/alpha_mining/factor_dsl.py:259-304 | The parser accepts exactly the values with known names, the right number of children, and windows within bounds exactly where they belong, at every level. |
| FactorDsl.EscapesIff | harness/alpha_mining/factor_dsl.py:259-304 | The parser raises something other than ValueError on exactly the values whose first child in reading order that is not well-formed, or else the node itself, has a known operator and, below well-formed children, an unreadable window: TypeError for a list or object, OverflowError for an infinity. |
| FactorDsl.OnlyValueErrors | harness/alpha_mining/factor_dsl.py:303-304 | If no window is a list, an object or infinite, nothing but ValueError is raised. |
| FactorDsl.ListWindowRaisesTypeError | harness/alpha_mining/factor_dsl.py:303-304 | A list as window raises TypeError. |
| FactorDsl.InfiniteWindowRaisesOverflowError | harness/alpha_mining/factor_dsl.py:303-304 | An infinite number as window raises OverflowError. |
| Formula.UniqueReading | harness/alpha_mining/factor_dsl.py:231-236 | Formula text is prefix-free: followed by a delimiter it can be read in one way only. |
| Formula.DigitsInjective | harness/alpha_mining/factor_dsl.py:234-235 | Different numbers have different decimal texts. |
| Formula.DigitsStandFor | harness/alpha_mining/factor_dsl.py:234-235 | Digits are the decimal text: they stand for the number, without leading zeros. |
| Formula.FormulaReads | harness/alpha_mining/factor_dsl.py:222-236 | A formula is the operator's name and, in brackets, its arguments in their order and the window. |
| Formula.GeneReads | harness/alpha_mining/factor_dsl.py:341-359 | A gene is the same with t for every window. |
| Formula.FormulaIsRender | harness/alpha_mining/factor_dsl.py:222-236 | The canonical formula of a tree is the rendering of its term. |
| Formula.GeneIsRender | harness/alpha_mining/factor_dsl.py:341-359 | The abstract gene is the rendering of the term with every window replaced by t. |
| Formula.FormulaInjective | harness/alpha_mining/factor_dsl.py:222-236 | Two valid trees have the same formula exactly when they are the same tree, so deduplication by text is deduplication by tree. |
| Formula.GeneInjective | harness/alpha_mining/factor_dsl.py:341-359 | Two valid trees have the same gene exactly when they are equal up to window values. |
| Similarity.SubtreeGenes | harness/alpha_mining/factor_dsl.py:424-432 | The stack loop collects exactly the genes of all subtrees, as many as the tree has nodes. |
| Similarity.GeneOfSubtree | harness/alpha_mining/factor_dsl.py:424-432 | A gene is collected exactly when some subtree has it. |
| Similarity.GeneCount | harness/alpha_mining/factor_dsl.py:166-176 | The multiset of genes has as many elements as the tree has nodes. |
| Similarity.ViolatesFsa | harness/alpha_mining/factor_dsl.py:400-421 | The stack loop answers true exactly when some subtree's gene is forbidden. |
| Similarity.UnionIsMax | harness/alpha_mining/factor_dsl.py:377-379 | The multiset union used for the denominator takes the larger multiplicity of each gene. |
| Similarity.SubtreeSimilarity | harness/alpha_mining/factor_dsl.py:362-382 | Computes the weighted Jaccard index of the two gene multisets. |
| Similarity.SameGenesSameTree | harness/alpha_mining/factor_dsl.py:362-382 | Two valid trees have equal gene multisets exactly when they are equal up to window values. |
| Similarity.SimilarityLaws | harness/alpha_mining/factor_dsl.py:362-382 | Similarity is symmetric, lies in [0, 1], and is 1 exactly for trees equal up to window values. |
| Similarity.SimilarityIs | harness/alpha_mining/factor_dsl.py:362-382 | The similarity is the share that the genes in common, each as often as the tree with fewer, have of all genes, each as often as the tree with more. |
| Evaluator.Locality | harness/alpha_mining/factor_dsl.py:307-338 | A row of any valid factor depends only on the rows its look-back covers, not on where they lie in the panel. |
| Evaluator.NoLookAhead | harness/alpha_mining/factor_dsl.py:307-338 | Evaluating the first n rows gives the first n rows of the full evaluation, although rolling ranks compress over the whole series. |
| Evaluator.BoundedLookBack | harness/alpha_mining/factor_dsl.py:307-338 | Dropping the first rows changes nothing once the look-back computed from the windows is warmed up. |
| Evaluator.FieldsPresentIff | harness/alpha_mining/factor_dsl.py:326-335 | A leaf whose column the panel lacks is exactly what evaluation can miss. |
| OperatorLaws.ValueObeys | harness/alpha_mining/factor_dsl.py:435-530 | Every cell of a factor is what its operator makes of the cells of its arguments, operator by operator in elementary terms; a leaf is its column. |
| OperatorLaws.ReductionCell | harness/alpha_mining/factor_dsl.py:493-523 | Rolling mean, deviation, maximum, minimum and z-score: missing until the window is complete and finite; then the maximum is one of the cells and none is larger, the deviations from the mean sum to zero, the deviation is the root of the mean squared deviation, the z-score the distance from the mean in deviations. |
| OperatorLaws.DeltaOpCell | harness/alpha_mining/factor_dsl.py:509-514 | The change over the window's rows, missing if either end is. |
| OperatorLaws.CrossRankCell | harness/alpha_mining/factor_dsl.py:477-490 | The share of the other finite cells of the row that are smaller, or equal and further left. |
| OperatorLaws.TimeRankCell | harness/alpha_mining/factor_dsl.py:439-440 | The midrank of the column, in terms of its rows. |
| OperatorLaws.ScaleOpCell | harness/alpha_mining/factor_dsl.py:526-530 | The share of the row's total magnitude; missing if a cell is or if that is all but zero. |
| OperatorLaws.UnaryOpCell | harness/alpha_mining/factor_dsl.py:455-460 | Sign times magnitude is the cell, the absolute value is the cell or its negative and not negative, the logarithm keeps the sign. |
| OperatorLaws.BinaryOpCell | harness/alpha_mining/factor_dsl.py:461-468 | Sum, difference, product and quotient of the two cells; a zero divisor leaves a missing cell. |
| OperatorLaws.TsCorrObeys | harness/alpha_mining/factor_dsl.py:469-470 | The correlation of the complete pairs of the two windows. |
| EvaluatorRun.CsRankRow | harness/alpha_mining/factor_dsl.py:479-490 | The argsort-based row rank is, cell by cell, the share of the other finite cells that sort before it. |
| EvaluatorRun.TsRankPanel | harness/alpha_mining/factor_dsl.py:439-440 | The column-by-column rolling rank computes the windowed operator, small windows and short panels included. |
| EvaluatorRun.TsCorrPanel | harness/alpha_mining/rolling_rank.py:105-115 | Panels of different shapes are an error; otherwise the prefix-sum algorithm computes the windowed operator. |
| EvaluatorRun.Rolling | harness/alpha_mining/factor_dsl.py:493-506 | The reduction over all complete windows, written from row window - 1 on when the panel is long enough, computes the windowed mean, deviation, maximum and minimum. |
| EvaluatorRun.DeltaPanel | harness/alpha_mining/factor_dsl.py:509-514 | The difference of the two shifted slices, when the panel is long enough, is each row minus the row `window` before it. |
| EvaluatorRun.ZScorePanel | harness/alpha_mining/factor_dsl.py:517-523 | Combining the rolling mean and deviation cell by cell, with missing comparing as false, gives the windowed z-score. |
| EvaluatorRun.ScalePanel | harness/alpha_mining/factor_dsl.py:526-530 | Row totals first and a guarded division then divide each cell by its row's sum of magnitudes, and by nothing when that is close to zero. |
| EvaluatorRun.MappedIs | harness/alpha_mining/factor_dsl.py:455-460 | The elementwise operators of one panel compute their row-by-row meaning. |
| EvaluatorRun.CombinedIs | harness/alpha_mining/factor_dsl.py:461-468 | So do those of two panels, division by zero being missing. |
| EvaluatorRun.RunOp | harness/alpha_mining/factor_dsl.py:435-474 | The dispatch over these algorithms computes every operator's row-by-row meaning and none fails on arguments of one shape. |
| EvaluatorRun.Evaluate | harness/alpha_mining/factor_dsl.py:307-338 | On a market of one shape evaluation is total: it yields the specified panel of that shape, or the missing-field error exactly when a leaf's field is absent. |
| TopSelection.TopK | harness/alpha_mining/alpha_zoo.py:188-210 | The loop with family counters computes the greedy selection over the entries sorted by (-score, formula), or the slice when no cap is given. |
| TopSelection.PicksMaximal | harness/alpha_mining/alpha_zoo.py:202-210 | On every prefix of the order the greedy picks are as many as any feasible selection from it. |
| TopSelection.Dominated | harness/alpha_mining/alpha_zoo.py:199-210 | The i-th best entry of any feasible selection scores no more than the i-th greedy pick. |
| TopSelection.GreedyOptimal | harness/alpha_mining/alpha_zoo.py:188-210 | No selection of at most k entries with at most the cap per family has a larger total score or more entries. |
| TopSelection.GreedyFeasible | harness/alpha_mining/alpha_zoo.py:195-210 | For k and cap not negative the selection keeps both limits and is sorted by (-score, formula). |
| TopSelection.UncappedIsSlice | harness/alpha_mining/alpha_zoo.py:200-201 | Without a cap the result is the capped selection with a cap nothing can reach. |
| TopSelection.SliceIs | harness/alpha_mining/alpha_zoo.py:200-201 | The slice is the beginning of the list: at most k entries, or all but the last -k. |
| TopSelection.SortedUnique | harness/alpha_mining/alpha_zoo.py:199 | Entries with distinct formulas can be sorted by (-score, formula) in one way only. |
| TopSelection.OrderDoesNotMatter | harness/alpha_mining/alpha_zoo.py:188-210 | Of such entries the selection is the same in whatever order they were added. |
| AlphaZoo.AddedSound | harness/alpha_mining/alpha_zoo.py:165-186 | Adding keeps the entries pairwise original and the records of the journal replaying to memory. |
| AlphaZoo.RunSound | harness/alpha_mining/alpha_zoo.py:112-265 | After any sequence of additions and failures the records of the journal replay to the same entries and counts, all formulas differ and all pairs are below the threshold; what the file gives back of the records is said by ZooJournal. |
| AlphaZoo.TopKOrderless | harness/alpha_mining/alpha_zoo.py:188-210 | The best of a zoo that is sound in this sense do not depend on the order in which its entries came in. |
| AlphaZoo.AlikeIsCrowded | harness/alpha_mining/alpha_zoo.py:157-163 | An entry is crowded out exactly when a stored formula equals its own or a stored tree is at least as similar as the threshold. |
| AlphaZoo.FailuresCounted | harness/alpha_mining/alpha_zoo.py:219-248 | Every mode is counted once for each failure record that names it. |
| AlphaZoo.Zoo.constructor | harness/alpha_mining/alpha_zoo.py:119-135 | Loading folds the records of any journal one by one and rebuilds the formula index; if the stored trees parse to their formulas the zoo is valid. |
| AlphaZoo.Zoo.IsSimilar | harness/alpha_mining/alpha_zoo.py:142-163 | True exactly when an entry has the candidate's formula or a similarity at or over the threshold; the index is exact. |
| AlphaZoo.Zoo.Add | harness/alpha_mining/alpha_zoo.py:165-186 | Stores, indexes and journals the entry exactly when no stored formula equals its own and no stored tree is as similar as the threshold; otherwise nothing changes. |
| AlphaZoo.Zoo.RecordFailure | harness/alpha_mining/alpha_zoo.py:212-220 | Counts the mode and appends one journal line; entries and index stay. |
| JournalText.SplitAppend | harness/complex_problems/progress.py:92 | What is appended to complete lines is split into lines apart from them. |
| JournalText.EscapeOneLine | harness/complex_problems/progress.py:67-69 | Escaped without ASCII, a string has a character that ends a line exactly when it holds U+0085, U+2028 or U+2029. |
| JournalText.CutStaysInside | harness/complex_problems/progress.py:67-69 | The text of a string that holds one of them, cut at its first, does not close the string. |
| JournalText.TextScan | harness/complex_problems/progress.py:67-69 | A printed record closes its strings; it is one line exactly when no string in it holds a separator, and otherwise its first line ends inside a string. |
| JournalText.SplitsIff | harness/alpha_mining/alpha_zoo.py:230-265 | Records appended to complete lines come back as lines exactly when no string in them holds a separator, and otherwise some line ends inside a string. |
| JournalText.ReadsBackIff | harness/alpha_mining/alpha_zoo.py:226-265 | For any reader that knows the records and refuses a text that ends inside a string: it can read the file again, to the old lines and these records, exactly under that condition. |
| JournalText.ReadEscaped | harness/complex_problems/progress.py:67-69 | Reading a string takes back exactly what escaping wrote. |
| JournalText.ReadStringCloses | harness/complex_problems/progress.py:101-102 | A string that can be read is closed where reading ends. |
| ZooJournal.RecordShape | harness/alpha_mining/alpha_zoo.py:261-277 | The printed object of a record is well-formed, and one line exactly when mode, formula and the strings of the tree hold no separator. |
| ZooJournal.ReloadsIff | harness/alpha_mining/alpha_zoo.py:226-265 | Records written behind a journal that loads: the file loads to the old records and these if none holds a separator, and raises otherwise. |
| ZooJournal.RunReopensIff | harness/alpha_mining/alpha_zoo.py:112-265 | A zoo opened from a file and used in any way: the file opens again, with what is in memory, exactly when no record added holds a separator; otherwise opening it raises. Additions and failures whose strings hold none write no such record. |
| ZooJournal.SeparatorBreaksZoo | harness/alpha_mining/alpha_zoo.py:212-243 | One failure whose mode holds U+2028, and the journal does not open any more. |
| ZooJournal.KnowingIsFaithful | harness/alpha_mining/alpha_zoo.py:226-259 | What these results ask of the decoder can be had, for any records of which no two print alike. |
| ZooJournal.OpenZoo | harness/alpha_mining/alpha_zoo.py:119-135 | Opening raises exactly when the file has a line that is neither blank nor a record; otherwise the zoo is the replay of the records. |
| ZooJournal.EntryClean | harness/alpha_mining/mining_loop.py:398-405 | The entry the mining code stores for a tree holds no separator: formula and tree are ASCII. |
| MctsSearch.SearchTree.UctSelect | harness/alpha_mining/mining_loop.py:486-500 | Returns the first child without a visit, else the first whose bound, made of its value, its visits and the node's own, no other child's exceeds, else the node itself. |
| MctsSearch.SearchTree.AllVisited | harness/alpha_mining/mining_loop.py:492-493 | Every node but the root has been visited, so the unvisited-child branch is never taken. |
| MctsSearch.BestIsChosen | harness/alpha_mining/mining_loop.py:497-499 | The first bound that no other exceeds is the one chosen. |
| MctsSearch.SearchTree.Descend | harness/alpha_mining/mining_loop.py:332-334 | Selection terminates at the first node on the way that has room for a child. |
| MctsSearch.SearchTree.AddLeaf | harness/alpha_mining/mining_loop.py:335-337 | The new node is its parent's last child and nobody else's. |
| MctsSearch.SearchTree.Backprop | harness/alpha_mining/mining_loop.py:503-509 | Exactly the ancestors of the node, itself included, gain one visit and its score. |
| MctsSearch.TallyLeaf | harness/alpha_mining/mining_loop.py:503-509 | After adding and back-propagating a leaf every node's visits and value are again its subtree's size and score sum, the root's leaving the root itself out. |
| MctsSearch.SearchTree.EvaluateInto | harness/alpha_mining/mining_loop.py:432-451 | Evaluates a tree and deposits it in the zoo if accepted; a missing column raises and changes nothing. |
| MctsSearch.SearchTree.Iterate | harness/alpha_mining/mining_loop.py:331-338 | One iteration adds one node below the selected one, keeps the tallies and the bound of max(1, branching) children, and deposits; an exception leaves tree and zoo as they were. |
| MctsSearch.StepRaisesIff | harness/alpha_mining/mining_loop.py:453-468 | An iteration raises exactly when the generator or the parser raises something other than ValueError, or the answer is well-formed and names a column the panel lacks. |
| MctsSearch.StepMakes | harness/alpha_mining/mining_loop.py:453-468 | A new node holds the tree parsed from the answer, or its parent's tree when the answer is a ValueError. |
| MctsSearch.BuiltScores | harness/alpha_mining/mining_loop.py:438 | A node scores what its evaluation scores if it accepts, and zero otherwise. |
| MctsSearch.ListWindowStops | harness/alpha_mining/mining_loop.py:453-468 | An answer with a list as window makes an iteration raise TypeError. |
| MctsSearch.StoppedSearch | harness/alpha_mining/mining_loop.py:312-345 | A search whose first answer is such a one ends with that TypeError, the seed its only node and, if accepted, its only deposit. |
| MctsSearch.DepositsSound | harness/alpha_mining/mining_loop.py:441-451 | The deposits of a search keep the zoo pairwise original and its records replaying to memory. |
| MctsSearch.DepositsReopen | harness/alpha_mining/mining_loop.py:441-451 | They never keep the zoo's file from opening again, with what is in memory. |
| MctsSearch.PreorderCovers | harness/alpha_mining/mining_loop.py:512-521 | The depth-first order visits every node below its start. |
| MctsSearch.PreorderIs | harness/alpha_mining/mining_loop.py:512-521 | The order is a node and then the orders of its children, oldest child first. |
| MctsSearch.SearchTree.BestNode | harness/alpha_mining/mining_loop.py:512-521 | The explicit-stack search returns the first node of the largest score in preorder. |
| MctsSearch.BestOfAll | harness/alpha_mining/mining_loop.py:512-521 | That score is the largest in the whole tree. |
| MctsSearch.SearchMcts | harness/alpha_mining/mining_loop.py:312-345 | When every iteration succeeds there are i + 1 nodes with exact tallies, each made from its parent's tree, the result is the first best node and the formulas that passed, and the zoo holds their deposits in order; otherwise the search ends with the exception of the first iteration that raises, and all of this holds of the tree so far. |
| MiningHooks.EntryConsistent | harness/alpha_mining/mining_loop.py:398-405 | The entry stored for a valid tree is consistent and parses back to that tree, less the fields of its inner nodes. |
| MiningHooks.ParsedFields | harness/alpha_mining/factor_dsl.py:280-304 | The tree parsed from a value reads exactly the columns the value names. |
| MiningHooks.LacksColumnIff | harness/alpha_mining/mining_loop.py:394 | Evaluating the parsed tree raises exactly when the value names a column the panel lacks or the panel has no closing prices. |
| MiningHooks.ReplyEscapesIff | harness/alpha_mining/mining_loop.py:385-388 | Which answers of the generator raise something other than ValueError, stated on the answer. |
| MiningHooks.FamilyIs | harness/alpha_mining/alpha_zoo.py:95-109 | The family of a tree, told by the operators and fields of its nodes, first rule first. |
| MiningRound.ProcessConserves | harness/alpha_mining/mining_loop.py:377-409 | One plan adds one entry and no failure, or one failure and no entry, or, when generation failed or an exception escapes, neither. |
| MiningRound.RoundConserves | harness/alpha_mining/mining_loop.py:287-310 | Accepted and rejected plans add up to all plans exactly when no exception ends the round; the zoo grows by exactly the accepted entries, and each rejection with a formula records exactly one failure. |
| MiningRound.RoundAdmits | harness/alpha_mining/mining_loop.py:390-409 | Every accepted entry was made for one of the plans; if there is an alignment hook it scores the plan's hypothesis and the formula at one half or more; the tree meets the node limit, contains no forbidden motif and passed evaluation; and the entry holds its formula, tree, family, score, rank coefficient and round. |
| MiningRound.ProcessDecides | harness/alpha_mining/mining_loop.py:377-424 | What becomes of each plan, with no gate or constant by name: the first of too many nodes, a forbidden gene, an equal formula or similar tree, an alignment below one half rejects it as such; then a missing column raises, bad metrics reject, and all others are accepted and stored. |
| MiningRound.RoundTallied | harness/alpha_mining/mining_loop.py:411-440 | The zoo's count of each failure mode grows by exactly the rejections of that kind. |
| MiningRound.RoundSound | harness/alpha_mining/mining_loop.py:287-310 | A round keeps the zoo pairwise original and its records replaying to memory. |
| MiningRound.RoundReopens | harness/alpha_mining/mining_loop.py:287-310 | Whatever a round writes, the zoo's file opens again, with what the round has left in memory: failure modes, formulas and trees of the mining code hold no separator. |
| MiningRound.RoundFeedback | harness/alpha_mining/mining_loop.py:426-430 | The feedback is always the last six reasons, those of earlier rounds before those of this one. |
| MiningRound.ProcessEscapesIff | harness/alpha_mining/mining_loop.py:385-394 | An exception leaves a plan exactly when its answer raises in the parser something other than ValueError, or is well-formed, passes the gates and names a column the panel lacks. |
| MiningRound.RoundEscapesIff | harness/alpha_mining/mining_loop.py:302-309 | An exception leaves the round exactly when some plan gets such an answer. |
| MiningRound.NothingEscapes | harness/alpha_mining/mining_loop.py:302-309 | If every answer has plain windows and names only columns of a panel with closing prices, none does. |
| MiningRound.ListWindowEscapes | harness/alpha_mining/mining_loop.py:385-388 | A list as window ends the round with TypeError. |
| MiningRound.InfiniteWindowEscapes | harness/alpha_mining/mining_loop.py:385-388 | An infinite window ends it with OverflowError. |
| MiningRound.AbsentColumnEscapes | harness/alpha_mining/mining_loop.py:394 | A well-formed answer naming a column the panel lacks ends it with the ValueError of evaluation. |
| MiningRound.NoClosingPricesEscape | harness/alpha_mining/factor_eval.py:100 | A panel without closing prices ends it with KeyError. |
| MiningRound.MiningLoop.Gate | harness/alpha_mining/mining_loop.py:411-424 | The checks in their order: node limit, motifs, originality, alignment. |
| MiningRound.MiningLoop.Process | harness/alpha_mining/mining_loop.py:377-409 | Computes the specified step; the rejection after `add` is unreachable. |
| MiningRound.MiningLoop.RunRound | harness/alpha_mining/mining_loop.py:287-310 | Computes the specified round, feedback included. |
| Propagation.Plan | scripts/propagation.py:162-208 | One action and one manifest line per file in scope, each writing exactly when neither the fast path nor the content comparison matches. |
| Propagation.CopyPending | scripts/propagation.py:229-249 | Whatever order the copies finish in and whichever fail, destination and counters describe exactly the copies that succeeded. |
| Propagation.Apply | scripts/propagation.py:229-249 | The counters report those copies, and scanned is unchanged plus copied plus updated plus failed. |
| Propagation.SyncTree | scripts/propagation.py:260-295 | A missing source or a dry run changes nothing, and a dry run's copied is the number of writes a real run attempts; otherwise the destination changes by exactly the copies that succeeded and the planned manifest is saved. |
| Propagation.SkippedEqual | scripts/propagation.py:177-188 | With honest stamps, a collision-free digest and a sound manifest, a file the plan leaves alone already has the source's content. |
| Propagation.Converges | scripts/propagation.py:260-295 | With no failed write every file in scope ends equal and every other destination file is untouched. |
| Propagation.ManifestStaysSound | scripts/propagation.py:189-194 | The manifest a run saves is sound again, whichever copies failed. |
| Propagation.ManifestDescribesSource | scripts/propagation.py:162-208 | The manifest has a line for every source file in scope and no other, with the digest, size and time of that file, whether taken over or computed. |
| Propagation.RunsKeepManifestSound | scripts/propagation.py:162-208 | So it is after any number of runs between any honest trees. |
| Propagation.ConsecutiveRunsSound | scripts/propagation.py:260-295 | After consecutive runs, each on what the one before left, stamps, manifest and digests are still sound, whatever failed and however the source changed. |
| Propagation.RunsConverge | scripts/propagation.py:260-295 | After any such history one run without a failure makes every file in scope equal and touches nothing else. |
| Propagation.SecondRunIdle | scripts/propagation.py:177-187 | A second run over unchanged trees takes the fast path for every file, writes nothing and saves the same manifest. |
| Propagation.SecondRunWithoutManifest | scripts/propagation.py:211-215 | Without a manifest the second run writes nothing either. |
| Propagation.FailedRetriedIff | scripts/propagation.py:189-194 | A failed write is tried again by the next run exactly when the stale destination file's size or time differs from the source's. |
| Propagation.FailedAlwaysRetried | scripts/propagation.py:189-194 | With honest stamps it always is. |
| Propagation.FailedWriteForgotten | scripts/propagation.py:189-194 | A concrete pair of files where it is not: the next run reports the stale file as unchanged. |
| Budget.CheckLadder | harness/complex_problems/budget.py:29-47 | Comparing neighbours accepts exactly the non-empty ladders of positive rungs that never go down. |
| Budget.GrantPositiveIff | harness/complex_problems/budget.py:102-108 | An attempt is granted an episode exactly when the rungs before it have not used up the cap. |
| Budget.GrantsGrowIff | harness/complex_problems/budget.py:25-56 | A later attempt gets at least as much as the one before exactly when the cap does not cut it short of that. |
| Budget.GrantShrinks | harness/complex_problems/budget.py:102-108 | One rung of 2 under a cap of 3: the attempts get 2 and then 1. |
| Budget.AttackBudget.StartAttempt | harness/complex_problems/budget.py:102-108 | Commits the attempt's rung, the last one if the ladder has no more, cut to what is left of the cap, and resets the attempt; a negative attempt number is an error that changes nothing. |
| Budget.AttackBudget.Consume | harness/complex_problems/budget.py:110-128 | Charges within the grant; a negative or too large cost is an error, and an unused budget starts attempt 0 even if the cost is then refused. |
| Progress.ReplayIsLast | harness/complex_problems/progress.py:88-97 | Reloading finds the evidence of the last line about a problem, and no problem without a line. |
| Progress.FirstEvidenceSurvivesIff | harness/complex_problems/progress.py:88-97 | The first evidence of a problem survives reloading exactly when the last line about it carries the same evidence. |
| Progress.EveryLineSurvivesIff | harness/complex_problems/progress.py:88-97 | Every line survives reloading exactly when any two lines about one problem carry the same evidence. |
| Progress.ReloadsIff | harness/complex_problems/progress.py:67-69 | Solutions written behind a journal that loads: the file loads again, and then to the old lines and these solutions, exactly when no id or evidence among them holds one of the three line separators that JSON leaves unescaped. |
| Progress.SeparatorBreaksJournal | harness/complex_problems/progress.py:67-92 | One solution whose evidence holds U+2028 is stored, and the file does not load any more. |
| Progress.StrictIsFaithful | harness/complex_problems/progress.py:99-122 | What these results ask of the decoder can be had: a decoder that reads the printed form and refuses every text that ends inside a string. |
| Progress.NextSession | harness/complex_problems/progress.py:24-29 | The next session opens on the file of this one exactly when no id or evidence written holds a separator, and then with the same solved problems; the same holds of the session after it. |
| Progress.TwoWritersOverwrite | harness/complex_problems/progress.py:88-97 | Two lines about one problem reload to the second. |
| Progress.Load | harness/complex_problems/progress.py:88-122 | Loading a file fails exactly on a line that is neither blank nor a record of two non-empty strings, and otherwise yields the replay of its lines. |
| Progress.ProgressLedger.constructor | harness/complex_problems/progress.py:24-29 | A new ledger is the replay of the lines of its file, or empty without a file. |
| Progress.ProgressLedger.OpenLedger | harness/complex_problems/progress.py:24-29 | Opening raises exactly when there is a file with a line that does not load. |
| Progress.ProgressLedger.MarkSolved | harness/complex_problems/progress.py:39-70 | Empty id or evidence is an error; a solved problem keeps its evidence; a first solution is stored and the file grows by the text of its record and a newline; lines read and records written still replay to memory, and no problem gets a second one. |
| AttackLoop.CheckStatementIntegrity | harness/complex_problems/verifier.py:44-75 | An empty marker is an error; otherwise the missing markers, each once and in the order they first appear, are exactly those that stand at no place of the statement. |
| AttackLoop.ContainsIff | harness/complex_problems/verifier.py:73 | The search finds a marker exactly when some slice of the statement equals it. |
| AttackLoop.Loop.Attempt | harness/complex_problems/attack.py:121-136 | One turn: the grant is what the ladder leaves under the cap, a charge never fails, and the attempt is certified exactly when markers and verifier both agree. |
| AttackLoop.Loop.Attack | harness/complex_problems/attack.py:79-154 | The result and the ledger are those of the specified attack, errors included: empty id, no attempts, empty marker, no cap, or an accepted candidate that is the empty string. |
| AttackLoop.SolvedIff | harness/complex_problems/attack.py:120-153 | An attack succeeds exactly when some affordable attempt would be certified, and ends at the first of them. |
| AttackLoop.ReportIsDetermined | harness/complex_problems/attack.py:41-50 | The description of an attack fixes its report completely. |
| AttackLoop.SpendIsGrants | harness/complex_problems/attack.py:120-146 | The reported spend is the sum of the grants in the history and within the cap; each charge is positive and fits its grant; only the last attempt of a solved attack is verified. |
| AttackLoop.HistoryIs | harness/complex_problems/attack.py:120-136 | Attempt i is numbered i, is given its rung or what the attempts before it left of the cap, and is charged the cost or all it was given. |
| AttackLoop.FailureSpend | harness/complex_problems/attack.py:147-154 | A failed attack costs what the ladder gives all its attempts, up to the cap. |
| AttackLoop.SolvedForever | harness/complex_problems/attack.py:108-116 | Over any series of attacks a solved problem stays solved with its first evidence. |
| AttackLoop.LaterAttacksFree | harness/complex_problems/attack.py:108-116 | Attacking it again makes no attempt, spends nothing and reports that evidence. |
| AttackLoop.SolutionsAreCertified | harness/complex_problems/attack.py:137-146 | Every solution a series adds is a non-empty candidate that the attack adding it had certified. |
| AttackLoop.ProblemCost | harness/complex_problems/attack.py:85-154 | Over any series of attacks, on other problems and on any terms, those on one problem spend the price of each that failed, with its own ladder, cap and number of attempts, and, once it is solved, what the one success spent, which is no more than its failure would have cost. |
| AttackLoop.NextIsSafeIff | harness/complex_problems/attack.py:118-154 | Before attacking an unsolved problem again: whatever comes of it the total stays within the cap exactly when the price still fits. |
| AttackLoop.CapIsPerAttack | harness/complex_problems/attack.py:118-119 | Two failed attacks on one problem that together spend twice the cap. |

## Left out

- Floating point: rounding, overflow and the sign of zero; arithmetic is over the reals, except that an infinite or NaN
  number in a JSON answer is a value of its own.
- EvaluatorRun.Evaluate: does not model numpy broadcasting or leaf columns of different shapes; the market has one common shape.
- EvaluatorRun.RunOp: asks for a positive window where a rolling operator needs one, as validated trees have; numpy's
  errors on other windows are not modelled.
- FactorDsl.ParsePrinted: JSON is a datatype, not text, and of an object only the four keys the parser reads are kept;
  reading an integer out of a string is a parameter.
- JournalText.ReadEscaped: strings are sequences of Unicode scalar values; lone surrogates, which cannot be written as UTF-8,
  and the file encoding are left out.
- ZooJournal.ReloadsIff: the JSON parser is a parameter that reads back the records written and refuses a text that ends inside
  a string; printing a finite number is one too. The file it starts from must end its last line, as every file the zoo
  writes does.
- ImportCycles.CheckImportCycles: starts from the import graph, every target of which is a module, as `_module_graph` builds
  it; parsing the imports, and the order and wording of the messages, are not modelled.
- ImpactAnalysis.SelectTests: which tests exist is a set of paths; resolving imports to modules (`_match_internal`) is not
  modelled.
- AlphaZoo.Zoo.IsSimilar: asks for stored trees that parse to their formulas, as every entry the mining code makes does; what
  the source raises on others is not modelled.
- AlphaZoo.Zoo.Add: asks the same of the new entry, and keeps the record it writes; its text is that of ZooJournal.
- AlphaZoo.RunSound: is about one threshold for the whole run; with changing thresholds pairs are only as far apart as the
  threshold of the later one.
- MctsSearch.SearchMcts: asks for a valid seed; the selection bound is an uninterpreted function of a child's value and visits
  and the parent's visits; of the prompt only the iteration and the node's tree are kept.
- MiningRound.MiningLoop.RunRound: hooks are functions of what they are given and do not touch the zoo; reasons are values, not
  text. Plans are given: `diversified_init` is not modelled. Exceptions of the alignment hook and Python's recursion limit
  are not modelled.
- Trajectory operators (`evolve_pool`, `mutate`, `crossover`), `forbidden_genes` and `failure_modes`: easy members.
- `_pooled_t`, `_p_value` and `decide`: thresholds and special functions; a verdict is a parameter of the loop.
- Propagation.Plan: which paths are in scope (`is_excluded`, symbolic links, the containment test) is a predicate given to
  the model.
- Propagation.CopyPending: threads are an arbitrary order with arbitrary failures, each copy atomic; temporary files,
  directories and error texts are left out.
- Propagation.SyncTree: without a manifest file the caller passes an empty manifest and drops the one returned; reading and
  writing it, and `sync_file`, are left out.
- Propagation.Converges: assumes stamps are honest for source and destination together, that is, one path, size and time
  always mean one content.
- AttackLoop.Loop.Attack: hook and verifier are functions and do not touch the ledger; a ladder or cost the constructors
  reject is excluded by precondition.
- AttackLoop.ProblemCost: counts reported spend; an attack that raises reports none.
- Progress.NextSession: the JSON parser is a parameter that reads back printed records and refuses a text that ends inside a
  string, as StrictDecode does. The file the first session found must end its last line; every file a session leaves then
  does too.
- Progress.ReloadsIff: starts from such a file and such a parser too.
- Progress.ProgressLedger.constructor: is the part of opening after the journal has loaded; OpenLedger raises for the others.
- AlphaZoo.Zoo.constructor: is the part of opening after the lines have been decoded; ZooJournal.OpenZoo raises for the others.
- Error message texts, and the order in which sets are iterated, which the proofs leave arbitrary.
- Elo ranking, the sketch store, the UCB helper, and all installation, service, backup and publishing scripts: input and
  output, foreign calls or easy members.
