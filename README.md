# Advent of Code 2024, days 1 to 11, in Dafny

A model of eleven puzzle solvers of the Advent of Code 2024 repository, one
Dafny module per solver (`Day1` … `Day11` in `day1.dfy` … `day11.dfy`), with
proofs of what each solver computes. Two shared modules stand in for the Rust
standard library: `Text` (`text.dfy`) for `lines`, `split`, `split_once`,
`trim`, `find` and `parse`, and `Sorting` (`sorting.dfy`) for the in-place
sorts. `Options` (`options.dfy`) holds `Option`.

Each solver keeps the form of its Rust code. Loops that push, pop or update
in place are methods with loop invariants, proved equal to a recursive
specification function. Iterator chains and matches are functions. Lemmas then
prove properties of those specification functions.

- **Day 1.** The two columns are parsed line by line, and the total distance
  is the sum of the absolute differences of the sorted columns. The similarity
  score is built with a counting array and a fold. The distance is proved
  symmetric, independent of the order of each list, and zero exactly when the
  lists are permutations of each other. Printing two columns and parsing the
  text gives them back.
- **Day 2.** The peekable loop, the `windows(2)` delta loop and the `try_fold`
  iterator are each proved to accept exactly the reports that are strictly
  monotone by 1 to 3 per step. The damped check accepts exactly the reports
  that are safe or become safe after removing one level.
- **Day 3.** `MultiplicationGenerator` is a class whose `Advance` updates its
  state in place. The restarting scan loops and the `do()`/`don't()` skipping
  are methods proved against a character-by-character transducer.
- **Day 4.** The grid parse, the guarded pushes of `get_xmas_directions`, in
  their order, and the count. The count is the number of
  (X cell, direction) pairs along which `XMAS` reads.
- **Day 5.** The comparator given by the first rule about two pages, rule
  satisfaction, the rule-and-update parser as a fold, and the four middle-page
  sums. The unordered updates are sorted in place by `compare`.
- **Day 6.** The guard walk on an `array2` of cells. Each step of
  `walk_map_recursive` is one loop iteration, proved to perform the pure
  `Step` on the map. The walk keeps exactly one guard and never un-covers a
  cell. The count of covered and guard cells is taken on a copy.
- **Day 7.** `solveable`'s recursive search is proved equivalent to the
  existence of a left-to-right assignment of `+`, `*` (and, in part 2,
  concatenation) that gives the target.
- **Day 8.** Flat index to position, the grouping of antennas by frequency,
  the multiplier loop of `calculate_antinodes`, the pair loops, and the
  set-size count, with exact membership lemmas for every level.
- **Day 9.** Decoding the disk map, block compaction with a double-ended
  queue, and whole-file compaction on arrays. The latter moves files in place,
  re-sorts them, and terminates because the sum of the file offsets falls with
  every pass that moves something.
- **Day 10.** The map parse and trailhead collection. The recursive score is
  proved to return exactly the 9s reached by hiking trails. The sum over the
  trailhead set does not depend on the set's iteration order.
- **Day 11.** The digit count, split and multiply rule. The depth-first
  recursion of `blink` equals blinking the whole row `depth` times, and every
  blink at most doubles the row.

Differences between the code and its intended behaviour, followed here as the code is written:

- The guard walk has no loop detection.
- An obstruction carries no direction set.
- The count includes the guard's final cell, which the walk leaves as `Guard`,
  not `Covered`.
- The test generator of day 8 lists positions as (column, row), but
  `get_position` returns (row, column) (`src/day8.rs:7-11`). The model follows
  `get_position`.

## Model

| member | source | states |
|---|---|---|
| Day1.InputGenerator | src/day1.rs:21-35 | the loop over the lines pushes exactly the left and right column of every line, in line order |
| Day1.LineRoundTrip | src/day1.rs:26-31 | a line `l r` of two u32 values parses back to `l` and `r` |
| Day1.ParseListLine | src/day1.rs:26-28 | a line is accepted only if it holds a space, and both numbers it yields are u32 values |
| Day1.LeftValue | src/day1.rs:26-30 | the left field as a u32 value; on an accepted line the parse is exactly the pair of the left and right values |
| Day1.RightValue | src/day1.rs:26-31 | the right field as a u32 value |
| Day1.ListTextRoundTrip | src/day1.rs:21-35 | printing two equally long columns of u32 values and parsing the text gives back both columns |
| Day1.GetTotalDistanceParsed | src/day1.rs:37-50 | the sorted columns, zipped and summed by absolute difference, give the total distance of the two lists |
| Day1.GetTotalDistanceDirect | src/day1.rs:1-13 | parsing then summing the distances of the sorted columns is the total distance of the parsed lists |
| Day1.PairwiseDistanceSymmetric | src/day1.rs:11 | `abs_diff` summed over a prefix does not depend on which list is first |
| Day1.DistanceSymmetric | src/day1.rs:37-50 | swapping the two lists does not change the total distance |
| Day1.DistanceIgnoresOrder | src/day1.rs:42-43 | the total distance depends only on the multiset of each list, since both are sorted first |
| Day1.PairwiseDistanceZero | src/day1.rs:45-49 | the summed pairwise distance is zero exactly when the two prefixes are equal |
| Day1.DistanceZeroIff | src/day1.rs:37-50 | for lists of equal length the total distance is zero exactly when the lists are permutations of each other |
| Day1.MaxOrZero | src/day1.rs:57 | `max().unwrap_or(&0)`: an upper bound of the list that is one of its elements, or 0 for an empty list |
| Day1.CountValues | src/day1.rs:59-63 | the counting table has one slot per value up to the maximum and slot v holds how often v occurs |
| Day1.GetSimilarityScore | src/day1.rs:52-72 | the fold over the left list adds each value times its number of occurrences on the right |
| Day1.GetSimilarityScoreDirect | src/day1.rs:15-19 | parsing then scoring gives the similarity of the parsed lists |
| Day1.SampleDistance | src/day1.rs:81-87 | the sample lists have total distance 11 |
| Day1.SampleSimilarity | src/day1.rs:81-87 | the sample lists have similarity score 31 |
| Day1.SampleSortedLeft | src/day1.rs:83 | the sample left list sorts to 1 2 3 3 3 4 |
| Day1.SampleSortedRight | src/day1.rs:83 | the sample right list sorts to 3 3 3 4 5 9 |
| Day1.SamplePermutedLeft | src/day1.rs:83 | the sorted left sample is a permutation of the sample |
| Day1.SamplePermutedRight | src/day1.rs:83 | the sorted right sample is a permutation of the sample |
| Day1.LeftColumn | src/day1.rs:26-29 | the left column has one number per line, and entry i is the left field of line i |
| Day1.RightColumn | src/day1.rs:26-30 | the right column has one number per line, and entry i is the right field of line i |
| Day1.ColumnsSnoc | src/day1.rs:27-31 | each line pushes its left and right number onto the end of the two columns |
| Day1.LineSplits | src/day1.rs:28 | `split_once(' ')` on a printed line stops at the first space, before the right number |
| Day1.ListTextLines | src/day1.rs:27 | `lines()` of the printed lists gives back one line per pair, in order |
| Day1.SumDistances | src/day1.rs:8-12 | the `zip(..).map(abs_diff).sum()` loop sums the distances of the pairs up to the shorter list's length |
| Day1.SortedDistanceZero | src/day1.rs:45-49 | two lists of equal length have summed pairwise distance zero exactly when they are equal |
| Day1.SortEqualIff | src/day1.rs:42-43 | two lists sort to the same list exactly when they hold the same numbers with the same multiplicities |
| Day1.SimilaritySnoc | src/day1.rs:65-71 | one more left value adds that value times its number of occurrences on the right |
| Day1.SamplePairwise | src/day1.rs:81-87 | the sorted sample lists, paired up, are 11 apart |
| Day1.SampleCounts | src/day1.rs:83 | 3 occurs three times, 4 once, 1 and 2 never in the sample right list |
| Day1.SampleSimilarityOf | src/day1.rs:81-87 | any right list with those occurrence counts gives the sample left list similarity 31 |
| Day2.Deltas | src/day2.rs:67-68 | `windows(2)` mapped to `data[1] - data[0]` in i64: one difference per neighbouring pair, none for a report shorter than two |
| Day2.ShortReportsAreSafe | src/day2.rs:61-86 | a report with no pair of neighbours passes every filter |
| Day2.SafeIff | src/day2.rs:22-59 | a report is safe exactly when it is strictly increasing or strictly decreasing by 1 to 3 per step |
| Day2.IsSafeNaive | src/day2.rs:26-56 | the peekable loop with its remembered direction accepts exactly the safe reports |
| Day2.IsSafeDelta | src/day2.rs:65-83 | the windows loop that compares each delta's signum with the last one and checks `1..=3` accepts exactly the safe reports |
| Day2.TryFoldOk | src/day2.rs:96-106 | the `try_fold` succeeds exactly when every delta is 1 to 3 in size and of one sign, agreeing with the signum carried in |
| Day2.FoldStep | src/day2.rs:96-106 | the closure fails exactly on a step outside 1 to 3 or a change of sign, and otherwise carries the step's sign |
| Day2.TryFold | src/day2.rs:96-107 | the fold of no steps returns the accumulator, and a successful fold ends carrying the sign of the last step |
| Day2.IsSafeIterator | src/day2.rs:92-108 | an accepted report steps by 1 to 3 everywhere (IteratorAgrees gives the full rule) |
| Day2.IteratorAgrees | src/day2.rs:88-110 | the iterator filter accepts exactly the safe reports |
| Day2.Count | src/day2.rs:58 | `filter(..).count()` is at most the number of reports |
| Day2.CountSafeReports | src/day2.rs:22-59 | the naive count is the number of safe reports |
| Day2.CountSafeReportsDelta | src/day2.rs:61-86 | the delta count is the number of safe reports |
| Day2.CountAgrees | src/day2.rs:88-110 | two filters that agree on every report count alike |
| Day2.IteratorCountAgrees | src/day2.rs:88-110 | the iterator count equals the naive and delta counts |
| Day2.Without | src/day2.rs:122-128 | the report with the n-th level removed: one shorter, the levels before n kept and the rest shifted down |
| Day2.IsSafeDamped | src/day2.rs:116-135 | a report passes the damped filter exactly when it is safe or safe after removing one level |
| Day2.AnyDeletionSafe | src/day2.rs:121-134 | the loop over `n` finds a safe report with one level removed exactly when one exists |
| Day2.CountSafeReportsDamped | src/day2.rs:112-138 | the damped count is the number of reports that are safe or safe after one removal |
| Day2.CountMonotone | src/day2.rs:112-138 | a weaker filter counts at least as many reports |
| Day2.DampedCountsMore | src/day2.rs:112-138 | every report safe as it is also passes the damped filter, so part 2 is at least part 1 |
| Day2.ParseReport | src/day2.rs:7-12 | one level per space-separated field of the line |
| Day2.InputGenerator | src/day2.rs:3-14 | one report per line |
| Day2.ReportRoundTrip | src/day2.rs:3-14 | a report of u32 levels printed space-separated parses back to itself |
| Day2.SampleSafeDecreasing | src/day2.rs:151 | 7 6 4 2 1 is safe, with and without damping |
| Day2.SampleDampedByDroppingSecond | src/day2.rs:154 | 1 3 2 4 5 is unsafe but safe with damping |
| Day2.SampleDampedByDroppingRepeat | src/day2.rs:155 | 8 6 4 4 1 is unsafe but safe with damping |
| Day2.SampleSafeIncreasing | src/day2.rs:156 | 1 3 6 7 9 is safe |
| Day2.DeletionCheck | src/day2.rs:122-131 | one pass of the removal loop tells whether the report without level n is safe |
| Day2.ParseFields | src/day2.rs:8-11 | one level per field, in order |
| Day2.ParseFieldsValues | src/day2.rs:10 | fields that each parse to the given value parse, one by one, to exactly those values |
| Day2.ParseWritten | src/day2.rs:8-11 | the fields of a printed report each parse, and together they parse back to the report |
| Day3.IsValid | src/day3.rs:17-36 | `is_valid`: the indicator accepts only `m`, `u`, `l` at index 0, 1, 2; the first number a digit or `,`; the second a digit or `)`; `Done` nothing |
| Day3.Transition | src/day3.rs:37-77 | `advance` yields a multiplication exactly on `)` in the second number, with the two numbers read, and then the generator is `Done` |
| Day3.AsciiOffset | src/day3.rs:56 | `c as u16 - '0' as u16` is below 10, and for a digit `c` it is the value whose character is `c` |
| Day3.Accumulate | src/day3.rs:56-71 | folding k digits onto `n` gives a number from `n * 10^k` up to but excluding `(n + 1) * 10^k` |
| Day3.Feed | src/day3.rs:120-128 | one character of the scan as written: only `)` read after the second number yields, the generator then restarts, and it never rests in `Done` |
| Day3.Scan | src/day3.rs:115-129 | the character-by-character scan recognises nothing in a text without `)` |
| Day3.MultiplicationGenerator.constructor | src/day3.rs:119 | a new generator expects the `m` of `mul` |
| Day3.MultiplicationGenerator.Advance | src/day3.rs:37-77 | the state update in place and the returned multiplication are those of `Transition` |
| Day3.IndicatorSpells | src/day3.rs:19-24 | the indicator states accept exactly `m`, `u`, `l` in that order and then expect `(` |
| Day3.ScanAppend | src/day3.rs:120-129 | the character-by-character scan of two texts in turn is the scan of their concatenation |
| Day3.AccumulateSnoc | src/day3.rs:56 | one more digit folds into the number as `digits * 10 + d` |
| Day3.AccumulateDecimal | src/day3.rs:56 | the digits folded from 0 give the decimal value they spell |
| Day3.ScanDigits | src/day3.rs:49-73 | digits read in a number state accumulate into that number and recognise nothing |
| Day3.ScanOne | src/day3.rs:120-129 | the scan of one character is one step of the inner loop |
| Day3.ScanKeyword | src/day3.rs:39-48 | `mul(` takes a fresh generator to the first number with nothing recognised |
| Day3.AcceptsAppend | src/day3.rs:121 | text accepted in turn is accepted as a whole |
| Day3.MulTextRecognised | src/day3.rs:112-132 | a fresh generator turns `mul(a,b)` into the product a·b and is fresh afterwards |
| Day3.FirstNumberRead | src/day3.rs:49-73 | from the first number state, `<digits>,<digits>)` recognises the product of the two decimal numbers |
| Day3.SecondNumberRead | src/day3.rs:59-73 | from first number a, `,<digits>)` recognises a times the second number |
| Day3.RunGenerator | src/day3.rs:119-129 | the inner `while let` loop always moves forward unless the text has ended, never past its end, and gains something only by reading a `)` |
| Day3.Evaluate | src/day3.rs:115-131 | the outer loop gains nothing when no `)` follows the position it starts from |
| Day3.RunGeneratorScans | src/day3.rs:115-130 | running one generator and restarting it afterwards equals the scan over the same characters |
| Day3.EvaluateIsScan | src/day3.rs:134-152 | without `do()`/`don't()` handling, the restarting loops compute the plain scan of the text |
| Day3.MatchLength | src/day3.rs:85-89 | the compare loop consumes the longest common prefix of the text and the pattern, stopping at the first difference |
| Day3.SkipDisabled | src/day3.rs:92-106 | skipping disabled text never moves backwards or past the end |
| Day3.SkipIfDisabled | src/day3.rs:80-110 | `skip_if_disabled` never moves backwards or past the end |
| Day3.SkipDisabledFindsDo | src/day3.rs:92-106 | once disabled, the scan resumes right after the first full `do()`, or at the end of the text if there is none |
| Day3.NoDoInsidePartialMatch | src/day3.rs:94-102 | an incomplete match of `do()` cannot hide the start of a full `do()` |
| Day3.NoDontNoChange | src/day3.rs:112-132 | a text without `d` has the same value with and without `do()`/`don't()` handling |
| Day3.EvaluateTail | src/day3.rs:115-130 | the same, for every position inside the text |
| Day3.SkipIfDisabledAt | src/day3.rs:80-110 | the peeking loops on the text stop where `SkipIfDisabled` says |
| Day3.MatchPrefix | src/day3.rs:85-89 | the compare loop consumes `MatchLength` characters |
| Day3.EvaluateMuls | src/day3.rs:112-132 | the outer loop sums what `Evaluate` describes |
| Day3.RunFreshGenerator | src/day3.rs:119-129 | the inner loop gains and stops as `RunGenerator` says |
| Day3.EvaluateIgnoreDoDont | src/day3.rs:134-152 | part 1 is the plain scan of the text |
| Day3.EvaluateDoDont | src/day3.rs:154-173 | part 2 evaluates with disabled stretches skipped |
| Day3.RejectedCharacterIsLost | src/day3.rs:120-128 | as written, `mmul(a,b)` yields 0 although `mul(a,b)` alone yields a·b |
| Day3.ScanUnmatched | src/day3.rs:19-24 | with a fresh generator, a text without `m` yields nothing |
| Day3.ScanRescanningAppend | src/day3.rs:120-129 | the rescanning scan also splits over concatenation |
| Day3.RescanningAgreesOnAccepted | src/day3.rs:120-129 | where no character is rejected, rescanning and the scan as written agree |
| Day3.RescanningCountsEveryInstruction | src/day3.rs:112-132 | with rescanning, each `mul(a,b)` adds a·b whatever text comes before it |
| Day3.RescanningKeepsRejectedCharacter | src/day3.rs:120-128 | rescanning recognises `mmul(2,3)` as 6, which the scan as written does not |
| Day3.MatchLengthAgrees | src/day3.rs:85-89 | the characters the compare loop consumed equal the pattern's first ones, and the character it stopped at differs from the pattern's next one |
| Day3.NoDoInPartialMatch | src/day3.rs:94-102 | no full `do()` starts inside the characters an incomplete match of `do()` consumed |
| Day3.SkipDisabledFrom | src/day3.rs:92-106 | the `while let` loop after a `don't()` stops where `SkipDisabled` says |
| Day4.Encode | src/day4.rs:17-23 | every grid letter has a character the parser maps back to it |
| Day4.DecodeInverse | src/day4.rs:17-23 | the `match` of `generate_data` is undone by Encode, so the four letters map one to one onto the variants |
| Day4.GenerateData | src/day4.rs:11-30 | the grid is as wide as the first line, has one row per first-line width of decoded characters, and its k-th cell decodes the k-th character of the joined lines |
| Day4.GridOf | src/day4.rs:28-29 | `from_shape_vec((len / cols, cols), ..)` over decoded characters: a well-formed grid holding them in order |
| Day4.GeneratedCells | src/day4.rs:11-30 | for a text of equally wide lines, cell (r, c) holds the letter at column c of line r |
| Day4.PositionOf | src/day4.rs:86-89 | the position `indexed_iter` reports for the k-th cell is on the grid and row-major |
| Day4.CompassIsEveryDirection | src/day4.rs:53-77 | the eight pushed vectors are exactly the non-zero steps of -1, 0 or 1 per axis |
| Day4.OpenSides | src/day4.rs:32-50 | the side bits are set exactly when three more cells lie on that side |
| Day4.GetXmasDirections | src/day4.rs:37-79 | the returned list is the eight guarded pushes in their order: exactly the compass directions whose three-step end stays on the grid, each once, at most eight |
| Day4.StepOnGrid | src/day4.rs:94-97 | up to three steps along a returned direction index a cell of the grid |
| Day4.SpellsXmasIff | src/day4.rs:81-98 | a direction matches exactly when the cells 1, 2 and 3 steps away hold M, A and S |
| Day4.Matching | src/day4.rs:92-99 | the filtered directions are exactly the tried ones along which XMAS reads |
| Day4.MatchingDistinct | src/day4.rs:92-99 | filtering a duplicate-free list of directions keeps it duplicate-free |
| Day4.PairsSnoc | src/day4.rs:86-103 | the pairs of one more cell are the earlier ones plus that cell's, which are new |
| Day4.TaggedCard | src/day4.rs:100 | tagging distinct directions with one cell gives as many pairs as directions |
| Day4.MatchesArePairs | src/day4.rs:89-101 | the count for one X cell is the number of directions along which XMAS reads from it |
| Day4.CountXmas | src/day4.rs:83-104 | the sum is the number of (X cell, direction) pairs along which XMAS reads |
| Day4.CompassAt | src/day4.rs:53-77 | the k-th direction tried is the k-th entry of the compass, a non-zero step of -1, 0 or 1 per axis |
| Day4.Rank | src/day4.rs:53-77 | every compass direction is tried at exactly one of the eight places |
| Day4.PushedUpTo | src/day4.rs:52-77 | after k guarded pushes the list holds at most k directions |
| Day4.PushedMembers | src/day4.rs:52-77 | after k guarded pushes the list holds exactly the directions among the first k tried that reach |
| Day4.PushedDistinct | src/day4.rs:52-77 | the guarded pushes never push a direction twice |
| Day4.AllPushed | src/day4.rs:52-78 | after all eight pushes the list holds every reaching compass direction, each once |
| Day4.SidesOf | src/day4.rs:38-50 | the four `allowed & DIRECTION_… != 0` tests hold exactly when three more cells lie up, down, left or right |
| Day4.PushIf | src/day4.rs:53-77 | one `if … { push }` whose guard says the direction reaches extends the pushed list by one place |
| Day4.NoPairsOffX | src/day4.rs:88 | a cell that is not an X contributes nothing |
| Day4.PairsCountSnoc | src/day4.rs:86-103 | the count over one more cell adds that cell's matches |
| Day4.CellCount | src/day4.rs:88-101 | the filter and map for one cell give the number of its (cell, direction) matches |
| Day5.FirstMention | src/day5.rs:25-27 | `rules.iter().find(..)`: none exactly when no rule is about the two pages, otherwise the first rule about them |
| Day5.Compare | src/day5.rs:24-41 | `Equal` exactly when no rule is about the two pages; `Less` only when a rule puts a first, `Greater` only when one puts b first |
| Day5.CompareFirstRule | src/day5.rs:24-41 | the first rule about a and b decides: `Less` when it leads with a, `Greater` otherwise |
| Day5.CompareEqual | src/day5.rs:39 | `compare` gives `Equal` exactly when no rule is about the two pages |
| Day5.CompareAntisymmetric | src/day5.rs:24-41 | for two different pages, a before b exactly when b after a, and equal either way round |
| Day5.MentionsSymmetric | src/day5.rs:26 | the rule found for (a, b) is the one found for (b, a) |
| Day5.BeforeAsymmetric | src/day5.rs:120 | without a rule about a page and itself, the `sort_by` comparator never puts two pages each before the other |
| Day5.FirstIndex | src/day5.rs:45-48 | `enumerate().find(..)`: the first position of a page, or none when it is absent |
| Day5.Satisfied | src/day5.rs:44-56 | a rule fails only when both its pages occur in the update |
| Day5.SatisfiedIff | src/day5.rs:44-56 | a rule holds exactly when no occurrence of its leading page is at or after the first occurrence of its trailing page |
| Day5.SatisfiedVacuously | src/day5.rs:49 | a rule whose trailing page is absent holds |
| Day5.CheckRules | src/day5.rs:87-89 | every rule holds exactly when no page is followed, or matched, by a page some rule puts before it |
| Day5.AllSatisfiedIff | src/day5.rs:87-89 | all rules are satisfied exactly when the update is in rule order |
| Day5.UnruledNeighboursDiverge | src/day5.rs:39 | with no rules, `[1, 2, 3]` keeps every rule but is not sorted by `compare`, so `sum_middle_pages` gives 2 and `sum_middle_pages_fast` 0 |
| Day5.CheckedIsSorted | src/day5.rs:87-109 | an update keeping every rule, whose neighbours differ and are ruled on, also passes the `is_sorted_by` check |
| Day5.Filter | src/day5.rs:96 | a filter keeps a sub-list of non-empty updates |
| Day5.Passing | src/day5.rs:96 | the updates that keep every rule are non-empty when all are |
| Day5.Failing | src/day5.rs:118 | the updates that break some rule are non-empty when all are |
| Day5.Unsorted | src/day5.rs:135-140 | the updates not sorted by `compare` are non-empty when all are |
| Day5.MiddleSumAppend | src/day5.rs:97-98 | the middle-page sum splits over concatenation |
| Day5.FilterPartition | src/day5.rs:94-98 | what a filter keeps and what it drops together hold every middle page once |
| Day5.SumMiddlePages | src/day5.rs:92-99 | the middle pages of the updates keeping every rule plus those of the failing updates are all the middle pages |
| Day5.SumMiddlePagesFast | src/day5.rs:102-109 | the middle pages of the updates sorted by `compare` plus those of the unsorted updates are all the middle pages |
| Day5.FilterSame | src/day5.rs:96 | two filters that agree on every update keep the same updates |
| Day5.FilterKeeps | src/day5.rs:96 | every kept update passes the filter |
| Day5.SortUpdate | src/day5.rs:120 | the sorted update is a permutation of the update and, without self-rules, no page comes strictly before its left neighbour |
| Day5.SortAndSum | src/day5.rs:119-124 | each update is rearranged by `sort_by` and the middle pages of the results are summed |
| Day5.SumMiddlePagesOrdered | src/day5.rs:111-125 | the sum is over the rearranged updates that break some rule |
| Day5.SumMiddlePagesOrderedFast | src/day5.rs:127-144 | the sum is over the rearranged updates that are not already sorted |
| Day5.NothingFailing | src/day5.rs:118 | when every update keeps every rule nothing is reordered |
| Day5.ParseUpdate | src/day5.rs:68-72 | one page per comma-separated field, and at least one |
| Day5.ParseRule | src/day5.rs:74-79 | the line is two page fields around its first `|`, and the rule holds their values in that order |
| Day5.ReadLine | src/day5.rs:63-82 | the empty line ends the rules; any other line adds exactly one entry, a rule before the empty line or an update after it, and leaves the other list unchanged |
| Day5.Middle | src/day5.rs:97 | the middle page is in the update, and for an odd length it has as many pages after it as before |
| Day5.ReadablePrefix | src/day5.rs:61-83 | a prefix of readable lines is readable |
| Day5.ReadAll | src/day5.rs:61-83 | the fold has seen the empty line exactly when the lines hold one, and reads only non-empty updates |
| Day5.ReadSnoc | src/day5.rs:63-82 | reading one more line is one more step of the fold |
| Day5.Generator | src/day5.rs:58-85 | every parsed update holds at least one page |
| Day5.SumMiddlePagesDirect | src/day5.rs:3-6 | part 1 takes the middle pages of the parsed updates that are sorted, the rest being those of the unsorted ones |
| Day5.SumMiddlePagesOrderedDirect | src/day5.rs:7-10 | part 2 sums the middle pages of the parsed updates that are not sorted, once rearranged |
| Day5.RuleLines | src/day5.rs:74-79 | one `l|t` line per rule |
| Day5.UpdateLines | src/day5.rs:68-72 | one comma-separated line per update |
| Day5.RuleLineRoundTrip | src/day5.rs:74-79 | a printed rule reads back as the same rule |
| Day5.UpdateLineRoundTrip | src/day5.rs:68-72 | a printed non-empty update reads back as the same update |
| Day5.ReadRules | src/day5.rs:73-80 | rule lines before the empty line read back as the rules, in order |
| Day5.ReadUpdates | src/day5.rs:61-85 | rule lines, an empty line and update lines read back as the rules and the updates |
| Day5.ReadUpdateLines | src/day5.rs:64-72 | after the empty line, each update line appends its update |
| Day5.GeneratorRoundTrip | src/day5.rs:59-85 | the text of any rules and non-empty updates is parsed back to them by `generator` |
| Day5.ReadRuleLine | src/day5.rs:73-80 | before the empty line, a printed rule is read back and appended to the rules |
| Day5.RuleLinesNotBlank | src/day5.rs:64-66 | no printed rule line is the empty line that ends the rules |
| Day5.RearrangedSnoc | src/day5.rs:119-124 | one more rearranged update extends the list of rearranged updates and adds its middle page to the sum |
| Day6.Vector | src/day6.rs:16-23 | every heading moves exactly one cell along one axis |
| Day6.RotateRight | src/day6.rs:24-31 | a right turn turns the step vector clockwise by 90 degrees and changes the heading |
| Day6.FourRotationsIdentity | src/day6.rs:24-31 | four right turns restore the heading and two reverse it |
| Day6.AsUsize | src/day6.rs:122-123 | `as usize` leaves in-range values alone and wraps -1 to `usize::MAX` |
| Day6.NextPositionWraps | src/day6.rs:121-124 | the position in front is the plain step away from the edges, and wraps to `usize::MAX` when stepping off row or column 0 |
| Day6.NextInBoundsIff | src/day6.rs:121-125 | `get_mut` finds a cell exactly when the unwrapped coordinates in front of the guard are on the map, and that cell is not the guard's own |
| Day6.Step | src/day6.rs:114-141 | one step of the walk keeps a rectangular map with exactly one guard |
| Day6.Walk | src/day6.rs:114-141 | the walk keeps the map's shape and its single guard |
| Day6.StepMoves | src/day6.rs:127-131 | entering an empty or covered cell moves the guard there with its heading, covers the cell it left and changes no other cell |
| Day6.StepTurns | src/day6.rs:132-136 | facing an obstruction, the guard stays and turns right, and no other cell changes |
| Day6.StepExitsIff | src/day6.rs:125-140 | the walk ends exactly when the position in front of the guard is off the map, and then the map is unchanged |
| Day6.StepMonotone | src/day6.rs:125-138 | a step never un-visits a cell, never moves an obstruction, and changes a cell only by visiting it |
| Day6.WalkMonotone | src/day6.rs:114-141 | the same holds along the whole walk |
| Day6.WalkStable | src/day6.rs:125-140 | once the guard has left, further steps change nothing |
| Day6.WalkDeterministic | src/day6.rs:114-141 | every bound at which the walk has ended sees the same final state |
| Day6.CountRow | src/day6.rs:148-156 | a row counts at most as many visited cells as it has |
| Day6.CountRowSet | src/day6.rs:148-156 | replacing one cell of a row changes its count by what the two cells count |
| Day6.CountSet | src/day6.rs:148-156 | replacing one cell of the map changes the count by what the two cells count |
| Day6.StepCount | src/day6.rs:125-138 | a step raises the count by one exactly when the guard enters an empty cell |
| Day6.CountBounds | src/day6.rs:143-157 | the final count is at least one (the guard) and at most the number of cells |
| Day6.CountAtMost | src/day6.rs:148-156 | no map counts more cells than it has |
| Day6.CountAtLeastGuard | src/day6.rs:153 | a map with a guard cell counts at least one |
| Day6.RowAtLeast | src/day6.rs:153 | a row with a visited cell counts at least one |
| Day6.Snapshot | src/day6.rs:60 | the rows of an `Array2` read cell for cell |
| Day6.SameMap | src/day6.rs:145 | two maps equal cell for cell are equal |
| Day6.StepInPlace | src/day6.rs:114-138 | the in-place update of the map and the guard position is one `Step` |
| Day6.WalkMap | src/day6.rs:114-141 | the recursive walk ends with the map that `Walk` reaches once the guard has left |
| Day6.CountDistinctFields | src/day6.rs:143-157 | the count is the number of covered and guard cells of the final map of the walk |
| Day6.ParseCell | src/day6.rs:78-94 | exactly `^`, `>`, `<` and `v` become guard cells |
| Day6.LastGuardInLine | src/day6.rs:96-103 | the column of the last guard character in a line, or none |
| Day6.LastGuard | src/day6.rs:96-103 | with no guard on the map the position stays the initial (0, 0) (LastGuardIsLast covers the other case) |
| Day6.LastGuardIsLast | src/day6.rs:96-103 | the recorded guard position holds a guard character and none comes after it |
| Day6.ParseCells | src/day6.rs:77-105 | one cell per character, in order |
| Day6.ParseLine | src/day6.rs:77-105 | the inner map over a line gives its cells and where its last guard is |
| Day6.GenerateMap | src/day6.rs:62-112 | a fresh (first line length)² array holding the parsed cells row-major, and the last guard position read |
| Day6.ParseLines | src/day6.rs:67-108 | the cells of all lines in reading order and the last guard position seen |
| Day6.ParseCellsSnoc | src/day6.rs:67-108 | one more line appends its cells and updates the guard position only if it holds a guard |
| Day6.BuildGrid | src/day6.rs:109 | `from_shape_vec((n, n), cells)` puts cell `i * n + j` at row i, column j |
| Day6.LinesInAlphabet | src/day6.rs:78-93 | when the text holds only map characters and newlines, so does every line |
| Day6.GridOfLines | src/day6.rs:108-109 | for a square text, row i, column j holds the cell of character j of line i |
| Day6.GeneratedMapIsValid | src/day6.rs:62-112 | a square map with one guard character yields a valid start: the guard stands at the recorded position and nowhere else |
| Day6.MoveKeepsValid | src/day6.rs:127-130 | moving the guard into another cell and covering the one it left leaves exactly one guard, at the new position |
| Day6.TurnKeepsValid | src/day6.rs:132-136 | turning the guard where it stands leaves exactly one guard, at its position |
| Day6.ParseCellsAppend | src/day6.rs:67-106 | the cells of two texts read in turn are the cells of their concatenation |
| Day6.LastGuardSnoc | src/day6.rs:96-103 | after one more line the recorded guard position is that line's last guard, or the earlier one if the line has none |
| Day7.DefaultUnsolveable | src/day7.rs:11-16 | the placeholder equation has a single part |
| Day7.DefaultNeverSolveable | src/day7.rs:11-16 | the placeholder (target 0, single part 1) is never solvable |
| Day7.NumDigits | src/day7.rs:45 | `b.ilog10() + 1` is the k with `10^(k-1) <= b < 10^k` |
| Day7.NumDigitsIsLength | src/day7.rs:45 | that count is the length of b's decimal numeral |
| Day7.DecimalValueAppend | src/day7.rs:45 | two numerals written side by side have the value `a * 10^len(b) + b` |
| Day7.ConcatIsDigitConcatenation | src/day7.rs:41-46 | `a * 10^(ilog10(b) + 1) + b` is the number whose digits are a's followed by b's |
| Day7.Concat | src/day7.rs:45 | the result's last `ilog10(b) + 1` digits are `b`, and the digits before them are `a` |
| Day7.FindSubequations | src/day7.rs:30-52 | the three subequations keep the target and replace the first two parts by their sum, product and (when allowed) concatenation; otherwise the third is the placeholder |
| Day7.SubequationsConcatDefined | src/day7.rs:30-52 | every subequation still has positive parts after the first, so concatenation stays defined |
| Day7.CombinePositive | src/day7.rs:30-52 | combining two positive parts by any operator gives a positive part no smaller than either |
| Day7.BoundFromSub | src/day7.rs:18-29 | a target at least every part of a subequation is at least every part of the equation |
| Day7.Solveable | src/day7.rs:18-29 | when every part is positive, a solvable target is at least every part |
| Day7.EvalLeftFront | src/day7.rs:30-52 | evaluating the operators from the left is combining the first two parts and evaluating the rest |
| Day7.SolveableIff | src/day7.rs:18-29 | `solveable` holds exactly when some usable choice of operators, evaluated from the left, gives the target |
| Day7.SolveableFirst | src/day7.rs:19-25 | a solvable equation of two or more parts has a first operator whose subequation is solvable |
| Day7.UsableBeforeFirst | src/day7.rs:30-52 | operators usable after combining the first two parts are usable with that operator put in front |
| Day7.SolveableHasOperators | src/day7.rs:18-29 | a solvable equation has operators that give its target |
| Day7.SolveableByFirst | src/day7.rs:19-25 | a solvable subequation makes the equation solvable |
| Day7.UsableAfterFirst | src/day7.rs:30-52 | after the first operator, the remaining operators are usable on the combined parts |
| Day7.OperatorsMakeSolveable | src/day7.rs:18-29 | operators that give the target make the equation solvable |
| Day7.ConcatOnlyAdds | src/day7.rs:21-24 | allowing concatenation never makes a solvable equation unsolvable |
| Day7.ConcatSumAtLeast | src/day7.rs:73-99 | the part 2 sum is at least the part 1 sum |
| Day7.SumAllSolveable | src/day7.rs:73-99 | with no solvable equation the sum is 0 |
| Day7.SumSolveable | src/day7.rs:74-99 | the sum is at most the sum of all targets, and equals it when every equation is solvable |
| Day7.ParseEquation | src/day7.rs:59-68 | an equation line parses to an equation with at least one part |
| Day7.GenerateEquations | src/day7.rs:55-71 | one equation per line |
| Day7.PartFields | src/day7.rs:63-67 | one numeral per part, in order |
| Day7.JoinedNumeralsEnds | src/day7.rs:64 | joined numerals start and end with a digit, so `trim` leaves them alone |
| Day7.EquationLineRoundTrip | src/day7.rs:55-71 | an equation written as `target: p1 p2 ...` is read back as itself |
| Day7.Step2 | src/day7.rs:18-29 | two parts are solvable exactly when their sum, product or (when allowed) concatenation is the target |
| Day7.Step3 | src/day7.rs:18-29 | three parts are solvable exactly when one of the three first combinations leaves a solvable pair |
| Day7.Step4 | src/day7.rs:18-29 | four parts are solvable exactly when one of the three first combinations leaves a solvable triple |
| Day7.NoneFit3 | src/day7.rs:18-29 | three parts none of whose combinations gives the target are not solvable |
| Day7.Sample190 | src/day7.rs:112 | `190: 10 19` is solvable |
| Day7.Sample3267 | src/day7.rs:113 | `3267: 81 40 27` is solvable |
| Day7.Sample83 | src/day7.rs:114 | `83: 17 5` is not solvable |
| Day7.Sample156Plain | src/day7.rs:115 | `156: 15 6` is not solvable without concatenation |
| Day7.Sample156Concat | src/day7.rs:115 | `156: 15 6` is solvable with concatenation |
| Day7.Sample7290Plain | src/day7.rs:116 | `7290: 6 8 6 15` is not solvable without concatenation |
| Day7.Sample7290Rest | src/day7.rs:116 | `7290: 48 6 15` is solvable with concatenation |
| Day7.Sample7290Concat | src/day7.rs:116 | `7290: 6 8 6 15` is solvable with concatenation |
| Day7.Sample161011 | src/day7.rs:117 | `161011: 16 10 13` is not solvable |
| Day7.Sample192Plain | src/day7.rs:118 | `192: 17 8 14` is not solvable without concatenation |
| Day7.Sample192Concat | src/day7.rs:118 | `192: 17 8 14` is solvable with concatenation |
| Day7.Sample21037Sum | src/day7.rs:119 | `21037: 16 18 13` is not solvable |
| Day7.Sample21037Product | src/day7.rs:119 | `21037: 63 18 13` is not solvable |
| Day7.Sample21037Concat | src/day7.rs:119 | `21037: 97 18 13` is not solvable |
| Day7.Sample21037 | src/day7.rs:119 | `21037: 9 7 18 13` is not solvable |
| Day7.Sample292 | src/day7.rs:120 | `292: 11 6 16 20` is solvable |
| Day8.GetPosition | src/day8.rs:7-11 | the (row, column) of a flat index: `row * dim + column` is the index and the column is below the width |
| Day8.GetPositionInjective | src/day8.rs:7-11 | two different indices never get the same position |
| Day8.Width | src/day8.rs:15 | the width is the position of the first newline |
| Day8.CellOf | src/day8.rs:19-22 | `.` is an empty cell and every other character is an antenna of that character |
| Day8.Cells | src/day8.rs:16-24 | one cell per character of the joined lines, in order |
| Day8.Frequencies | src/day8.rs:27-30 | the distinct antenna characters: each occurring antenna once, and nothing else |
| Day8.Positions | src/day8.rs:32-41 | the positions of one antenna character are exactly those of the indices holding it |
| Day8.GenerateMaps | src/day8.rs:13-46 | one position list per distinct antenna character, and the width of the first line |
| Day8.MapsAreGroups | src/day8.rs:26-43 | every list is non-empty and holds exactly the positions of one antenna character |
| Day8.MapsDisjoint | src/day8.rs:26-43 | no position is in two lists |
| Day8.MapsCoverAntennas | src/day8.rs:26-43 | every antenna cell's position is in some list |
| Day8.NodesAtHas | src/day8.rs:60-73 | a point is pushed for one multiplier exactly when it is on the map and lies m steps beyond one tower of the pair |
| Day8.NodesAt | src/day8.rs:60-73 | one multiplier pushes at most two nodes |
| Day8.Antinodes | src/day8.rs:54-75 | the multipliers `first..=last` push at most two nodes each |
| Day8.AntinodesHas | src/day8.rs:59-74 | the antinodes of a pair are exactly the on-map points some multiplier in range reaches |
| Day8.CalculateAntinodes | src/day8.rs:48-76 | the multiplier loop pushes, for each multiplier in order, the node beyond the second tower and then the one beyond the first, each when on the map |
| Day8.GetAntinodeLocs | src/day8.rs:78-95 | the nested loops append the antinodes of every pair i < j in loop order |
| Day8.RowLocs | src/day8.rs:82-92 | the inner loop appends the antinodes of the pairs (i, j) for every j after i |
| Day8.FrequencyNodesHas | src/day8.rs:78-95 | a point is returned for one frequency exactly when some pair i < j of its towers has it as an antinode |
| Day8.FrequencyNodes | src/day8.rs:78-95 | a frequency with fewer than two towers has no antinodes |
| Day8.CountAntinodes | src/day8.rs:98-104 | the count is the size of the set of every frequency's antinodes |
| Day8.AntinodeSet | src/day8.rs:98-114 | when no frequency has two towers, the set of antinodes is empty |
| Day8.CountUniqueAntinodes | src/day8.rs:97-105 | part 1 counts the distinct antinodes at multiplier 1 |
| Day8.CountUniqueAntinodesDepth2 | src/day8.rs:106-114 | part 2 counts the distinct antinodes at multipliers 0 up to the width |
| Day8.Part1 | src/day8.rs:116-118 | the part 1 count of the parsed maps |
| Day8.Part2 | src/day8.rs:120-122 | the part 2 count of the parsed maps |
| Day8.AntinodeSetHas | src/day8.rs:98-114 | a point is counted exactly when some pair of towers of one frequency has it as an antinode |
| Day8.CountedOnMap | src/day8.rs:59-73 | every counted point is on the map and lies some allowed multiple of the pair's distance beyond a tower |
| Day8.PartOneWithinPartTwo | src/day8.rs:97-114 | every part 1 antinode is a part 2 antinode on a map of width at least one, so part 2 counts at least as many |
| Day8.TowersAreAntinodes | src/day8.rs:59 | when towers are included, every on-map tower sharing its frequency with another is counted |
| Day9.Switch | src/day9.rs:14-27 | a file is followed by the free space after it, and free space by the next file |
| Day9.StateAt | src/day9.rs:42-47 | reading starts in file 0, and digit k is read for file k / 2 or the free space after it |
| Day9.SwitchAdvances | src/day9.rs:42-47 | after k switches the state is file k / 2 (k even) or the free space after it (k odd) |
| Day9.SwitchTwice | src/day9.rs:14-27 | two switches from a file move on to the next file |
| Day9.GetContent | src/day9.rs:28-34 | `length` copies of `Some(file_index)` in a file, `None` in free space |
| Day9.MemoryOf | src/day9.rs:37-51 | the memory has one block per unit of every digit |
| Day9.ReadMemory | src/day9.rs:37-51 | the loop extends the memory by one run per digit and `total_filled` is the digit sum, the memory's length |
| Day9.MemoryPrefix | src/day9.rs:43-48 | the memory of the first k digits is a prefix of the whole memory |
| Day9.MemoryRun | src/day9.rs:43-48 | the run of the k-th digit starts at the sum of the digits before it and holds `Some(k / 2)` for a file digit, `None` for free space |
| Day9.ChecksumAppend | src/day9.rs:53-60 | the checksum of two block lists in turn is their checksums plus the second's sum shifted by the first's length |
| Day9.Checksum | src/day9.rs:53-60 | blocks of file 0 add nothing to the checksum |
| Day9.TrimFree | src/day9.rs:70-74 | popping free blocks from the back leaves a prefix that is empty or ends in a file block, and drops only free blocks |
| Day9.Compact | src/day9.rs:63-81 | the compacted blocks are no more than the memory holds, and memory that is all free compacts to nothing |
| Day9.FileBlocksAppend | src/day9.rs:63-81 | the file blocks of two memories in turn are the file blocks of each, in order |
| Day9.TrimFreeKeepsFiles | src/day9.rs:70-74 | dropping trailing free blocks drops no file block |
| Day9.CompactIsPermutation | src/day9.rs:63-81 | the compacted blocks are the memory's file blocks, each exactly once |
| Day9.CompactLength | src/day9.rs:63-81 | part 1 writes exactly one block per file block |
| Day9.CompactKeepsLeadingFiles | src/day9.rs:67-68 | file blocks before the first free block keep their places |
| Day9.ConsolidateMemory | src/day9.rs:62-81 | the deque loop computes the checksum of the compacted memory |
| Day9.Part1 | src/day9.rs:164-166 | part 1 is the checksum of the compacted memory of the disk map |
| Day9.ReadMemoryToBlocks | src/day9.rs:95-121 | file f has size digit 2f and starts at the sum of the digits before it, and free run k likewise with digit 2k + 1 |
| Day9.FileRunsMatchMemory | src/day9.rs:95-121 | the blocks of file f are exactly where part 1's memory holds `Some(f)` |
| Day9.FreeRunsMatchMemory | src/day9.rs:95-121 | the blocks of free run k are exactly where part 1's memory holds `None` |
| Day9.FirstFit | src/day9.rs:129-132 | the `find` returns the first free run that is large enough and left of the file, or none when no run is |
| Day9.Move | src/day9.rs:128-140 | the fold step keeps the number of files and of free runs |
| Day9.Round | src/day9.rs:128-140 | a pass keeps the number of files and of free runs |
| Day9.OffsetSumUpdate | src/day9.rs:133 | replacing one file changes the offset sum by the difference of the offsets |
| Day9.MoveProperties | src/day9.rs:129-139 | a file moves exactly when some free run fits, and then to the first one's start; files only move left, free runs only shrink, and a move lowers the offset sum |
| Day9.RoundProperties | src/day9.rs:128-140 | a pass moves files only left and shrinks free runs only, and a pass that moves nothing changes nothing |
| Day9.RoundLowersOffsets | src/day9.rs:128-140 | a pass never raises the offset sum, and a pass that moves lowers it |
| Day9.QuietRoundSettles | src/day9.rs:128-140 | a pass that moves nothing found no free run fitting any of the files it tried, which is where the `while` stops |
| Day9.FitRound | src/day9.rs:128-140 | the in-place fold over the files from last to first leaves the arrays and the flag that `Round` describes |
| Day9.ByOffsetAsymmetric | src/day9.rs:126 | the `sort_by_key` order by offset is a strict order |
| Day9.Shapes | src/day9.rs:89-93 | one (number, size) pair per file |
| Day9.ShapesIndex | src/day9.rs:89-93 | the i-th pair is the i-th file's number and size |
| Day9.ShapesAppend | src/day9.rs:89-93 | the pairs of two file lists in turn are the pairs of each |
| Day9.FilesMovedShapes | src/day9.rs:133 | moving files changes no file number or size |
| Day9.ShapesPermute | src/day9.rs:126 | reordering the files reorders their numbers and sizes alike |
| Day9.ShapesRemove | src/day9.rs:126 | taking one file out takes its pair out of the multiset of pairs |
| Day9.MultisetRemove | src/day9.rs:126 | taking one file out of the list takes one copy of it out of the list's multiset |
| Day9.DescendsThroughMoves | src/day9.rs:133 | moving files left keeps every file traceable to an original file it lies left of |
| Day9.DescendsThroughSort | src/day9.rs:141 | reordering the files keeps every file traceable to an original one |
| Day9.CompactFiles | src/day9.rs:124-156 | the loop ends with every file keeping its number and size and lying at or left of an original file, free runs only shrunk, the files sorted by offset, and no free run fitting a file to its left |
| Day9.SortAndFit | src/day9.rs:126-141 | one sort and one pass keep those facts, never raise the offset sum, lower it when a file moves, and, when none moves, leave the files sorted with no free run fitting any of them |
| Day9.SpacesShrunkTrans | src/day9.rs:134-135 | shrinking free runs twice shrinks them |
| Day9.OffsetSumPermute | src/day9.rs:126 | reordering the files does not change the sum of their offsets, so the loop's measure survives the sort |
| Day9.OffsetSumRemove | src/day9.rs:126 | taking one file out takes its offset out of the sum |
| Day9.RangeChecksumClosed | src/day9.rs:157-161 | the checksum of a file of `size` blocks from `offset` is `size * (2 * offset + size - 1) / 2` times its number |
| Day9.RangeChecksum | src/day9.rs:158-160 | an empty file and file 0 add nothing to the checksum |
| Day9.FitChecksum | src/day9.rs:157-161 | files that are all empty or all file 0 have checksum 0 |
| Day9.ConsolidateMemoryFit | src/day9.rs:122-162 | the compacted files keep their numbers and sizes, each lies at or left of an original file, they are sorted by offset, the left-over free runs only shrank and none of them fits a file to its left, and the checksum is the files' fold |
| Day9.Part2 | src/day9.rs:167-169 | part 2 is the checksum of files that `read_memory_to_blocks` reads and the fit loop settles, as ConsolidateMemoryFit states |
| Day10.Height | src/day10.rs:18 | the height at a position of the map is a digit, at most 9 |
| Day10.LineHeights | src/day10.rs:69-70 | one height per character of a line, `ch - '0'` |
| Day10.Flatten | src/day10.rs:64-80 | the collected heights are all at most 9 |
| Day10.FlattenIndex | src/day10.rs:64-82 | for lines of one width n, character (r, c) lands at index `r * n + c` of the collected heights |
| Day10.MapOf | src/day10.rs:62-82 | `from_shape_vec((dimension, dimension), ..)`: a well-formed square map with one row per line |
| Day10.MapHeight | src/day10.rs:64-82 | the cell at (r, c) holds the digit at line r, column c |
| Day10.TrailheadsOf | src/day10.rs:69-76 | every recorded trailhead is on the map |
| Day10.TrailheadsAreLowest | src/day10.rs:69-76 | the trailheads are exactly the cells of height 0 |
| Day10.ReadMap | src/day10.rs:61-82 | the parse collects the map and inserts every `0` position into the trailhead set |
| Day10.ReadLine | src/day10.rs:69-78 | the inner map over one line gives its heights and the positions of its `0` digits |
| Day10.Neighbour | src/day10.rs:27-35 | a neighbour is returned only when it is inside `0..dim` on both axes |
| Day10.TrailheadScore | src/day10.rs:17-46 | every returned end is a 9 on the map, and a 9 is its own only end |
| Day10.ScoreVia | src/day10.rs:24-44 | the ends found through a list of directions are 9s on the map |
| Day10.ScoreViaHas | src/day10.rs:24-44 | an end is found through a list of directions exactly when one of them steps up to a cell whose score contains it |
| Day10.NeighbourIsAdjacent | src/day10.rs:6-15 | every direction steps to an orthogonally adjacent cell |
| Day10.AdjacentIsNeighbour | src/day10.rs:6-15 | every orthogonally adjacent cell on the map is reached by one of the four directions |
| Day10.ScoreSound | src/day10.rs:17-46 | every returned end closes a hiking trail (heights rising by one per orthogonal step) from the start |
| Day10.TrailCons | src/day10.rs:37-42 | a step up to the start of a trail extends the trail |
| Day10.ScoreComplete | src/day10.rs:17-46 | every hiking trail's end is among the returned ends |
| Day10.ScoreIsTrailEnds | src/day10.rs:17-46 | the returned ends are exactly the 9s that hiking trails from the start reach |
| Day10.ScoreSumRemove | src/day10.rs:84-102 | the sum does not depend on the order in which the set hands out the trailheads |
| Day10.Contribution | src/day10.rs:89-99 | one trailhead adds every end found (part 2), or the distinct ones, which are never more (part 1) |
| Day10.ScoreSum | src/day10.rs:88-102 | the sum over the trailheads is at least what each one adds |
| Day10.SumTrailheadsScore | src/day10.rs:60-105 | the sum over the trailheads of the number of ends (distinct ends when `unique_finish`) |
| Day10.Part1 | src/day10.rs:48-52 | part 1 sums the distinct ends per trailhead |
| Day10.Part2 | src/day10.rs:54-58 | part 2 sums every trail's end per trailhead |
| Day10.DistinctAtMostLength | src/day10.rs:89-94 | a list has no more distinct elements than elements |
| Day10.UniqueAtMostAll | src/day10.rs:88-101 | counting distinct ends never exceeds counting all ends |
| Day10.PartOneAtMostPartTwo | src/day10.rs:48-58 | part 1's answer is at most part 2's |
| Day11.DigitCount | src/day11.rs:16-21 | a positive stone has at least one digit |
| Day11.DigitCountBounds | src/day11.rs:16-21 | a stone with k digits lies in `10^(k-1) .. 10^k` |
| Day11.CountDigits | src/day11.rs:16-21 | the divide-by-ten loop counts the decimal digits of the stone |
| Day11.DigitCountUnique | src/day11.rs:16-21 | the bounds `10^(k-1) <= n < 10^k` fix the digit count k |
| Day11.SplitHalves | src/day11.rs:22-27 | splitting a stone with an even number k of digits: the left half has exactly k / 2 digits and the right half is below `10^(k/2)` |
| Day11.Rule | src/day11.rs:13-32 | 0 becomes 1, an odd digit count multiplies by 2024, and a stone always becomes one or two stones |
| Day11.RuleSplits | src/day11.rs:22-27 | a split stone is its two halves written side by side: `left * 10^(k/2) + right` with `right < 10^(k/2)` and the left half k / 2 digits long |
| Day11.LeftHalfDigits | src/day11.rs:24 | the left half of a stone with k digits (k even) is positive and has k / 2 digits |
| Day11.LeftHalf | src/day11.rs:24 | `stone / 10^(k/2)` is at most the stone, and `10^(k/2)` times it lies within `10^(k/2)` below the stone |
| Day11.Blink | src/day11.rs:5-39 | `blink` at depth 0 is the stone itself, and a stone becomes between 1 and `2^depth` stones |
| Day11.BlinkAll | src/day11.rs:34-37 | blinking a row stone by stone gives at least one and at most `2^depth` stones per stone |
| Day11.BlinkAllAppend | src/day11.rs:34-37 | blinking two rows in turn is blinking their concatenation |
| Day11.BlinkAllStep | src/day11.rs:34-37 | blinking once more is blinking the row after one blink |
| Day11.Step | src/day11.rs:13-37 | one blink of a row gives at least one and at most two stones per stone |
| Day11.BlinkAllNone | src/day11.rs:7-8 | blinking zero times leaves the row as it is |
| Day11.BlinkAllIsIterate | src/day11.rs:5-39 | the depth-first recursion gives the same row, in the same order, as blinking the whole row d times |
| Day11.ParseStones | src/day11.rs:44-45 | one stone per space-separated piece |
| Day11.StonesOf | src/day11.rs:43-45 | the input holds at least one stone |
| Day11.CountIsRowLength | src/day11.rs:41-55 | the count is the length of the row blinked `depth` times |
| Day11.CountStonesAfterBlink | src/day11.rs:42-54 | the count is at least the number of stones and at most `2^depth` times it |
| Day11.Part1 | src/day11.rs:41-47 | part 1 is the length of the row blinked 25 times |
| Day11.Part2 | src/day11.rs:48-54 | part 2 is the length of the row blinked 36 times |
| Text.DigitValue | src/day9.rs:44 | `to_digit(10)` of a decimal digit is below 10 |
| Text.DigitChar | src/day9.rs:44 | every value below 10 has a digit character that reads back as it |
| Text.DecimalString | src/day1.rs:26 | the decimal numeral of a number: all digits, no leading zero |
| Text.DecimalRoundTrip | src/day1.rs:26 | a printed number parses back to itself |
| Text.IndexOf | src/day4.rs:13 | `find('\n')`: none exactly when the character is absent, otherwise the first index holding it |
| Text.IndexOfUnique | src/day8.rs:15 | an occurrence with none before it is what `find` returns |
| Text.SplitOnce | src/day1.rs:28 | `split_once`: none exactly when the separator is absent, otherwise a first half free of it and the two halves one character shorter than the text |
| Text.SplitOnceJoins | src/day1.rs:28 | the two halves with the separator between them are the text |
| Text.SplitOnceFirst | src/day5.rs:74 | splitting once at a separator the first half lacks recovers both halves |
| Text.JoinExcludes | src/day2.rs:8 | joining pieces that lack a character with another separator does not introduce it |
| Text.Split | src/day2.rs:8 | `split(' ')`: at least one piece and no piece containing the separator |
| Text.SplitJoins | src/day2.rs:8 | the pieces joined with the separator are the text |
| Text.SplitJoin | src/day7.rs:65 | splitting joined pieces that lack the separator gives back the pieces |
| Text.Lines | src/day1.rs:27 | `lines()`: no line contains a newline, and only the empty text has no lines |
| Text.LinesOfText | src/day2.rs:6 | newline-terminated lines are read back as those lines |
| Text.LinesJoin | src/day6.rs:67 | the lines joined with newlines are the text without its final newline |
| Text.FirstLineWidth | src/day4.rs:13 | the first line of a text runs up to its first newline, so `find('\n')` is the first line's width |
| Text.TrimStart | src/day7.rs:64 | removing leading whitespace removes only whitespace and leaves a text that does not start with any |
| Text.TrimEnd | src/day7.rs:64 | removing trailing whitespace removes only whitespace and leaves a text that does not end with any |
| Text.Trim | src/day1.rs:26 | `trim()` leaves a text with no whitespace at either end, no longer than before |
| Text.TrimPadded | src/day1.rs:26 | trimming a padded text without whitespace at its ends gives that text |
| Text.FieldValue | src/day1.rs:26 | `trim().parse::<u32>().unwrap()` gives a value below 2^32 |
| Text.FieldRoundTrip | src/day1.rs:26 | a printed u32 after any whitespace parses back to itself |
| Text.ConcatIndex | src/day6.rs:67-108 | for lines of one width n, `flat_map(chars)` puts character (i, j) at index `i * n + j` |
| Text.ConcatLength | src/day8.rs:16-24 | lines of one width n flatten to `lines * n` characters |
| Text.ConcatSnoc | src/day6.rs:67 | one more line appends its characters |
| Sorting.Swap | src/day5.rs:120 | exchanging two elements of the array keeps its multiset |
| Sorting.SortBy | src/day5.rs:120 | `sort_by`/`sort_by_key` in place: a permutation of the input in which, for an asymmetric order, no element comes before its left neighbour |
| Sorting.InsertingStep | src/day5.rs:120 | one exchange of the insertion step keeps the insertion invariant |
| Sorting.InsertingDone | src/day5.rs:120 | when the inserted element stops, the prefix is in order |
| Sorting.Insert | src/day1.rs:42-43 | inserting into a sorted list adds exactly that element and keeps it sorted |
| Sorting.Sort | src/day1.rs:42-43 | `sort_unstable` on integers: an ascending permutation of the input |
| Sorting.SortedUnique | src/day1.rs:42-43 | two ascending arrangements of the same integers are the same list, so the sorted result does not depend on the sort |
| Sorting.SortIsUnique | src/day1.rs:42-43 | any ascending permutation of a list is its `Sort` |
| Sorting.AdjacentSorted | src/day1.rs:42-43 | neighbours in ascending order make the list ascending |
| Sorting.SortInts | src/day1.rs:5-6 | the in-place sort of an integer array computes `Sort` |

## Left out

- Integer widths. All arithmetic is on unbounded integers. The model does not capture:
  - the wrap-around of the `u16` number accumulators of day 3;
  - the `u32` sums of days 1 and 2;
  - day 3's `u32` total `result += left * right` (src/day3.rs:123,143,164);
  - day 5's `u32` sums of middle pages (src/day5.rs:97,107,123,142);
  - day 7's `usize` intermediate parts `a + b`, `a * b` and `a * 10usize.pow(b.ilog10() + 1) + b` (src/day7.rs:34,39,45). These exceed 2^64 on long equations, where a debug build panics and a release build wraps. The model computes the unbounded value, so an equation solvable only through a wrapped value is not solvable in the model;
  - `stone * 2024` on day 11;
  - the `usize` checksums of day 9;
  - the `u32` casts of the final counts.
  `Text.FieldValue` keeps the `u32` range check of `parse::<u32>()`.
- Day7.Equation: the `f64` target and the `f64` sum are modelled as natural numbers with an integer sum, so rounding is not captured.
- Day7.ConcatDefined: `ilog10` panics on 0. Part 2 therefore requires every part after the first to be positive, and part 1 does not.
- Parse failures: `unwrap()` and `panic!()` on malformed text are preconditions on well-formed input (`IsListText`, `MapText`, `StoneText`, `AllDigits`, …), not error paths.
- Day1.LeftValue: a line without a space yields 0. This case never arises under the `IsListText` precondition.
- Line endings: `lines()` also strips a `\r` before each `\n`. The model treats `\r` as an ordinary character.
- The `+` sign that `parse` accepts before a number is not modelled.
- Parallelism and shared cells:
  - `rayon` (`par_iter`, `par_bridge`) is modelled as sequential iteration of the same data;
  - the `Arc<RwLock<…>>` cells of days 6 and 10 are plain variables.
- `HashSet` is a Dafny `set`, and its iteration order is not modelled. Day 8 lists the frequencies in order of first appearance. Day 10's sum is proved independent of the order.
- The ndarray `Array2` is a Dafny `array2` on day 6 and a row-major sequence on days 4 and 10.
- Sorting.SortBy: an insertion sort stands in for Rust's `sort_by` and `sort_by_key`. Its result is proved a permutation, ordered whenever the order is asymmetric, but it is not proved to be the particular permutation Rust's sorts produce when `compare` is not a total order. Rust's `sort_by` (src/day5.rs:120,138) and `sort_by_key` are both stable. Day 5 is where this matters, because `compare` returns `Equal` for pages no rule covers. Stability is not modelled, and the model's placement of such `Equal` pairs is not proved to match Rust's.
- Day4.CountXmas: requires a grid of at least 3 by 3, where `dim - 3` in `get_xmas_directions` does not underflow.
- Day6.WalkMap: requires that the walk leaves the map. The source recurses without end when it does not.
- Day10.MapText: requires a square block of digits. The source also accepts two things the model does not represent. Its `from_shape_vec` (src/day10.rs:82) takes ragged lines as long as they hold dimension² cells in all. Its `ch as u8 - '0' as u8` (src/day10.rs:70) takes characters above '9', which give heights above 9.
- Day10.TrailheadScore: the contract states which ends are returned, but not how often each appears. The number of copies is the number of distinct trails, and this is not proved.
- Day9.CompactFiles: does not prove the following:
  - that moved files never overlap one another;
  - the exact final layout;
  - that the source's `space.size -= file.size` cannot underflow. This is implied by `Fits`, which the model checks before subtracting.
- Day9.ConsolidateMemoryFit: proves the loop's stopping state, in which no left-over free run fits a file to its left. It does not prove that the blocks a free run gives up are exactly those of the files moved into it. The left-over runs and the final offsets are therefore bounded but not pinned down, and neither is the checksum.
- Text widths and whitespace. `Text.IndexOf`, `Text.FirstLineWidth` and the widths of days 4, 6, 8 and 10 count characters, where Rust's `find` and `len` count UTF-8 bytes. The two agree on ASCII text only, and day 8 accepts any character as an antenna. `Text.Trim` strips only space, tab, `\n` and `\r`, where Rust's `trim` strips all Unicode whitespace.
- Day11.StoneText: `parse::<usize>()` bounds are not modelled. Any decimal numeral is accepted.
- Sample answers that need a long evaluation are not reproduced as lemmas:
  - day 3: 161 and 48;
  - day 4: 18;
  - day 5: 143 and 123;
  - day 6: 41;
  - day 7 totals: 3749 and 11387;
  - day 8: 14 and 34;
  - day 9: 1928 and 2858;
  - day 10: 36 and 81;
  - day 11: 55312.
  The individual day 7 equations, and the day 1 and day 2 samples, are proved.
- Excluded from the model:
  - the cargo-aoc harness attributes;
  - the `Display` impl of day 6 and the `#[cfg(test)]` `println!` of day 9;
  - the test functions themselves.

## Findings

| source | as written | input that shows it | evidently intended | confidence | as-written member | corrected member |
|---|---|---|---|---|---|---|
| src/day3.rs:120-128 | a character the generator rejects is consumed together with the failed attempt, so the scan restarts one character later and never re-reads it | `mmul(2,3)` yields 0 (the second `m` is eaten) | the rejected character starts a fresh attempt, so `mmul(2,3)` yields 6 | not executed | Day3.RejectedCharacterIsLost | Day3.RescanningKeepsRejectedCharacter, Day3.RescanningCountsEveryInstruction |
