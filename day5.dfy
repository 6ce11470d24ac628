/**
 * Day 5, page-ordering rules: a rule `l|t` asks that page l comes before page t in an
 * update; the sums take the middle page of the updates that keep (or, once sorted by the
 * rules, were made to keep) every rule.
 */
module Day5 {
  import opened Options
  import opened Text
  import opened Sorting

  /** A `u8` page number. */
  type PageId = n: nat | n < 256

  type Update = seq<PageId>

  datatype Rule = Rule(leading: PageId, trailing: PageId)

  datatype Ordering = Less | Equal | Greater

  /** Whether the rule is about the two pages, in either order. */
  predicate Mentions(rule: Rule, a: PageId, b: PageId) {
    (rule.leading == a && rule.trailing == b) || (rule.trailing == a && rule.leading == b)
  }

  /** The index of the first rule about a and b (`rules.iter().find`). */
  function FirstMention(rules: seq<Rule>, a: PageId, b: PageId): (r: Option<nat>)
    ensures r.None? <==> forall i :: 0 <= i < |rules| ==> !Mentions(rules[i], a, b)
    ensures r.Some? ==> r.value < |rules| && Mentions(rules[r.value], a, b)
    ensures r.Some? ==> forall i :: 0 <= i < r.value ==> !Mentions(rules[i], a, b)
  {
    if rules == [] then None
    else if Mentions(rules[0], a, b) then Some(0)
    else match FirstMention(rules[1..], a, b)
      case None => None
      case Some(k) => Some(k + 1)
  }

  /** `compare`: the first rule about a and b decides; without one the pages are equal. */
  function Compare(a: PageId, b: PageId, rules: seq<Rule>): (o: Ordering)
    ensures o == Equal <==> !Ruled(rules, a, b)
    ensures o == Less ==> Rule(a, b) in rules
    ensures o == Greater ==> Rule(b, a) in rules
  {
    match FirstMention(rules, a, b)
    case None => Equal
    case Some(i) => if rules[i].leading == a then Less else Greater
  }

  /**
   * The first rule about a and b decides their order, Less exactly when it puts a first;
   * Equal means no rule is about them.
   */
  lemma CompareFirstRule(a: PageId, b: PageId, rules: seq<Rule>, i: nat)
    requires i < |rules| && Mentions(rules[i], a, b)
    requires forall k :: 0 <= k < i ==> !Mentions(rules[k], a, b)
    ensures Compare(a, b, rules) == if rules[i].leading == a then Less else Greater
  {
    var f := FirstMention(rules, a, b);
    assert f.Some?;
  }

  lemma CompareEqual(a: PageId, b: PageId, rules: seq<Rule>)
    ensures Compare(a, b, rules) == Equal <==> forall i :: 0 <= i < |rules| ==> !Mentions(rules[i], a, b)
  {
  }

  /** For different pages, one comes before the other exactly when the other comes after it. */
  lemma CompareAntisymmetric(a: PageId, b: PageId, rules: seq<Rule>)
    requires a != b
    ensures Compare(a, b, rules) == Less <==> Compare(b, a, rules) == Greater
    ensures Compare(a, b, rules) == Equal <==> Compare(b, a, rules) == Equal
  {
    MentionsSymmetric(rules, a, b);
    var f := FirstMention(rules, a, b);
    if f.Some? {
      CompareFirstRule(b, a, rules, f.value);
    }
  }

  lemma MentionsSymmetric(rules: seq<Rule>, a: PageId, b: PageId)
    ensures FirstMention(rules, a, b) == FirstMention(rules, b, a)
  {
  }

  /** A rule about a page and itself. */
  predicate HasSelfRule(rules: seq<Rule>) {
    exists i :: 0 <= i < |rules| && rules[i].leading == rules[i].trailing
  }

  /** The relation `sort_by` is given: a comes strictly before b. */
  function Before(rules: seq<Rule>): (PageId, PageId) -> bool {
    (a: PageId, b: PageId) => Compare(a, b, rules) == Less
  }

  /** Without self-rules, no two pages each come strictly before the other. */
  lemma BeforeAsymmetric(rules: seq<Rule>)
    requires !HasSelfRule(rules)
    ensures Asymmetric(Before(rules))
  {
    forall a: PageId, b: PageId | Before(rules)(a, b)
      ensures !Before(rules)(b, a)
    {
      var i := FirstMention(rules, a, b).value;
      assert Mentions(rules[i], a, b);
      if a != b {
        CompareAntisymmetric(a, b, rules);
      }
    }
  }

  /** The first position of the page in the update. */
  function FirstIndex(update: Update, page: PageId): (r: Option<nat>)
    ensures r.None? <==> page !in update
    ensures r.Some? ==> r.value < |update| && update[r.value] == page && page !in update[..r.value]
    ensures r.Some? ==> forall k :: 0 <= k < r.value ==> update[k] != page
  {
    if update == [] then None
    else if update[0] == page then Some(0)
    else match FirstIndex(update[1..], page)
      case None => None
      case Some(k) => assert update[1..][..k] == update[1..k + 1]; Some(k + 1)
  }

  /**
   * `Rule::satisfied`: the rule fails when its trailing page occurs and its leading page
   * occurs at or after the first occurrence of the trailing page.
   */
  predicate Satisfied(rule: Rule, update: Update): (ok: bool)
    ensures !ok ==> rule.leading in update && rule.trailing in update
  {
    match FirstIndex(update, rule.trailing)
    case None => true
    case Some(t) => rule.leading !in update[t..]
  }

  /** A rule holds exactly when no trailing page is followed (or matched) by a leading page. */
  lemma SatisfiedIff(rule: Rule, update: Update)
    ensures Satisfied(rule, update) <==>
            forall i, j :: 0 <= i <= j < |update| && update[i] == rule.trailing ==> update[j] != rule.leading
  {
    match FirstIndex(update, rule.trailing)
    case None =>
    case Some(t) =>
      if !Satisfied(rule, update) {
        var j :| 0 <= j < |update[t..]| && update[t..][j] == rule.leading;
        assert update[t + j] == rule.leading;
      } else {
        forall i, j | 0 <= i <= j < |update| && update[i] == rule.trailing
          ensures update[j] != rule.leading
        {
          assert update[t..][j - t] == update[j];
        }
      }
  }

  /** A rule whose trailing page is absent holds. */
  lemma SatisfiedVacuously(rule: Rule, update: Update)
    requires rule.trailing !in update
    ensures Satisfied(rule, update)
  {
  }

  /** No page is followed, or matched, by a page that some rule puts before it. */
  predicate InRuleOrder(rules: seq<Rule>, update: Update) {
    forall p, q :: 0 <= p <= q < |update| ==> Rule(update[q], update[p]) !in rules
  }

  /** `check_rules_for_update`: every rule holds, which is the update being in rule order. */
  predicate CheckRules(rules: seq<Rule>, update: Update): (ok: bool)
    ensures ok <==> InRuleOrder(rules, update)
  {
    AllSatisfiedIff(rules, update);
    forall i :: 0 <= i < |rules| ==> Satisfied(rules[i], update)
  }

  lemma AllSatisfiedIff(rules: seq<Rule>, update: Update)
    ensures (forall i :: 0 <= i < |rules| ==> Satisfied(rules[i], update)) <==> InRuleOrder(rules, update)
  {
    if forall i :: 0 <= i < |rules| ==> Satisfied(rules[i], update) {
      forall p, q | 0 <= p <= q < |update|
        ensures Rule(update[q], update[p]) !in rules
      {
        if Rule(update[q], update[p]) in rules {
          var i :| 0 <= i < |rules| && rules[i] == Rule(update[q], update[p]);
          SatisfiedIff(rules[i], update);
        }
      }
    } else {
      var i :| 0 <= i < |rules| && !Satisfied(rules[i], update);
      SatisfiedIff(rules[i], update);
      var p, q :| 0 <= p <= q < |update| && update[p] == rules[i].trailing && update[q] == rules[i].leading;
      assert rules[i] == Rule(update[q], update[p]);
    }
  }

  /** `is_sorted_by(|a, b| compare(a, b, rules) == Less)`: each page comes strictly before the next. */
  predicate IsSortedBy(update: Update, rules: seq<Rule>) {
    forall k :: 0 <= k && k + 1 < |update| ==> Compare(update[k], update[k + 1], rules) == Less
  }

  /** Some rule is about the two pages. */
  predicate Ruled(rules: seq<Rule>, a: PageId, b: PageId) {
    exists i :: 0 <= i < |rules| && Mentions(rules[i], a, b)
  }

  /** Neighbouring pages differ and some rule is about them. */
  predicate NeighboursRuled(update: Update, rules: seq<Rule>) {
    forall k :: 0 <= k && k + 1 < |update| ==> update[k] != update[k + 1] && Ruled(rules, update[k], update[k + 1])
  }

  /**
   * When every pair of neighbours is different and ruled on, an update that keeps every rule
   * passes the sortedness check too.
   */
  lemma CheckedIsSorted(rules: seq<Rule>, update: Update)
    requires CheckRules(rules, update) && NeighboursRuled(update, rules)
    ensures IsSortedBy(update, rules)
  {
    forall k | 0 <= k && k + 1 < |update|
      ensures Compare(update[k], update[k + 1], rules) == Less
    {
      var a, b := update[k], update[k + 1];
      var i := FirstMention(rules, a, b).value;
      SatisfiedIff(rules[i], update);
      assert Satisfied(rules[i], update);
      assert update[k] == a && update[k + 1] == b;
    }
  }

  /**
   * Without a rule about two neighbours the variants part ways: with no rules,
   * `[1, 2, 3]` keeps every rule, yet `compare` calls its neighbours `Equal`, so
   * `sum_middle_pages` counts its middle page and `sum_middle_pages_fast` does not.
   */
  lemma UnruledNeighboursDiverge()
    ensures CheckRules([], [1, 2, 3]) && !IsSortedBy([1, 2, 3], [])
    ensures SumMiddlePages([], [[1, 2, 3]]) == 2 && SumMiddlePagesFast([], [[1, 2, 3]]) == 0
  {
    var u: Update := [1, 2, 3];
    assert Compare(u[0], u[1], []) == Equal;
    assert [[1, 2, 3]][..0] == [];
  }

  /* The middle-page sums. */

  predicate AllNonEmpty(updates: seq<Update>) {
    forall k :: 0 <= k < |updates| ==> |updates[k]| > 0
  }

  /** `update[update.len() / 2]`. */
  function Middle(update: Update): (p: PageId)
    requires |update| > 0
    ensures p in update
    ensures |update| % 2 == 1 ==> p == update[|update| - 1 - |update| / 2]
  {
    update[|update| / 2]
  }

  /** The sum of the middle pages. */
  function MiddleSum(updates: seq<Update>): nat
    requires AllNonEmpty(updates)
  {
    if updates == [] then 0 else MiddleSum(updates[..|updates| - 1]) + Middle(updates[|updates| - 1])
  }

  /** The updates the predicate keeps, in order. */
  function Filter(updates: seq<Update>, keep: Update -> bool): (r: seq<Update>)
    ensures AllNonEmpty(updates) ==> AllNonEmpty(r)
    ensures |r| <= |updates|
  {
    if updates == [] then []
    else
      var init := Filter(updates[..|updates| - 1], keep);
      if keep(updates[|updates| - 1]) then init + [updates[|updates| - 1]] else init
  }

  /** The updates that keep every rule. */
  function Passing(rules: seq<Rule>, updates: seq<Update>): (r: seq<Update>)
    ensures AllNonEmpty(updates) ==> AllNonEmpty(r)
  {
    Filter(updates, u => CheckRules(rules, u))
  }

  function Failing(rules: seq<Rule>, updates: seq<Update>): (r: seq<Update>)
    ensures AllNonEmpty(updates) ==> AllNonEmpty(r)
  {
    Filter(updates, u => !CheckRules(rules, u))
  }

  function Unsorted(rules: seq<Rule>, updates: seq<Update>): (r: seq<Update>)
    ensures AllNonEmpty(updates) ==> AllNonEmpty(r)
  {
    Filter(updates, u => !IsSortedBy(u, rules))
  }

  /**
   * `sum_middle_pages`: the middle pages of the updates that keep every rule,
   * which together with those of the failing updates make up all middle pages.
   */
  function SumMiddlePages(rules: seq<Rule>, updates: seq<Update>): (sum: nat)
    requires AllNonEmpty(updates)
    ensures sum + MiddleSum(Failing(rules, updates)) == MiddleSum(updates)
  {
    var keep := (u: Update) => CheckRules(rules, u);
    FilterPartition(updates, keep);
    FilterSame(updates, u => !keep(u), u => !CheckRules(rules, u));
    FilterSame(updates, keep, u => CheckRules(rules, u));
    MiddleSum(Passing(rules, updates))
  }

  /**
   * `sum_middle_pages_fast`: the middle pages of the updates already sorted by
   * `compare`, which together with those of the unsorted updates make up all
   * middle pages.
   */
  function SumMiddlePagesFast(rules: seq<Rule>, updates: seq<Update>): (sum: nat)
    requires AllNonEmpty(updates)
    ensures sum + MiddleSum(Unsorted(rules, updates)) == MiddleSum(updates)
  {
    var keep := (u: Update) => IsSortedBy(u, rules);
    FilterPartition(updates, keep);
    FilterSame(updates, u => !keep(u), u => !IsSortedBy(u, rules));
    MiddleSum(Filter(updates, keep))
  }

  lemma {:induction false} MiddleSumAppend(us: seq<Update>, vs: seq<Update>)
    requires AllNonEmpty(us) && AllNonEmpty(vs)
    ensures AllNonEmpty(us + vs) && MiddleSum(us + vs) == MiddleSum(us) + MiddleSum(vs)
    decreases |vs|
  {
    if vs == [] {
      assert us + vs == us;
    } else {
      var init := vs[..|vs| - 1];
      assert (us + vs)[..|us + vs| - 1] == us + init;
      MiddleSumAppend(us, init);
    }
  }

  /** What a filter keeps and what its negation keeps add up to every middle page. */
  lemma {:induction false} FilterPartition(updates: seq<Update>, keep: Update -> bool)
    requires AllNonEmpty(updates)
    ensures MiddleSum(Filter(updates, keep)) + MiddleSum(Filter(updates, u => !keep(u))) == MiddleSum(updates)
    decreases |updates|
  {
    if updates != [] {
      var init := updates[..|updates| - 1];
      var last := updates[|updates| - 1];
      FilterPartition(init, keep);
      MiddleSumAppend(Filter(init, keep), [last]);
      MiddleSumAppend(Filter(init, u => !keep(u)), [last]);
    }
  }

  lemma {:induction false} FilterSame(updates: seq<Update>, p: Update -> bool, q: Update -> bool)
    requires forall u :: p(u) == q(u)
    ensures Filter(updates, p) == Filter(updates, q)
    decreases |updates|
  {
    if updates != [] {
      FilterSame(updates[..|updates| - 1], p, q);
    }
  }

  /** A filter keeps only updates it accepts. */
  lemma {:induction false} FilterKeeps(updates: seq<Update>, keep: Update -> bool)
    ensures forall k :: 0 <= k < |Filter(updates, keep)| ==> keep(Filter(updates, keep)[k])
    decreases |updates|
  {
    if updates != [] {
      FilterKeeps(updates[..|updates| - 1], keep);
    }
  }

  /* The ordered sums sort the updates they take. */

  /**
   * Each update of `sorted` rearranges the corresponding one of `updates` and, without
   * self-rules, has no page that comes strictly before its left neighbour.
   */
  ghost predicate Rearranged(rules: seq<Rule>, updates: seq<Update>, sorted: seq<Update>) {
    && |sorted| == |updates|
    && forall k :: 0 <= k < |sorted| ==>
         && multiset(sorted[k]) == multiset(updates[k])
         && (!HasSelfRule(rules) ==> AdjacentOrdered(sorted[k], 0, |sorted[k]|, Before(rules)))
  }

  /** `update.sort_by(|a, b| compare(a, b, rules))` on a copy of the update. */
  method SortUpdate(rules: seq<Rule>, update: Update) returns (sorted: Update)
    ensures multiset(sorted) == multiset(update) && |sorted| == |update|
    ensures !HasSelfRule(rules) ==> AdjacentOrdered(sorted, 0, |sorted|, Before(rules))
  {
    var a := new PageId[|update|](i requires 0 <= i < |update| => update[i]);
    assert a[..] == update;
    SortBy(a, Before(rules));
    sorted := a[..];
    if !HasSelfRule(rules) {
      BeforeAsymmetric(rules);
    }
    assert |sorted| == |multiset(sorted)| == |multiset(update)| == |update|;
  }

  /** One more sorted update extends the rearrangement and adds its middle page to the sum. */
  lemma RearrangedSnoc(rules: seq<Rule>, updates: seq<Update>, k: nat, sorted: seq<Update>, s: Update)
    requires k < |updates| && AllNonEmpty(updates)
    requires Rearranged(rules, updates[..k], sorted) && AllNonEmpty(sorted)
    requires multiset(s) == multiset(updates[k]) && |s| == |updates[k]|
    requires !HasSelfRule(rules) ==> AdjacentOrdered(s, 0, |s|, Before(rules))
    ensures Rearranged(rules, updates[..k + 1], sorted + [s]) && AllNonEmpty(sorted + [s])
    ensures |s| > 0 && MiddleSum(sorted + [s]) == MiddleSum(sorted) + s[|s| / 2]
  {
    assert |updates[k]| > 0;
    assert (sorted + [s])[..|sorted|] == sorted;
    assert updates[..k + 1][..k] == updates[..k];
  }

  /** Sorts the given updates one by one and sums their middle pages. */
  method SortAndSum(rules: seq<Rule>, updates: seq<Update>) returns (sum: nat, sorted: seq<Update>)
    requires AllNonEmpty(updates)
    ensures Rearranged(rules, updates, sorted) && AllNonEmpty(sorted)
    ensures sum == MiddleSum(sorted)
  {
    sum := 0;
    sorted := [];
    for k := 0 to |updates|
      invariant Rearranged(rules, updates[..k], sorted) && AllNonEmpty(sorted)
      invariant sum == MiddleSum(sorted)
    {
      var s := SortUpdate(rules, updates[k]);
      RearrangedSnoc(rules, updates, k, sorted, s);
      sorted := sorted + [s];
      sum := sum + s[|s| / 2];
    }
    assert updates[..|updates|] == updates;
  }

  /**
   * `sum_middle_pages_ordered`: the middle pages of the updates that break some rule,
   * once sorted by `compare`.
   */
  method SumMiddlePagesOrdered(rules: seq<Rule>, updates: seq<Update>) returns (sum: nat, sorted: seq<Update>)
    requires AllNonEmpty(updates)
    ensures Rearranged(rules, Failing(rules, updates), sorted) && AllNonEmpty(sorted)
    ensures sum == MiddleSum(sorted)
  {
    sum, sorted := SortAndSum(rules, Failing(rules, updates));
  }

  /** `sum_middle_pages_ordered_fast`: as above, for the updates not already sorted by `compare`. */
  method SumMiddlePagesOrderedFast(rules: seq<Rule>, updates: seq<Update>) returns (sum: nat, sorted: seq<Update>)
    requires AllNonEmpty(updates)
    ensures Rearranged(rules, Unsorted(rules, updates), sorted) && AllNonEmpty(sorted)
    ensures sum == MiddleSum(sorted)
  {
    sum, sorted := SortAndSum(rules, Unsorted(rules, updates));
  }

  /** When every update keeps every rule, there is nothing to reorder. */
  lemma {:induction false} NothingFailing(rules: seq<Rule>, updates: seq<Update>)
    requires forall k :: 0 <= k < |updates| ==> CheckRules(rules, updates[k])
    ensures Failing(rules, updates) == []
    decreases |updates|
  {
    if updates != [] {
      NothingFailing(rules, updates[..|updates| - 1]);
    }
  }

  /* Reading the puzzle input. */

  /** A field that `parse::<u8>()` accepts (a leading `+` is not modelled). */
  predicate IsPageField(s: string) {
    IsDecimal(s) && DecimalValue(s) < 256
  }

  function PageValue(s: string): PageId
    requires IsPageField(s)
  {
    DecimalValue(s)
  }

  /** `l|t` with two page numbers. */
  predicate IsRuleLine(line: string) {
    var halves := SplitOnce(line, '|');
    halves.Some? && IsPageField(halves.value.0) && IsPageField(halves.value.1)
  }

  function ParseRule(line: string): (r: Rule)
    requires IsRuleLine(line)
    ensures exists l, t :: line == l + "|" + t && '|' !in l && IsPageField(l) && IsPageField(t) && r == Rule(PageValue(l), PageValue(t))
  {
    SplitOnceJoins(line, '|');
    var halves := SplitOnce(line, '|').value;
    Rule(PageValue(halves.0), PageValue(halves.1))
  }

  /** Comma-separated page numbers. */
  predicate IsUpdateLine(line: string) {
    forall i :: 0 <= i < |Split(line, ',')| ==> IsPageField(Split(line, ',')[i])
  }

  function ParseUpdate(line: string): (u: Update)
    requires IsUpdateLine(line)
    ensures |u| == |Split(line, ',')| > 0
  {
    var parts := Split(line, ',');
    seq(|parts|, i requires 0 <= i < |parts| => PageValue(parts[i]))
  }

  /** The fold's accumulator: whether the empty line was seen, and what was read so far. */
  datatype ParseState = ParseState(rulesDone: bool, rules: seq<Rule>, updates: seq<Update>)

  /** A line the fold can read in the given state without panicking. */
  predicate LineReadable(rulesDone: bool, line: string) {
    line == "" || (if rulesDone then IsUpdateLine(line) else IsRuleLine(line))
  }

  /** One step of the fold: an empty line ends the rules, other lines are rules or updates. */
  function ReadLine(state: ParseState, line: string): (r: ParseState)
    requires LineReadable(state.rulesDone, line)
    ensures r.rulesDone == (state.rulesDone || line == "")
    ensures |r.rules| + |r.updates| == |state.rules| + |state.updates| + (if line == "" then 0 else 1)
    ensures state.rulesDone ==> r.rules == state.rules
    ensures !state.rulesDone ==> r.updates == state.updates
  {
    if line == "" then state.(rulesDone := true)
    else if state.rulesDone then state.(updates := state.updates + [ParseUpdate(line)])
    else state.(rules := state.rules + [ParseRule(line)])
  }

  /** Every line can be read in the state the lines before it leave: after an empty line, updates. */
  predicate Readable(lines: seq<string>) {
    forall k :: 0 <= k < |lines| ==> LineReadable("" in lines[..k], lines[k])
  }

  lemma ReadablePrefix(lines: seq<string>, n: nat)
    requires Readable(lines) && n <= |lines|
    ensures Readable(lines[..n])
  {
    forall k | 0 <= k < n
      ensures LineReadable("" in lines[..n][..k], lines[..n][k])
    {
      assert lines[..n][..k] == lines[..k];
    }
  }

  /** The fold over the lines. */
  function ReadAll(lines: seq<string>): (r: ParseState)
    requires Readable(lines)
    ensures AllNonEmpty(r.updates)
    ensures r.rulesDone == ("" in lines)
  {
    if lines == [] then ParseState(false, [], [])
    else
      var init := lines[..|lines| - 1];
      ReadablePrefix(lines, |lines| - 1);
      assert lines == init + [lines[|lines| - 1]];
      ReadLine(ReadAll(init), lines[|lines| - 1])
  }

  /** Reading one more line is one more step of the fold. */
  lemma ReadSnoc(lines: seq<string>, line: string)
    requires Readable(lines) && LineReadable("" in lines, line)
    ensures Readable(lines + [line])
    ensures ReadAll(lines + [line]) == ReadLine(ReadAll(lines), line)
  {
    var all := lines + [line];
    forall k | 0 <= k < |all|
      ensures LineReadable("" in all[..k], all[k])
    {
      if k < |lines| {
        assert all[..k] == lines[..k];
      } else {
        assert all[..k] == lines;
      }
    }
    assert all[..|all| - 1] == lines;
  }

  /** `generator`: the rules and the updates of the puzzle input. */
  function Generator(input: string): (r: (seq<Rule>, seq<Update>))
    requires Readable(Lines(input))
    ensures AllNonEmpty(r.1)
  {
    var state := ReadAll(Lines(input));
    (state.rules, state.updates)
  }

  /** `sum_middle_pages_direct` (part 1): the middle pages of the parsed updates that are sorted. */
  function SumMiddlePagesDirect(input: string): (sum: nat)
    requires Readable(Lines(input))
    ensures sum + MiddleSum(Unsorted(Generator(input).0, Generator(input).1)) == MiddleSum(Generator(input).1)
  {
    SumMiddlePagesFast(Generator(input).0, Generator(input).1)
  }

  /** `sum_middle_pages_ordered_direct` (part 2). */
  method SumMiddlePagesOrderedDirect(input: string) returns (sum: nat, sorted: seq<Update>)
    requires Readable(Lines(input))
    ensures Rearranged(Generator(input).0, Unsorted(Generator(input).0, Generator(input).1), sorted)
    ensures sum == MiddleSum(sorted)
  {
    var (rules, updates) := Generator(input);
    sum, sorted := SumMiddlePagesOrderedFast(rules, updates);
  }

  /* Writing the puzzle input back. */

  function RuleLine(rule: Rule): string {
    DecimalString(rule.leading) + "|" + DecimalString(rule.trailing)
  }

  function UpdateFields(update: Update): seq<string> {
    seq(|update|, i requires 0 <= i < |update| => DecimalString(update[i]))
  }

  function UpdateLine(update: Update): string {
    Join(UpdateFields(update), ',')
  }

  function RuleLines(rules: seq<Rule>): (lines: seq<string>)
    ensures |lines| == |rules| && forall i :: 0 <= i < |rules| ==> lines[i] == RuleLine(rules[i])
  {
    if rules == [] then [] else RuleLines(rules[..|rules| - 1]) + [RuleLine(rules[|rules| - 1])]
  }

  function UpdateLines(updates: seq<Update>): (lines: seq<string>)
    ensures |lines| == |updates| && forall i :: 0 <= i < |updates| ==> lines[i] == UpdateLine(updates[i])
  {
    if updates == [] then [] else UpdateLines(updates[..|updates| - 1]) + [UpdateLine(updates[|updates| - 1])]
  }

  /** The rules, an empty line and the updates, one per line. */
  function PuzzleText(rules: seq<Rule>, updates: seq<Update>): string {
    Join(RuleLines(rules) + [""] + UpdateLines(updates), '\n') + "\n"
  }

  lemma RuleLineRoundTrip(rule: Rule)
    ensures RuleLine(rule) != "" && IsRuleLine(RuleLine(rule)) && ParseRule(RuleLine(rule)) == rule
    ensures '\n' !in RuleLine(rule)
  {
    var l, t := DecimalString(rule.leading), DecimalString(rule.trailing);
    DigitsExclude(l, '|');
    DigitsExclude(l, '\n');
    DigitsExclude(t, '\n');
    SplitOnceFirst(l, t, '|');
    DecimalRoundTrip(rule.leading);
    DecimalRoundTrip(rule.trailing);
  }

  lemma UpdateLineRoundTrip(update: Update)
    requires |update| > 0
    ensures UpdateLine(update) != "" && IsUpdateLine(UpdateLine(update)) && ParseUpdate(UpdateLine(update)) == update
    ensures '\n' !in UpdateLine(update)
  {
    var fields := UpdateFields(update);
    forall i | 0 <= i < |fields|
      ensures DecimalValue(fields[i]) == update[i]
    {
      DecimalRoundTrip(update[i]);
    }
    forall i | 0 <= i < |fields|
      ensures ',' !in fields[i] && '\n' !in fields[i] && IsPageField(fields[i]) && PageValue(fields[i]) == update[i]
    {
      DigitsExclude(fields[i], ',');
      DigitsExclude(fields[i], '\n');
    }
    SplitJoin(fields, ',');
    JoinExcludes(fields, ',', '\n');
    SplitJoins(UpdateLine(update), ',');
    assert Split(UpdateLine(update), ',') == fields;
  }

  lemma {:induction false} ReadRules(rules: seq<Rule>)
    ensures Readable(RuleLines(rules)) && ReadAll(RuleLines(rules)) == ParseState(false, rules, [])
    decreases |rules|
  {
    if rules == [] {
      assert RuleLines(rules) == [];
    } else {
      var init := rules[..|rules| - 1];
      var last := rules[|rules| - 1];
      ReadRules(init);
      RuleLinesNotBlank(init);
      ReadRuleLine(ReadAll(RuleLines(init)), last);
      ReadSnoc(RuleLines(init), RuleLine(last));
      assert RuleLines(rules) == RuleLines(init) + [RuleLine(last)];
    }
  }

  lemma RuleLinesNotBlank(rules: seq<Rule>)
    ensures "" !in RuleLines(rules)
  {
    forall i | 0 <= i < |rules| ensures RuleLines(rules)[i] != "" {
      RuleLineRoundTrip(rules[i]);
    }
  }

  /** Before the empty line, a written rule is read back and appended. */
  lemma ReadRuleLine(state: ParseState, rule: Rule)
    requires !state.rulesDone
    ensures LineReadable(false, RuleLine(rule))
    ensures ReadLine(state, RuleLine(rule)) == state.(rules := state.rules + [rule])
  {
    RuleLineRoundTrip(rule);
  }

  lemma ReadUpdates(rules: seq<Rule>, updates: seq<Update>)
    requires AllNonEmpty(updates)
    ensures Readable(RuleLines(rules) + [""] + UpdateLines(updates))
    ensures ReadAll(RuleLines(rules) + [""] + UpdateLines(updates)) == ParseState(true, rules, updates)
  {
    ReadRules(rules);
    ReadSnoc(RuleLines(rules), "");
    var head := RuleLines(rules) + [""];
    assert "" in head by {
      assert head[|head| - 1] == "";
    }
    ReadUpdateLines(head, rules, updates);
  }

  /** After the empty line, each update line read appends its update. */
  lemma {:induction false} ReadUpdateLines(head: seq<string>, rules: seq<Rule>, updates: seq<Update>)
    requires AllNonEmpty(updates)
    requires Readable(head) && "" in head && ReadAll(head) == ParseState(true, rules, [])
    ensures Readable(head + UpdateLines(updates))
    ensures ReadAll(head + UpdateLines(updates)) == ParseState(true, rules, updates)
    decreases |updates|
  {
    if updates == [] {
      assert head + UpdateLines(updates) == head;
    } else {
      var init := updates[..|updates| - 1];
      var last := updates[|updates| - 1];
      assert updates == init + [last];
      ReadUpdateLines(head, rules, init);
      ReadUpdateLine(head, rules, init, last);
    }
  }

  /** The lines of one more update end with that update's line. */
  lemma UpdateLinesSnoc(head: seq<string>, init: seq<Update>, last: Update)
    ensures head + UpdateLines(init + [last]) == (head + UpdateLines(init)) + [UpdateLine(last)]
  {
    assert (init + [last])[..|init|] == init;
  }

  /** One update line read after the empty line appends that update. */
  lemma ReadUpdateLine(head: seq<string>, rules: seq<Rule>, init: seq<Update>, last: Update)
    requires |last| > 0 && "" in head
    requires Readable(head + UpdateLines(init)) && ReadAll(head + UpdateLines(init)) == ParseState(true, rules, init)
    ensures Readable(head + UpdateLines(init + [last]))
    ensures ReadAll(head + UpdateLines(init + [last])) == ParseState(true, rules, init + [last])
  {
    var lines := head + UpdateLines(init);
    UpdateLinesSnoc(head, init, last);
    assert "" in lines by {
      var k :| 0 <= k < |head| && head[k] == "";
      assert lines[k] == "";
    }
    UpdateLineRoundTrip(last);
    ReadSnoc(lines, UpdateLine(last));
    assert ReadLine(ParseState(true, rules, init), UpdateLine(last)) == ParseState(true, rules, init + [last]);
  }

  /** Rules and non-empty updates written out are read back by `generator`. */
  lemma GeneratorRoundTrip(rules: seq<Rule>, updates: seq<Update>)
    requires AllNonEmpty(updates)
    ensures Readable(Lines(PuzzleText(rules, updates)))
    ensures Generator(PuzzleText(rules, updates)) == (rules, updates)
  {
    var lines := RuleLines(rules) + [""] + UpdateLines(updates);
    forall i | 0 <= i < |lines|
      ensures '\n' !in lines[i]
    {
      if i < |rules| {
        RuleLineRoundTrip(rules[i]);
      } else if i > |rules| {
        UpdateLineRoundTrip(updates[i - |rules| - 1]);
      }
    }
    LinesOfText(lines);
    ReadUpdates(rules, updates);
  }
}
