/**
 * Day 1, list reconciliation: two columns of numbers are read from text; the total
 * distance pairs the columns after sorting each, and the similarity score weighs every
 * left number by how often it occurs on the right.
 */
module Day1 {
  import opened Options
  import opened Text
  import opened Sorting

  /** `line.split_once(' ')` with both sides read by `parse`; `None` where an `unwrap` would panic. */
  function ParseListLine(line: string): (r: Option<(nat, nat)>)
    ensures r.Some? ==> ' ' in line && r.value.0 < U32_LIMIT && r.value.1 < U32_LIMIT
  {
    match SplitOnce(line, ' ')
    case None => None
    case Some((l, r)) =>
      if IsNumberField(l) && IsNumberField(r) then Some((FieldValue(l), FieldValue(r))) else None
  }

  /** A line that `input_generator` accepts. */
  predicate IsListLine(line: string) {
    ParseListLine(line).Some?
  }

  predicate IsListText(input: string) {
    forall i :: 0 <= i < |Lines(input)| ==> IsListLine(Lines(input)[i])
  }

  /** The number before the first space of a line (0 for a line that is rejected). */
  function LeftValue(line: string): (v: nat)
    ensures v < U32_LIMIT
    ensures IsListLine(line) ==> ParseListLine(line) == Some((v, RightValue(line)))
  {
    match ParseListLine(line)
    case Some((l, _)) => l
    case None => 0
  }

  /** The number after the first space of a line (0 for a line that is rejected). */
  function RightValue(line: string): (v: nat)
    ensures v < U32_LIMIT
  {
    match ParseListLine(line)
    case Some((_, r)) => r
    case None => 0
  }

  /** The left numbers of the lines, in order. */
  function LeftColumn(lines: seq<string>): (column: seq<nat>)
    ensures |column| == |lines|
    ensures forall i :: 0 <= i < |lines| ==> column[i] == LeftValue(lines[i])
  {
    if lines == [] then [] else LeftColumn(lines[..|lines| - 1]) + [LeftValue(lines[|lines| - 1])]
  }

  /** The right numbers of the lines, in order. */
  function RightColumn(lines: seq<string>): (column: seq<nat>)
    ensures |column| == |lines|
    ensures forall i :: 0 <= i < |lines| ==> column[i] == RightValue(lines[i])
  {
    if lines == [] then [] else RightColumn(lines[..|lines| - 1]) + [RightValue(lines[|lines| - 1])]
  }

  /** The columns of one more line end with that line's numbers. */
  lemma ColumnsSnoc(lines: seq<string>, k: nat)
    requires k < |lines|
    ensures LeftColumn(lines[..k + 1]) == LeftColumn(lines[..k]) + [LeftValue(lines[k])]
    ensures RightColumn(lines[..k + 1]) == RightColumn(lines[..k]) + [RightValue(lines[k])]
  {
    assert lines[..k + 1][..k] == lines[..k];
  }

  /** `input_generator`: one entry per line in each list, in line order. */
  method InputGenerator(input: string) returns (left: seq<nat>, right: seq<nat>)
    requires IsListText(input)
    ensures left == LeftColumn(Lines(input)) && right == RightColumn(Lines(input))
  {
    var lines := Lines(input);
    left, right := [], [];
    for k := 0 to |lines|
      invariant left == LeftColumn(lines[..k]) && right == RightColumn(lines[..k])
    {
      ColumnsSnoc(lines, k);
      left := left + [LeftValue(lines[k])];
      right := right + [RightValue(lines[k])];
    }
    assert lines[..|lines|] == lines;
  }

  /** The text of two equally long lists, one `left   right` pair per line. */
  function ListText(left: seq<nat>, right: seq<nat>): string
    requires |left| == |right|
  {
    Join(seq(|left|, i requires 0 <= i < |left| => ListLine(left[i], right[i])), '\n') + "\n"
  }

  function ListLine(l: nat, r: nat): string {
    DecimalString(l) + "   " + DecimalString(r)
  }

  /** The first space of a line ends the left number. */
  lemma LineSplits(l: nat, r: nat)
    ensures SplitOnce(ListLine(l, r), ' ') == Some((DecimalString(l), "  " + DecimalString(r)))
  {
    var dl, rest := DecimalString(l), "  " + DecimalString(r);
    DigitsExclude(dl, ' ');
    assert ListLine(l, r) == dl + [' '] + rest;
    SplitOnceFirst(dl, rest, ' ');
  }

  lemma LineRoundTrip(l: nat, r: nat)
    requires l < U32_LIMIT && r < U32_LIMIT
    ensures ParseListLine(ListLine(l, r)) == Some((l, r))
  {
    LineSplits(l, r);
    FieldRoundTrip([], l);
    assert [] + DecimalString(l) == DecimalString(l);
    FieldRoundTrip("  ", r);
  }

  /** The lines of the text of two lists are the pairs, one per line. */
  lemma ListTextLines(left: seq<nat>, right: seq<nat>)
    requires |left| == |right| > 0
    ensures Lines(ListText(left, right)) == seq(|left|, i requires 0 <= i < |left| => ListLine(left[i], right[i]))
  {
    var lines := seq(|left|, i requires 0 <= i < |left| => ListLine(left[i], right[i]));
    forall i | 0 <= i < |lines|
      ensures '\n' !in lines[i]
    {
      NoNewline(left[i], right[i]);
    }
    LinesOfText(lines);
  }

  /** Reading the text of two lists gives back the two lists. */
  lemma ListTextRoundTrip(left: seq<nat>, right: seq<nat>)
    requires |left| == |right| > 0
    requires forall i :: 0 <= i < |left| ==> left[i] < U32_LIMIT && right[i] < U32_LIMIT
    ensures IsListText(ListText(left, right))
    ensures LeftColumn(Lines(ListText(left, right))) == left && RightColumn(Lines(ListText(left, right))) == right
  {
    var lines := seq(|left|, i requires 0 <= i < |left| => ListLine(left[i], right[i]));
    ListTextLines(left, right);
    forall i | 0 <= i < |lines|
      ensures IsListLine(lines[i]) && LeftValue(lines[i]) == left[i] && RightValue(lines[i]) == right[i]
    {
      LineRoundTrip(left[i], right[i]);
    }
  }

  lemma NoNewline(l: nat, r: nat)
    ensures '\n' !in ListLine(l, r)
  {
    DigitsExclude(DecimalString(l), '\n');
    DigitsExclude(DecimalString(r), '\n');
  }

  /* Part 1: total distance. */

  function Min(a: nat, b: nat): nat {
    if a <= b then a else b
  }

  /** `abs_diff`. */
  function Distance(a: int, b: int): nat {
    if a <= b then b - a else a - b
  }

  /** Σ |a[i] - b[i]| over the first n positions. */
  function PairwiseDistance(a: seq<int>, b: seq<int>, n: nat): nat
    requires n <= |a| && n <= |b|
  {
    if n == 0 then 0 else PairwiseDistance(a, b, n - 1) + Distance(a[n - 1], b[n - 1])
  }

  /** The distance of the two lists: their sorted versions, zipped (to the shorter length). */
  function TotalDistance(left: seq<int>, right: seq<int>): nat {
    PairwiseDistance(Sort(left), Sort(right), Min(|left|, |right|))
  }

  /** `zip(..).map(abs_diff).sum()`: the distances of the pairs, up to the shorter length. */
  method SumDistances(a: seq<int>, b: seq<int>) returns (d: nat)
    ensures d == PairwiseDistance(a, b, Min(|a|, |b|))
  {
    d := 0;
    for i := 0 to Min(|a|, |b|)
      invariant d == PairwiseDistance(a, b, i)
    {
      d := d + Distance(a[i], b[i]);
    }
  }

  /** `get_total_distance_parsed`: sorts copies of both lists and sums the zipped distances. */
  method GetTotalDistanceParsed(left: seq<nat>, right: seq<nat>) returns (d: nat)
    ensures d == TotalDistance(left, right)
  {
    var listLeft := new int[|left|](i requires 0 <= i < |left| => left[i]);
    var listRight := new int[|right|](i requires 0 <= i < |right| => right[i]);
    assert listLeft[..] == left && listRight[..] == right;
    SortInts(listLeft);
    SortInts(listRight);
    d := SumDistances(listLeft[..], listRight[..]);
  }

  /** `get_total_distance_direct`: the same sort and sum on the lists read from the text. */
  method GetTotalDistanceDirect(input: string) returns (d: nat)
    requires IsListText(input)
    ensures d == TotalDistance(LeftColumn(Lines(input)), RightColumn(Lines(input)))
  {
    var left, right := InputGenerator(input);
    d := GetTotalDistanceParsed(left, right);
  }

  lemma {:induction false} PairwiseDistanceSymmetric(a: seq<int>, b: seq<int>, n: nat)
    requires n <= |a| && n <= |b|
    ensures PairwiseDistance(a, b, n) == PairwiseDistance(b, a, n)
  {
    if n > 0 {
      PairwiseDistanceSymmetric(a, b, n - 1);
    }
  }

  /** Swapping the two lists does not change the distance. */
  lemma DistanceSymmetric(left: seq<int>, right: seq<int>)
    ensures TotalDistance(left, right) == TotalDistance(right, left)
  {
    PairwiseDistanceSymmetric(Sort(left), Sort(right), Min(|left|, |right|));
  }

  /** Only the numbers in each list matter, not their order. */
  lemma DistanceIgnoresOrder(left: seq<int>, left': seq<int>, right: seq<int>)
    requires multiset(left) == multiset(left')
    ensures TotalDistance(left, right) == TotalDistance(left', right)
  {
    SortedUnique(Sort(left), Sort(left'));
    assert |left| == |multiset(left)| == |left'|;
  }

  lemma {:induction false} PairwiseDistanceZero(a: seq<int>, b: seq<int>, n: nat)
    requires n <= |a| && n <= |b|
    ensures PairwiseDistance(a, b, n) == 0 <==> a[..n] == b[..n]
  {
    if n > 0 {
      PairwiseDistanceZero(a, b, n - 1);
      assert a[..n] == a[..n - 1] + [a[n - 1]];
      assert b[..n] == b[..n - 1] + [b[n - 1]];
      if a[..n] == b[..n] {
        assert a[..n - 1] == a[..n][..n - 1];
        assert b[..n - 1] == b[..n][..n - 1];
      }
    }
  }

  /** Two lists of the same length are at distance 0 exactly when they hold the same numbers. */
  lemma DistanceZeroIff(left: seq<int>, right: seq<int>)
    requires |left| == |right|
    ensures TotalDistance(left, right) == 0 <==> multiset(left) == multiset(right)
  {
    SortedDistanceZero(Sort(left), Sort(right), |left|);
    SortEqualIff(left, right);
  }

  lemma SortedDistanceZero(a: seq<int>, b: seq<int>, n: nat)
    requires |a| == n && |b| == n
    ensures PairwiseDistance(a, b, n) == 0 <==> a == b
  {
    PairwiseDistanceZero(a, b, n);
    assert a[..n] == a && b[..n] == b;
  }

  /** Two lists sort to the same list exactly when they hold the same numbers. */
  lemma SortEqualIff(left: seq<int>, right: seq<int>)
    ensures Sort(left) == Sort(right) <==> multiset(left) == multiset(right)
  {
    if multiset(left) == multiset(right) {
      SortedUnique(Sort(left), Sort(right));
    }
  }

  lemma SortLength(s: seq<int>)
    ensures |Sort(s)| == |s|
  {
    assert |Sort(s)| == |multiset(Sort(s))| == |multiset(s)| == |s|;
  }

  /* Part 2: similarity score. */

  /** Σ item × (occurrences of item in `right`) over the items of `left`. */
  function Similarity(left: seq<nat>, right: seq<nat>): nat {
    if left == [] then 0
    else
      var item := left[|left| - 1];
      Similarity(left[..|left| - 1], right) + item * multiset(right)[item]
  }

  /** `list_right.iter().max().unwrap_or(&0)`. */
  function MaxOrZero(s: seq<nat>): (m: nat)
    ensures forall i :: 0 <= i < |s| ==> s[i] <= m
    ensures s == [] ==> m == 0
    ensures s != [] ==> m in s
  {
    if s == [] then 0
    else
      var rest := MaxOrZero(s[1..]);
      assert s == [s[0]] + s[1..];
      if s[0] >= rest then s[0] else rest
  }

  /**
   * `get_similarity_score`: counts every right item in a vector indexed by value up to the
   * right maximum, then folds over the left list, counting items above the maximum as 0.
   */
  method GetSimilarityScore(left: seq<nat>, right: seq<nat>) returns (score: nat)
    ensures score == Similarity(left, right)
  {
    var maxVal := MaxOrZero(right);
    var counts := CountValues(right, maxVal);
    score := 0;
    for i := 0 to |left|
      invariant score == Similarity(left[..i], right)
      invariant forall v :: 0 <= v <= maxVal ==> counts[v] == multiset(right)[v]
    {
      var item := left[i];
      SimilaritySnoc(left, right, i);
      if item <= maxVal {
        assert counts[item] == multiset(right)[item];
        score := score + item * counts[item];
      } else {
        assert item !in right;
        assert multiset(right)[item] == 0;
        score := score + 0;
      }
    }
    assert left[..|left|] == left;
  }

  lemma SimilaritySnoc(left: seq<nat>, right: seq<nat>, i: nat)
    requires i < |left|
    ensures Similarity(left[..i + 1], right) == Similarity(left[..i], right) + left[i] * multiset(right)[left[i]]
  {
    assert left[..i + 1][..i] == left[..i];
  }

  /** The vector `map` of the counting loop: entry v holds the occurrences of v, for v up to the bound. */
  method CountValues(s: seq<nat>, bound: nat) returns (counts: array<nat>)
    requires forall i :: 0 <= i < |s| ==> s[i] <= bound
    ensures counts.Length == bound + 1
    ensures forall v :: 0 <= v <= bound ==> counts[v] == multiset(s)[v]
  {
    counts := new nat[bound + 1](_ => 0);
    for i := 0 to |s|
      invariant forall v :: 0 <= v < counts.Length ==> counts[v] == multiset(s[..i])[v]
    {
      assert s[..i + 1] == s[..i] + [s[i]];
      counts[s[i]] := counts[s[i]] + 1;
    }
    assert s[..|s|] == s;
  }

  /** `get_similarity_score_direct`: the score of the lists read from the text. */
  method GetSimilarityScoreDirect(input: string) returns (score: nat)
    requires IsListText(input)
    ensures score == Similarity(LeftColumn(Lines(input)), RightColumn(Lines(input)))
  {
    var left, right := InputGenerator(input);
    score := GetSimilarityScore(left, right);
  }

  /** The worked example: distance 11. */
  lemma SampleDistance()
    ensures TotalDistance([3, 4, 2, 1, 3, 3], [4, 3, 5, 3, 9, 3]) == 11
  {
    SampleSortedLeft();
    SampleSortedRight();
    SamplePairwise();
  }

  /** The sorted example lists, paired up. */
  lemma SamplePairwise()
    ensures PairwiseDistance([1, 2, 3, 3, 3, 4], [3, 3, 3, 4, 5, 9], 6) == 11
  {
  }

  lemma SampleSortedLeft()
    ensures Sort([3, 4, 2, 1, 3, 3]) == [1, 2, 3, 3, 3, 4]
  {
    SamplePermutedLeft();
    SortIsUnique([3, 4, 2, 1, 3, 3], [1, 2, 3, 3, 3, 4]);
  }

  lemma SampleSortedRight()
    ensures Sort([4, 3, 5, 3, 9, 3]) == [3, 3, 3, 4, 5, 9]
  {
    SamplePermutedRight();
    SortIsUnique([4, 3, 5, 3, 9, 3], [3, 3, 3, 4, 5, 9]);
  }

  lemma SamplePermutedLeft()
    ensures multiset([1, 2, 3, 3, 3, 4]) == multiset([3, 4, 2, 1, 3, 3])
  {
    assert multiset([3, 4, 2, 1, 3, 3]) == multiset{3, 4, 2, 1, 3, 3};
    assert multiset([1, 2, 3, 3, 3, 4]) == multiset{1, 2, 3, 3, 3, 4};
  }

  lemma SamplePermutedRight()
    ensures multiset([3, 3, 3, 4, 5, 9]) == multiset([4, 3, 5, 3, 9, 3])
  {
    assert multiset([4, 3, 5, 3, 9, 3]) == multiset{4, 3, 5, 3, 9, 3};
    assert multiset([3, 3, 3, 4, 5, 9]) == multiset{3, 3, 3, 4, 5, 9};
  }

  /** How often the example's left numbers occur in its right list. */
  lemma SampleCounts()
    ensures multiset([4, 3, 5, 3, 9, 3])[3] == 3 && multiset([4, 3, 5, 3, 9, 3])[4] == 1
    ensures multiset([4, 3, 5, 3, 9, 3])[2] == 0 && multiset([4, 3, 5, 3, 9, 3])[1] == 0
  {
    assert multiset([4, 3, 5, 3, 9, 3]) == multiset{4, 3, 5, 3, 9, 3};
  }

  /** The similarity of the example's left list with any right list holding 3 three times and 4 once. */
  lemma SampleSimilarityOf(right: seq<nat>)
    requires multiset(right)[3] == 3 && multiset(right)[4] == 1
    requires multiset(right)[2] == 0 && multiset(right)[1] == 0
    ensures Similarity([3, 4, 2, 1, 3, 3], right) == 31
  {
    var left := [3, 4, 2, 1, 3, 3];
    assert Similarity(left[..1], right) == 9 by { assert left[..1][..0] == []; }
    assert Similarity(left[..2], right) == 13 by { assert left[..2][..1] == left[..1]; }
    assert Similarity(left[..3], right) == 13 by { assert left[..3][..2] == left[..2]; }
    assert Similarity(left[..4], right) == 13 by { assert left[..4][..3] == left[..3]; }
    assert Similarity(left[..5], right) == 22 by { assert left[..5][..4] == left[..4]; }
    assert Similarity(left, right) == 31 by { assert left[..5] == left[..|left| - 1]; }
  }

  /** The worked example: similarity 31. */
  lemma SampleSimilarity()
    ensures Similarity([3, 4, 2, 1, 3, 3], [4, 3, 5, 3, 9, 3]) == 31
  {
    SampleCounts();
    SampleSimilarityOf([4, 3, 5, 3, 9, 3]);
  }
}
