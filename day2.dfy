/**
 * Day 2, report safety: a report of levels is safe when every step between neighbours
 * changes the level by 1 to 3 and all steps go the same way. Three checks of that rule
 * (a peeking loop, a loop over windows, a `try_fold`) and a damped check that may drop
 * one level.
 */
module Day2 {
  import opened Options
  import opened Text

  type Report = seq<nat>

  /* The rule. */

  /** The steps `data[1] - data[0]` of the windows of two neighbouring levels. */
  function Deltas(report: Report): (ds: seq<int>)
    ensures |ds| == if |report| < 2 then 0 else |report| - 1
    ensures forall i :: 0 <= i < |ds| ==> ds[i] == report[i + 1] as int - report[i]
  {
    if |report| < 2 then [] else seq(|report| - 1, i requires 0 <= i < |report| - 1 => report[i + 1] as int - report[i])
  }

  /** `i64::signum`. */
  function Signum(x: int): int {
    if x > 0 then 1 else if x < 0 then -1 else 0
  }

  function Abs(x: int): nat {
    if x < 0 then -x else x
  }

  /** Every step is 1 to 3 levels, and every step has the sign of the first. */
  predicate SafeDeltas(ds: seq<int>) {
    && (forall i :: 0 <= i < |ds| ==> 1 <= Abs(ds[i]) <= 3)
    && (forall i :: 0 <= i < |ds| ==> Signum(ds[i]) == Signum(ds[0]))
  }

  predicate IsSafe(report: Report) {
    SafeDeltas(Deltas(report))
  }

  /** Reports with fewer than two levels have no step at all, so they are safe. */
  lemma ShortReportsAreSafe(report: Report)
    requires |report| < 2
    ensures IsSafe(report)
  {
  }

  /** Safety as the puzzle states it: strictly increasing or strictly decreasing, by 1 to 3 at a time. */
  lemma SafeIff(report: Report)
    ensures IsSafe(report) <==>
              (forall i :: 0 <= i < |report| - 1 ==> report[i] < report[i + 1] <= report[i] + 3) ||
              (forall i :: 0 <= i < |report| - 1 ==> report[i] > report[i + 1] >= report[i] as int - 3)
  {
    var ds := Deltas(report);
    if |report| >= 2 {
      assert ds[0] == report[1] as int - report[0];
      if IsSafe(report) {
        if ds[0] > 0 {
          forall i | 0 <= i < |report| - 1 ensures report[i] < report[i + 1] <= report[i] + 3 {
            assert Signum(ds[i]) == 1;
          }
        } else {
          forall i | 0 <= i < |report| - 1 ensures report[i] > report[i + 1] >= report[i] as int - 3 {
            assert Signum(ds[i]) == -1;
          }
        }
      }
    }
  }

  /* count_safe_reports: peeking at the next level. */

  datatype Direction = Increasing | Decreasing

  /**
   * The filter of `count_safe_reports`: takes the current level and peeks at the next one;
   * stops on a step over 3, on equal levels, or when the direction differs from the last one.
   */
  method IsSafeNaive(report: Report) returns (isSafe: bool)
    ensures isSafe == IsSafe(report)
  {
    ghost var ds := Deltas(report);
    isSafe := true;
    var direction: Option<Direction> := None;
    var i := 0;
    while isSafe
      invariant 0 <= i <= |ds|
      invariant isSafe
      invariant forall k :: 0 <= k < i ==> 1 <= Abs(ds[k]) <= 3 && Signum(ds[k]) == Signum(ds[0])
      invariant direction.None? <==> i == 0
      invariant i > 0 ==> direction == Some(if ds[0] > 0 then Increasing else Decreasing)
      decreases |report| - i
    {
      if i + 1 < |report| {
        var current, next := report[i], report[i + 1];
        i := i + 1;
        if Abs(next as int - current) > 3 {
          isSafe := false;
          break;
        }
        var lastDirection := direction;
        if current == next {
          isSafe := false;
          break;
        } else if current > next {
          direction := Some(Decreasing);
        } else {
          direction := Some(Increasing);
        }
        if lastDirection.Some? && Some(lastDirection.value) != direction {
          isSafe := false;
          break;
        }
      } else {
        break;
      }
    }
  }

  /* count_safe_reports_delta: comparing the sign of each step with the last one. */

  /** The filter of `count_safe_reports_delta`. */
  method IsSafeDelta(report: Report) returns (safe: bool)
    ensures safe == IsSafe(report)
  {
    ghost var ds := Deltas(report);
    var lastDeltaSignum: Option<int> := None;
    var windows := if |report| < 2 then 0 else |report| - 1;
    for k := 0 to windows
      invariant forall j :: 0 <= j < k ==> 1 <= Abs(ds[j]) <= 3 && Signum(ds[j]) == Signum(ds[0])
      invariant lastDeltaSignum.None? <==> k == 0
      invariant k > 0 ==> lastDeltaSignum == Some(Signum(ds[0]))
    {
      var newDelta := report[k + 1] as int - report[k];
      var newDeltaSignum := Signum(newDelta);
      if lastDeltaSignum.Some? && lastDeltaSignum.value != newDeltaSignum {
        return false;
      }
      if !(1 <= Abs(newDelta) <= 3) {
        return false;
      }
      lastDeltaSignum := Some(newDeltaSignum);
    }
    return true;
  }

  /* count_safe_reports_iterator: a try_fold over the steps. */

  datatype FoldResult = Err | Ok(lastSignum: Option<int>)

  /** One step of the fold: fail on a change of sign or a step outside 1..=3. */
  function FoldStep(lastSignum: Option<int>, currDelta: int): (r: FoldResult)
    ensures r.Ok? <==> 1 <= Abs(currDelta) <= 3 && (lastSignum.Some? ==> lastSignum.value == Signum(currDelta))
    ensures r.Ok? ==> r.lastSignum == Some(Signum(currDelta))
  {
    var currSignum := Signum(currDelta);
    if lastSignum.Some? && lastSignum.value != currSignum then Err
    else if !(1 <= Abs(currDelta) <= 3) then Err
    else Ok(Some(currSignum))
  }

  /** `Iterator::try_fold`: thread the accumulator through the steps, stopping at the first error. */
  function TryFold(ds: seq<int>, lastSignum: Option<int>): (r: FoldResult)
    ensures ds == [] ==> r == Ok(lastSignum)
    ensures r.Ok? && ds != [] ==> r.lastSignum == Some(Signum(ds[|ds| - 1]))
  {
    if ds == [] then Ok(lastSignum)
    else match FoldStep(lastSignum, ds[0])
      case Err => Err
      case Ok(next) => TryFold(ds[1..], next)
  }

  /** The filter of `count_safe_reports_iterator`. */
  predicate IsSafeIterator(report: Report): (ok: bool)
    ensures ok ==> forall i :: 0 <= i < |Deltas(report)| ==> 1 <= Abs(Deltas(report)[i]) <= 3
  {
    TryFoldOk(Deltas(report), None);
    TryFold(Deltas(report), None).Ok?
  }

  /** The fold succeeds exactly on safe steps that also agree with the sign carried in. */
  lemma {:induction false} TryFoldOk(ds: seq<int>, lastSignum: Option<int>)
    ensures TryFold(ds, lastSignum).Ok? <==>
              SafeDeltas(ds) && (ds != [] && lastSignum.Some? ==> lastSignum.value == Signum(ds[0]))
  {
    if ds != [] {
      TryFoldOk(ds[1..], Some(Signum(ds[0])));
      if SafeDeltas(ds) && ds[1..] != [] {
        assert Signum(ds[1..][0]) == Signum(ds[0]);
      }
      if FoldStep(lastSignum, ds[0]).Ok? && SafeDeltas(ds[1..]) && (ds[1..] != [] ==> Signum(ds[0]) == Signum(ds[1..][0])) {
        forall i | 0 <= i < |ds| ensures 1 <= Abs(ds[i]) <= 3 && Signum(ds[i]) == Signum(ds[0]) {
          if i > 0 { assert ds[i] == ds[1..][i - 1]; }
        }
      }
    }
  }

  /** The fold and the rule agree on every report. */
  lemma IteratorAgrees(report: Report)
    ensures IsSafeIterator(report) == IsSafe(report)
  {
    TryFoldOk(Deltas(report), None);
  }

  /* Counting. */

  /** The number of reports a check accepts. */
  function Count(reports: seq<Report>, check: Report -> bool): (n: nat)
    ensures n <= |reports|
  {
    if reports == [] then 0
    else Count(reports[..|reports| - 1], check) + (if check(reports[|reports| - 1]) then 1 else 0)
  }

  /** `count_safe_reports`. */
  method CountSafeReports(input: seq<Report>) returns (count: nat)
    ensures count == Count(input, IsSafe)
  {
    count := 0;
    for k := 0 to |input|
      invariant count == Count(input[..k], IsSafe)
    {
      var safe := IsSafeNaive(input[k]);
      assert input[..k + 1][..k] == input[..k];
      if safe {
        count := count + 1;
      }
    }
    assert input[..|input|] == input;
  }

  /** `count_safe_reports_delta`. */
  method CountSafeReportsDelta(input: seq<Report>) returns (count: nat)
    ensures count == Count(input, IsSafe)
  {
    count := 0;
    for k := 0 to |input|
      invariant count == Count(input[..k], IsSafe)
    {
      var safe := IsSafeDelta(input[k]);
      assert input[..k + 1][..k] == input[..k];
      if safe {
        count := count + 1;
      }
    }
    assert input[..|input|] == input;
  }

  /** Two checks that agree on every report count the same reports. */
  lemma {:induction false} CountAgrees(reports: seq<Report>, check: Report -> bool, check': Report -> bool)
    requires forall r :: check(r) == check'(r)
    ensures Count(reports, check) == Count(reports, check')
  {
    if reports != [] {
      CountAgrees(reports[..|reports| - 1], check, check');
    }
  }

  /** `count_safe_reports_iterator` counts exactly the safe reports, like the other two. */
  lemma IteratorCountAgrees(input: seq<Report>)
    ensures Count(input, IsSafeIterator) == Count(input, IsSafe)
  {
    forall r ensures IsSafeIterator(r) == IsSafe(r) {
      IteratorAgrees(r);
    }
    CountAgrees(input, IsSafeIterator, IsSafe);
  }

  /* count_safe_reports_damped: safe after dropping at most one level. */

  /** The report without its n-th level. */
  function Without(report: Report, n: nat): (r: Report)
    requires n < |report|
    ensures |r| == |report| - 1
    ensures forall i :: 0 <= i < |r| ==> r[i] == if i < n then report[i] else report[i + 1]
  {
    report[..n] + report[n + 1..]
  }

  /** Safe once the n-th level is dropped. */
  predicate DeletionSafe(report: Report, n: nat) {
    n < |report| && IsSafe(Without(report, n))
  }

  /** Safe once some single level is dropped. */
  predicate SomeDeletionSafe(report: Report) {
    exists n :: 0 <= n < |report| && DeletionSafe(report, n)
  }

  /** Safe as it is, or safe once some single level is dropped. */
  predicate IsDampedSafe(report: Report) {
    IsSafe(report) || SomeDeletionSafe(report)
  }

  /** The filter of `count_safe_reports_damped`: the delta check on the report, then on each deletion. */
  method IsSafeDamped(report: Report) returns (safe: bool)
    ensures safe == IsDampedSafe(report)
  {
    safe := IsSafeDelta(report);
    if !safe {
      safe := AnyDeletionSafe(report);
    }
  }

  /** The loop over `n` in `count_safe_reports_damped`: the delta check on the report without level n. */
  method AnyDeletionSafe(report: Report) returns (safe: bool)
    ensures safe == SomeDeletionSafe(report)
  {
    for n := 0 to |report|
      invariant forall m :: 0 <= m < n ==> !DeletionSafe(report, m)
    {
      var dropped := DeletionCheck(report, n);
      if dropped {
        assert DeletionSafe(report, n);
        return true;
      }
    }
    assert forall m :: 0 <= m < |report| ==> !DeletionSafe(report, m);
    return false;
  }

  /** One pass of that loop: the delta check on the report without level n. */
  method DeletionCheck(report: Report, n: nat) returns (safe: bool)
    requires n < |report|
    ensures safe == DeletionSafe(report, n)
  {
    safe := IsSafeDelta(Without(report, n));
  }

  /** `count_safe_reports_damped`. */
  method CountSafeReportsDamped(input: seq<Report>) returns (count: nat)
    ensures count == Count(input, IsDampedSafe)
  {
    count := 0;
    for k := 0 to |input|
      invariant count == Count(input[..k], IsDampedSafe)
    {
      var safe := IsSafeDamped(input[k]);
      assert input[..k + 1][..k] == input[..k];
      if safe {
        count := count + 1;
      }
    }
    assert input[..|input|] == input;
  }

  /** A check that accepts at least what another accepts counts at least as many reports. */
  lemma {:induction false} CountMonotone(reports: seq<Report>, check: Report -> bool, check': Report -> bool)
    requires forall r :: check(r) ==> check'(r)
    ensures Count(reports, check) <= Count(reports, check')
  {
    if reports != [] {
      CountMonotone(reports[..|reports| - 1], check, check');
    }
  }

  /** Damping only adds reports: the damped count is at least the plain count. */
  lemma DampedCountsMore(input: seq<Report>)
    ensures Count(input, IsSafe) <= Count(input, IsDampedSafe)
  {
    CountMonotone(input, IsSafe, IsDampedSafe);
  }

  /* input_generator */

  /** A line of space-separated levels that `input_generator` accepts. */
  predicate IsReportLine(line: string) {
    forall i :: 0 <= i < |Split(line, ' ')| ==> IsNumberField(Split(line, ' ')[i])
  }

  /** `input_generator` on one line: split at every space and parse each piece. */
  function ParseReport(line: string): (report: Report)
    requires IsReportLine(line)
    ensures |report| == |Split(line, ' ')|
  {
    ParseFields(Split(line, ' '))
  }

  function ParseFields(fields: seq<string>): (levels: Report)
    requires forall i :: 0 <= i < |fields| ==> IsNumberField(fields[i])
    ensures |levels| == |fields|
  {
    if fields == [] then [] else [FieldValue(fields[0])] + ParseFields(fields[1..])
  }

  /** `input_generator`: one report per line. */
  function InputGenerator(input: string): (reports: seq<Report>)
    requires forall i :: 0 <= i < |Lines(input)| ==> IsReportLine(Lines(input)[i])
    ensures |reports| == |Lines(input)|
  {
    var lines := Lines(input);
    seq(|lines|, i requires 0 <= i < |lines| => ParseReport(lines[i]))
  }

  /** A report written with single spaces. */
  function ReportLine(report: Report): string {
    Join(Written(report), ' ')
  }

  /** Reading a written report gives back the report. */
  lemma ReportRoundTrip(report: Report)
    requires |report| > 0 && forall i :: 0 <= i < |report| ==> report[i] < U32_LIMIT
    ensures IsReportLine(ReportLine(report)) && ParseReport(ReportLine(report)) == report
  {
    var fields := Written(report);
    forall i | 0 <= i < |fields| ensures ' ' !in fields[i] {
      DigitsExclude(fields[i], ' ');
    }
    SplitJoin(fields, ' ');
    ParseWritten(report);
  }

  /** The levels written out one by one. */
  function Written(report: Report): (fields: seq<string>)
    ensures |fields| == |report|
  {
    seq(|report|, i requires 0 <= i < |report| => DecimalString(report[i]))
  }

  lemma ParseWritten(report: Report)
    requires forall i :: 0 <= i < |report| ==> report[i] < U32_LIMIT
    ensures forall i :: 0 <= i < |report| ==> IsNumberField(Written(report)[i])
    ensures ParseFields(Written(report)) == report
  {
    WrittenFields(report);
    ParseFieldsValues(Written(report), report);
  }

  /** Parsing fields one by one gives the value of each field, in order. */
  lemma {:induction false} ParseFieldsValues(fields: seq<string>, values: Report)
    requires |fields| == |values|
    requires forall i :: 0 <= i < |fields| ==> IsNumberField(fields[i]) && FieldValue(fields[i]) == values[i]
    ensures ParseFields(fields) == values
  {
    if fields != [] {
      ParseFieldsValues(fields[1..], values[1..]);
      assert values == [values[0]] + values[1..];
    }
  }

  lemma WrittenFields(report: Report)
    requires forall i :: 0 <= i < |report| ==> report[i] < U32_LIMIT
    ensures forall i :: 0 <= i < |report| ==> IsNumberField(Written(report)[i]) && FieldValue(Written(report)[i]) == report[i]
  {
    forall i | 0 <= i < |report| ensures IsNumberField(Written(report)[i]) && FieldValue(Written(report)[i]) == report[i] {
      FieldWritten(report[i]);
    }
  }

  lemma FieldWritten(n: nat)
    requires n < U32_LIMIT
    ensures IsNumberField(DecimalString(n)) && FieldValue(DecimalString(n)) == n
  {
    FieldRoundTrip([], n);
    assert [] + DecimalString(n) == DecimalString(n);
  }

  /* The worked examples. */

  lemma SampleSafeDecreasing()
    ensures IsSafe([7, 6, 4, 2, 1]) && IsDampedSafe([7, 6, 4, 2, 1])
  {
    var r := [7, 6, 4, 2, 1];
    forall i | 0 <= i < |r| - 1 ensures r[i] > r[i + 1] >= r[i] as int - 3 {
      if i == 0 {} else if i == 1 {} else if i == 2 {} else {}
    }
    SafeIff(r);
  }

  lemma SampleDampedByDroppingSecond()
    ensures !IsSafe([1, 3, 2, 4, 5]) && IsDampedSafe([1, 3, 2, 4, 5])
  {
    assert Deltas([1, 3, 2, 4, 5])[0] == 2 && Deltas([1, 3, 2, 4, 5])[1] == -1;
    var r := Without([1, 3, 2, 4, 5], 1);
    assert r == [1, 2, 4, 5];
    forall i | 0 <= i < |r| - 1 ensures r[i] < r[i + 1] <= r[i] + 3 {
      if i == 0 {} else if i == 1 {} else {}
    }
    SafeIff(r);
    assert DeletionSafe([1, 3, 2, 4, 5], 1);
  }

  lemma SampleDampedByDroppingRepeat()
    ensures !IsSafe([8, 6, 4, 4, 1]) && IsDampedSafe([8, 6, 4, 4, 1])
  {
    assert Deltas([8, 6, 4, 4, 1])[2] == 0;
    var r := Without([8, 6, 4, 4, 1], 2);
    assert r == [8, 6, 4, 1];
    forall i | 0 <= i < |r| - 1 ensures r[i] > r[i + 1] >= r[i] as int - 3 {
      if i == 0 {} else if i == 1 {} else {}
    }
    SafeIff(r);
    assert DeletionSafe([8, 6, 4, 4, 1], 2);
  }

  lemma SampleSafeIncreasing()
    ensures IsSafe([1, 3, 6, 7, 9])
  {
    var r := [1, 3, 6, 7, 9];
    forall i | 0 <= i < |r| - 1 ensures r[i] < r[i + 1] <= r[i] + 3 {
      if i == 0 {} else if i == 1 {} else if i == 2 {} else {}
    }
    SafeIff(r);
  }
}
