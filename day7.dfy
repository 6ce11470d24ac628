/**
 * Day 7, bridge repair: an equation is solvable when some choice of `+`, `*` (and, in the
 * second part, digit concatenation) between its parts, evaluated left to right, gives its
 * target.
 */
module Day7 {
  import opened Text

  /** An equation: the target (a float in the source, a whole number here) and its parts. */
  datatype Equation = Equation(solution: nat, parts: seq<nat>)

  /** `default_unsolveable`: target 0 with the single part 1. */
  function DefaultUnsolveable(): (e: Equation)
    ensures |e.parts| == 1
  {
    Equation(0, [1])
  }

  /** The placeholder for a disallowed concatenation is never solvable. */
  lemma DefaultNeverSolveable(allowConcat: bool)
    ensures !Solveable(DefaultUnsolveable(), allowConcat)
  {
  }

  /** `b.ilog10() + 1`: the number of decimal digits of a positive number. */
  function NumDigits(b: nat): (k: nat)
    requires b > 0
    ensures k >= 1 && Pow10(k - 1) <= b < Pow10(k)
  {
    if b < 10 then 1 else 1 + NumDigits(b / 10)
  }

  /** `a * 10usize.pow(b.ilog10() + 1) + b`. */
  function Concat(a: nat, b: nat): (r: nat)
    requires b > 0
    ensures r % Pow10(NumDigits(b)) == b && r / Pow10(NumDigits(b)) == a
  {
    var p := Pow10(NumDigits(b));
    DivModUnique(a, b, p);
    a * p + b
  }

  /** `a * p + b` with `b < p` divides by `p` into quotient `a` and remainder `b`. */
  lemma DivModUnique(a: nat, b: nat, p: nat)
    requires b < p
    ensures (a * p + b) % p == b && (a * p + b) / p == a
  {
    var x := a * p + b;
    var q, r := x / p, x % p;
    assert q * p + r == x && 0 <= r < p;
    assert (q - a) * p == b - r;
    if q > a {
      AtLeastFactor(p, q - a);
    } else if q < a {
      AtLeastFactor(p, a - q);
    }
  }

  /** The number of digits is the length of the decimal numeral. */
  lemma {:induction false} NumDigitsIsLength(b: nat)
    requires b > 0
    ensures NumDigits(b) == |DecimalString(b)|
  {
    if b >= 10 {
      NumDigitsIsLength(b / 10);
    }
  }

  lemma AllDigitsAppend(s: string, t: string)
    requires AllDigits(s) && AllDigits(t)
    ensures AllDigits(s + t)
  {
    forall k | 0 <= k < |s + t| ensures IsDigit((s + t)[k]) {
      if k >= |s| {
        assert (s + t)[k] == t[k - |s|];
      }
    }
  }

  /** The value of two numerals written one after the other. */
  lemma {:induction false} DecimalValueAppend(s: string, t: string)
    requires AllDigits(s) && AllDigits(t)
    ensures AllDigits(s + t) && DecimalValue(s + t) == DecimalValue(s) * Pow10(|t|) + DecimalValue(t)
    decreases |t|
  {
    AllDigitsAppend(s, t);
    if t != [] {
      var init := t[..|t| - 1];
      DecimalValueAppend(s, init);
      assert (s + t)[..|s + t| - 1] == s + init;
      assert (s + t)[|s + t| - 1] == t[|t| - 1];
      var a, p, i, d := DecimalValue(s), Pow10(|init|), DecimalValue(init), DigitValue(t[|t| - 1]);
      assert DecimalValue(s + init) == a * p + i;
      assert DecimalValue(s + t) == 10 * (a * p + i) + d;
      assert DecimalValue(t) == 10 * i + d;
      assert Pow10(|t|) == 10 * p;
      MulAssoc(a, p);
    } else {
      assert s + t == s;
    }
  }

  lemma MulAssoc(a: nat, p: nat)
    ensures 10 * (a * p) == a * (10 * p)
  {
  }

  /** Concatenation reads the digits of a followed by the digits of b. */
  lemma ConcatIsDigitConcatenation(a: nat, b: nat)
    requires b > 0
    ensures DecimalValue(DecimalString(a) + DecimalString(b)) == Concat(a, b)
  {
    DecimalValueAppend(DecimalString(a), DecimalString(b));
    DecimalRoundTrip(a);
    DecimalRoundTrip(b);
    NumDigitsIsLength(b);
  }

  /** Every part that ever becomes the second operand is positive, as `ilog10` needs. */
  predicate ConcatDefined(e: Equation) {
    forall i :: 1 <= i < |e.parts| ==> e.parts[i] > 0
  }

  /**
   * `find_subequations`: the first two parts replaced by their sum, their product and,
   * when allowed, their concatenation; otherwise the third is `default_unsolveable`.
   */
  function FindSubequations(e: Equation, allowConcat: bool): (r: (Equation, Equation, Equation))
    requires |e.parts| >= 2
    requires allowConcat ==> ConcatDefined(e)
    ensures r.0.parts == [e.parts[0] + e.parts[1]] + e.parts[2..] && r.0.solution == e.solution
    ensures r.1.parts == [e.parts[0] * e.parts[1]] + e.parts[2..] && r.1.solution == e.solution
    ensures allowConcat ==> r.2.parts == [Concat(e.parts[0], e.parts[1])] + e.parts[2..] && r.2.solution == e.solution
    ensures !allowConcat ==> r.2 == DefaultUnsolveable()
  {
    var a, b, rest := e.parts[0], e.parts[1], e.parts[2..];
    var added := Equation(e.solution, [a + b] + rest);
    var multiplied := Equation(e.solution, [a * b] + rest);
    var concat := if allowConcat then Equation(e.solution, [Concat(a, b)] + rest) else DefaultUnsolveable();
    (added, multiplied, concat)
  }

  /** Replacing the first two parts by one keeps every later part as the second operand's source. */
  lemma SubequationsConcatDefined(e: Equation, allowConcat: bool)
    requires |e.parts| >= 2 && (allowConcat ==> ConcatDefined(e))
    ensures allowConcat ==> ConcatDefined(FindSubequations(e, allowConcat).0)
    ensures allowConcat ==> ConcatDefined(FindSubequations(e, allowConcat).1)
    ensures allowConcat ==> ConcatDefined(FindSubequations(e, allowConcat).2)
  {
  }

  predicate AllPositive(parts: seq<nat>) {
    forall i :: 0 <= i < |parts| ==> parts[i] > 0
  }

  /** Combining two positive parts gives a positive part no smaller than either. */
  lemma CombinePositive(e: Equation, allowConcat: bool)
    requires |e.parts| >= 2 && (allowConcat ==> ConcatDefined(e))
    ensures var subs := FindSubequations(e, allowConcat);
            AllPositive(e.parts) ==>
              && AllPositive(subs.0.parts) && AllPositive(subs.1.parts)
              && e.parts[0] <= subs.0.parts[0] && e.parts[1] <= subs.0.parts[0]
              && e.parts[0] <= subs.1.parts[0] && e.parts[1] <= subs.1.parts[0]
              && (allowConcat ==>
                    AllPositive(subs.2.parts) && e.parts[0] <= subs.2.parts[0] && e.parts[1] <= subs.2.parts[0])
  {
    var a, b := e.parts[0], e.parts[1];
    if AllPositive(e.parts) {
      AtLeastFactor(a, b);
      AtLeastFactor(b, a);
      if allowConcat {
        AtLeastFactor(a, Pow10(NumDigits(b)));
      }
    }
  }

  /** A bound on every part of a subequation gives one on every part of the equation. */
  lemma BoundFromSub(e: Equation, sub: Equation)
    requires |e.parts| >= 2
    ensures && |sub.parts| >= 1 && sub.solution == e.solution && sub.parts[1..] == e.parts[2..]
            && e.parts[0] <= sub.parts[0] && e.parts[1] <= sub.parts[0]
            && (forall i :: 0 <= i < |sub.parts| ==> sub.parts[i] <= sub.solution)
            ==> forall i :: 0 <= i < |e.parts| ==> e.parts[i] <= e.solution
  {
    if && |sub.parts| >= 1 && sub.solution == e.solution && sub.parts[1..] == e.parts[2..]
       && e.parts[0] <= sub.parts[0] && e.parts[1] <= sub.parts[0]
       && (forall i :: 0 <= i < |sub.parts| ==> sub.parts[i] <= sub.solution)
    {
      forall i | 2 <= i < |e.parts| ensures e.parts[i] <= e.solution {
        assert e.parts[i] == sub.parts[1..][i - 2];
      }
    }
  }

  /** A positive factor does not make a product smaller. */
  lemma AtLeastFactor(a: nat, b: nat)
    requires b >= 1
    ensures a <= a * b && a <= b * a
  {
  }

  /**
   * `solveable`: search every choice for the first two parts, then recurse. When
   * every part is positive no operator lowers a value, so a solvable target is
   * at least every part.
   */
  predicate Solveable(e: Equation, allowConcat: bool): (ok: bool)
    requires |e.parts| >= 1
    requires allowConcat ==> ConcatDefined(e)
    ensures ok && AllPositive(e.parts) ==> forall i :: 0 <= i < |e.parts| ==> e.parts[i] <= e.solution
    decreases |e.parts|
  {
    if |e.parts| >= 2 then
      var subs := FindSubequations(e, allowConcat);
      SubequationsConcatDefined(e, allowConcat);
      CombinePositive(e, allowConcat);
      BoundFromSub(e, subs.0);
      BoundFromSub(e, subs.1);
      BoundFromSub(e, subs.2);
      Solveable(subs.0, allowConcat) || Solveable(subs.1, allowConcat) || (allowConcat && Solveable(subs.2, allowConcat))
    else e.solution == e.parts[0]
  }

  /* An independent description: some choice of operators, evaluated left to right. */

  datatype Operator = Add | Multiply | Concatenate

  function Apply(op: Operator, a: nat, b: nat): nat
    requires op == Concatenate ==> b > 0
  {
    match op
    case Add => a + b
    case Multiply => a * b
    case Concatenate => Concat(a, b)
  }

  /** The operators may be used on these parts, with concatenation only when allowed. */
  predicate Usable(parts: seq<nat>, ops: seq<Operator>, allowConcat: bool) {
    && |parts| == |ops| + 1
    && forall i :: 0 <= i < |ops| ==> (ops[i] == Concatenate ==> allowConcat && parts[i + 1] > 0)
  }

  /** `parts[0] op0 parts[1] op1 parts[2] ...`, evaluated strictly from the left. */
  function EvalLeft(parts: seq<nat>, ops: seq<Operator>): nat
    requires Usable(parts, ops, true)
    decreases |ops|
  {
    if ops == [] then parts[0]
    else
      var n := |ops|;
      assert Usable(parts[..n], ops[..n - 1], true);
      Apply(ops[n - 1], EvalLeft(parts[..n], ops[..n - 1]), parts[n])
  }

  /** Evaluating from the left is combining the first two parts, then evaluating the rest. */
  lemma {:induction false} EvalLeftFront(parts: seq<nat>, ops: seq<Operator>)
    requires Usable(parts, ops, true) && |ops| >= 1
    ensures Usable([Apply(ops[0], parts[0], parts[1])] + parts[2..], ops[1..], true)
    ensures EvalLeft(parts, ops) == EvalLeft([Apply(ops[0], parts[0], parts[1])] + parts[2..], ops[1..])
    decreases |ops|
  {
    var v := Apply(ops[0], parts[0], parts[1]);
    var rest := [v] + parts[2..];
    assert Usable(rest, ops[1..], true) by {
      forall i | 0 <= i < |ops[1..]| ensures ops[1..][i] == Concatenate ==> rest[i + 1] > 0 {
        assert rest[i + 1] == parts[i + 2];
      }
    }
    var n := |ops|;
    if n > 1 {
      var parts', ops' := parts[..n], ops[..n - 1];
      assert Usable(parts', ops', true);
      EvalLeftFront(parts', ops');
      assert parts'[..n][2..] == parts[2..n];
      assert ([v] + parts[2..])[..n - 1] == [v] + parts[2..n];
      assert ops[1..][..n - 2] == ops'[1..];
      assert rest[n - 1] == parts[n];
    }
  }

  /** The equation is solvable exactly when some usable choice of operators hits the target. */
  lemma SolveableIff(e: Equation, allowConcat: bool)
    requires |e.parts| >= 1 && (allowConcat ==> ConcatDefined(e))
    ensures Solveable(e, allowConcat) <==>
            exists ops :: Usable(e.parts, ops, allowConcat) && EvalLeft(e.parts, ops) == e.solution
  {
    if Solveable(e, allowConcat) {
      var ops := SolveableHasOperators(e, allowConcat);
    }
    if exists ops :: Usable(e.parts, ops, allowConcat) && EvalLeft(e.parts, ops) == e.solution {
      var ops :| Usable(e.parts, ops, allowConcat) && EvalLeft(e.parts, ops) == e.solution;
      OperatorsMakeSolveable(e, allowConcat, ops);
    }
  }

  /** A solvable equation of two or more parts has a first operator whose subequation is solvable. */
  lemma SolveableFirst(e: Equation, allowConcat: bool) returns (op: Operator)
    requires |e.parts| >= 2 && (allowConcat ==> ConcatDefined(e))
    requires Solveable(e, allowConcat)
    ensures op == Concatenate ==> allowConcat
    ensures var sub := Equation(e.solution, [Apply(op, e.parts[0], e.parts[1])] + e.parts[2..]);
            (allowConcat ==> ConcatDefined(sub)) && Solveable(sub, allowConcat)
  {
    var subs := FindSubequations(e, allowConcat);
    SubequationsConcatDefined(e, allowConcat);
    op := if Solveable(subs.0, allowConcat) then Add
          else if Solveable(subs.1, allowConcat) then Multiply
          else Concatenate;
    assert op == Add ==> subs.0.parts == [Apply(op, e.parts[0], e.parts[1])] + e.parts[2..];
    assert op == Multiply ==> subs.1.parts == [Apply(op, e.parts[0], e.parts[1])] + e.parts[2..];
    assert op == Concatenate ==> subs.2.parts == [Apply(op, e.parts[0], e.parts[1])] + e.parts[2..];
  }

  /** Operators usable once the first two parts are combined, after that first operator, are usable. */
  lemma UsableBeforeFirst(parts: seq<nat>, op: Operator, ops: seq<Operator>, allowConcat: bool)
    requires |parts| >= 2 && (op == Concatenate ==> allowConcat && parts[1] > 0)
    requires Usable([Apply(op, parts[0], parts[1])] + parts[2..], ops, allowConcat)
    ensures Usable(parts, [op] + ops, allowConcat)
  {
    var rest := [Apply(op, parts[0], parts[1])] + parts[2..];
    forall i | 0 <= i < |[op] + ops| ensures ([op] + ops)[i] == Concatenate ==> allowConcat && parts[i + 1] > 0 {
      if i > 0 {
        assert ([op] + ops)[i] == ops[i - 1] && rest[i] == parts[i + 1];
      }
    }
  }

  /** A solvable equation has operators that hit the target. */
  lemma {:induction false} SolveableHasOperators(e: Equation, allowConcat: bool) returns (ops: seq<Operator>)
    requires |e.parts| >= 1 && (allowConcat ==> ConcatDefined(e))
    requires Solveable(e, allowConcat)
    ensures Usable(e.parts, ops, allowConcat) && EvalLeft(e.parts, ops) == e.solution
    decreases |e.parts|
  {
    var parts := e.parts;
    if |parts| == 1 {
      ops := [];
    } else {
      var first := SolveableFirst(e, allowConcat);
      var sub := Equation(e.solution, [Apply(first, parts[0], parts[1])] + parts[2..]);
      var ops' := SolveableHasOperators(sub, allowConcat);
      UsableBeforeFirst(parts, first, ops', allowConcat);
      ops := [first] + ops';
      assert ops[0] == first && ops[1..] == ops';
      EvalLeftFront(parts, ops);
    }
  }

  /** Combining the first two parts with `op` gives one of the subequations `solveable` searches. */
  lemma SolveableByFirst(e: Equation, allowConcat: bool, op: Operator)
    requires |e.parts| >= 2 && (allowConcat ==> ConcatDefined(e))
    requires op == Concatenate ==> allowConcat
    ensures var sub := Equation(e.solution, [Apply(op, e.parts[0], e.parts[1])] + e.parts[2..]);
            (allowConcat ==> ConcatDefined(sub)) && (Solveable(sub, allowConcat) ==> Solveable(e, allowConcat))
  {
    var subs := FindSubequations(e, allowConcat);
    SubequationsConcatDefined(e, allowConcat);
    match op {
      case Add => assert subs.0.parts == [Apply(op, e.parts[0], e.parts[1])] + e.parts[2..];
      case Multiply => assert subs.1.parts == [Apply(op, e.parts[0], e.parts[1])] + e.parts[2..];
      case Concatenate => assert subs.2.parts == [Apply(op, e.parts[0], e.parts[1])] + e.parts[2..];
    }
  }

  /** The operators after the first may be used on the parts once the first two are combined. */
  lemma UsableAfterFirst(parts: seq<nat>, ops: seq<Operator>, allowConcat: bool)
    requires Usable(parts, ops, allowConcat) && |ops| >= 1
    ensures Usable([Apply(ops[0], parts[0], parts[1])] + parts[2..], ops[1..], allowConcat)
  {
    var rest := [Apply(ops[0], parts[0], parts[1])] + parts[2..];
    forall i | 0 <= i < |ops[1..]| ensures ops[1..][i] == Concatenate ==> allowConcat && rest[i + 1] > 0 {
      assert rest[i + 1] == parts[i + 2];
    }
  }

  /** Operators that hit the target make the equation solvable. */
  lemma {:induction false} OperatorsMakeSolveable(e: Equation, allowConcat: bool, ops: seq<Operator>)
    requires |e.parts| >= 1 && (allowConcat ==> ConcatDefined(e))
    requires Usable(e.parts, ops, allowConcat) && EvalLeft(e.parts, ops) == e.solution
    ensures Solveable(e, allowConcat)
    decreases |e.parts|
  {
    var parts := e.parts;
    if |parts| > 1 {
      EvalLeftFront(parts, ops);
      UsableAfterFirst(parts, ops, allowConcat);
      SolveableByFirst(e, allowConcat, ops[0]);
      var sub := Equation(e.solution, [Apply(ops[0], parts[0], parts[1])] + parts[2..]);
      OperatorsMakeSolveable(sub, allowConcat, ops[1..]);
    }
  }

  /** Allowing concatenation never makes a solvable equation unsolvable. */
  lemma {:induction false} ConcatOnlyAdds(e: Equation)
    requires |e.parts| >= 1 && ConcatDefined(e)
    requires Solveable(e, false)
    ensures Solveable(e, true)
  {
    SolveableIff(e, false);
    SolveableIff(e, true);
    var ops :| Usable(e.parts, ops, false) && EvalLeft(e.parts, ops) == e.solution;
    assert Usable(e.parts, ops, true);
  }

  /* The sums. */

  /** The targets of all the equations. */
  function TargetSum(equations: seq<Equation>): nat {
    if equations == [] then 0 else TargetSum(equations[..|equations| - 1]) + equations[|equations| - 1].solution
  }

  /**
   * The targets of the solvable equations (`sum_solveable_equations[_concat]`): at
   * most all the targets, and all of them when every equation is solvable.
   */
  function SumSolveable(equations: seq<Equation>, allowConcat: bool): (sum: nat)
    requires forall k :: 0 <= k < |equations| ==> |equations[k].parts| >= 1 && (allowConcat ==> ConcatDefined(equations[k]))
    ensures sum <= TargetSum(equations)
    ensures (forall k :: 0 <= k < |equations| ==> Solveable(equations[k], allowConcat)) ==> sum == TargetSum(equations)
  {
    if equations == [] then 0
    else
      var last := equations[|equations| - 1];
      SumSolveable(equations[..|equations| - 1], allowConcat) + (if Solveable(last, allowConcat) then last.solution else 0)
  }

  /** The second part's sum is at least the first part's. */
  lemma {:induction false} ConcatSumAtLeast(equations: seq<Equation>)
    requires forall k :: 0 <= k < |equations| ==> |equations[k].parts| >= 1 && ConcatDefined(equations[k])
    ensures SumSolveable(equations, false) <= SumSolveable(equations, true)
    decreases |equations|
  {
    if equations != [] {
      ConcatSumAtLeast(equations[..|equations| - 1]);
      var last := equations[|equations| - 1];
      if Solveable(last, false) {
        ConcatOnlyAdds(last);
      }
    }
  }

  /** A sum counts each solvable equation's target and nothing else. */
  lemma {:induction false} SumAllSolveable(equations: seq<Equation>, allowConcat: bool)
    requires forall k :: 0 <= k < |equations| ==> |equations[k].parts| >= 1 && (allowConcat ==> ConcatDefined(equations[k]))
    ensures (forall k :: 0 <= k < |equations| ==> !Solveable(equations[k], allowConcat)) ==> SumSolveable(equations, allowConcat) == 0
    decreases |equations|
  {
    if equations != [] {
      SumAllSolveable(equations[..|equations| - 1], allowConcat);
    }
  }

  /* Reading the puzzle input. */

  /** A part `parse::<usize>()` accepts (a leading `+` is not modelled). */
  predicate IsPart(s: string) {
    IsDecimal(s)
  }

  /** `target: p1 p2 ...`: the target before the colon, the parts after it. */
  predicate IsEquationLine(line: string) {
    var halves := SplitOnce(line, ':');
    && halves.Some?
    && IsDecimal(halves.value.0)
    && var fields := Split(Trim(halves.value.1), ' ');
       forall i :: 0 <= i < |fields| ==> IsPart(fields[i])
  }

  function ParseEquation(line: string): (e: Equation)
    requires IsEquationLine(line)
    ensures |e.parts| >= 1
  {
    var halves := SplitOnce(line, ':').value;
    var fields := Split(Trim(halves.1), ' ');
    Equation(DecimalValue(halves.0), seq(|fields|, i requires 0 <= i < |fields| => DecimalValue(fields[i])))
  }

  /** `generate_equations`: one equation per line. */
  function GenerateEquations(input: string): (es: seq<Equation>)
    requires forall k :: 0 <= k < |Lines(input)| ==> IsEquationLine(Lines(input)[k])
    ensures |es| == |Lines(input)|
  {
    var lines := Lines(input);
    seq(|lines|, k requires 0 <= k < |lines| => ParseEquation(lines[k]))
  }

  function PartFields(parts: seq<nat>): (fields: seq<string>)
    ensures |fields| == |parts| && forall i :: 0 <= i < |parts| ==> fields[i] == DecimalString(parts[i])
  {
    if parts == [] then [] else PartFields(parts[..|parts| - 1]) + [DecimalString(parts[|parts| - 1])]
  }

  /** An equation written as the puzzle writes it. */
  function EquationLine(e: Equation): string {
    DecimalString(e.solution) + ":" + " " + Join(PartFields(e.parts), ' ')
  }

  /** Joined numerals start and end with a digit. */
  lemma {:induction false} JoinedNumeralsEnds(fields: seq<string>)
    requires fields != [] && forall i :: 0 <= i < |fields| ==> IsDecimal(fields[i])
    ensures var j := Join(fields, ' '); j != [] && IsDigit(j[0]) && IsDigit(j[|j| - 1])
    decreases |fields|
  {
    if |fields| > 1 {
      JoinedNumeralsEnds(fields[1..]);
    }
  }

  /** An equation written out is read back as itself. */
  lemma EquationLineRoundTrip(e: Equation)
    requires |e.parts| >= 1
    ensures IsEquationLine(EquationLine(e)) && ParseEquation(EquationLine(e)) == e
  {
    var fields := PartFields(e.parts);
    var sol := DecimalString(e.solution);
    var joined := Join(fields, ' ');
    DigitsExclude(sol, ':');
    SplitOnceFirst(sol, " " + joined, ':');
    assert EquationLine(e) == sol + [':'] + (" " + joined);
    JoinedNumeralsEnds(fields);
    assert " " + joined + [] == " " + joined;
    TrimPadded(" ", joined, []);
    forall i | 0 <= i < |fields|
      ensures ' ' !in fields[i] && DecimalValue(fields[i]) == e.parts[i]
    {
      DigitsExclude(fields[i], ' ');
      DecimalRoundTrip(e.parts[i]);
    }
    SplitJoin(fields, ' ');
    DecimalRoundTrip(e.solution);
  }

  /* The worked example: the verdict on each equation, with and without concatenation. */

  /** Two parts: solvable exactly when one operator combines them into the target. */
  lemma Step2(t: nat, a: nat, b: nat, ab: nat, allowConcat: bool)
    requires b > 0 && ab == Concat(a, b)
    ensures Solveable(Equation(t, [a, b]), allowConcat) <==>
            t == a + b || t == a * b || (allowConcat && t == ab)
  {
    var subs := FindSubequations(Equation(t, [a, b]), allowConcat);
    assert subs.0.parts == [a + b] && subs.1.parts == [a * b];
    assert allowConcat ==> subs.2.parts == [ab];
  }

  /** Three parts: solvable exactly when one first combination leaves a solvable pair. */
  lemma Step3(t: nat, a: nat, b: nat, ab: nat, c: nat, allowConcat: bool)
    requires b > 0 && c > 0 && ab == Concat(a, b)
    ensures Solveable(Equation(t, [a, b, c]), allowConcat) <==>
            Solveable(Equation(t, [a + b, c]), allowConcat) ||
            Solveable(Equation(t, [a * b, c]), allowConcat) ||
            (allowConcat && Solveable(Equation(t, [ab, c]), allowConcat))
  {
    var subs := FindSubequations(Equation(t, [a, b, c]), allowConcat);
    assert subs.0.parts == [a + b, c] && subs.1.parts == [a * b, c];
    assert allowConcat ==> subs.2.parts == [ab, c];
  }

  /** Four parts: solvable exactly when one first combination leaves a solvable triple. */
  lemma Step4(t: nat, a: nat, b: nat, ab: nat, c: nat, d: nat, allowConcat: bool)
    requires b > 0 && c > 0 && d > 0 && ab == Concat(a, b)
    ensures Solveable(Equation(t, [a, b, c, d]), allowConcat) <==>
            Solveable(Equation(t, [a + b, c, d]), allowConcat) ||
            Solveable(Equation(t, [a * b, c, d]), allowConcat) ||
            (allowConcat && Solveable(Equation(t, [ab, c, d]), allowConcat))
  {
    var subs := FindSubequations(Equation(t, [a, b, c, d]), allowConcat);
    assert subs.0.parts == [a + b, c, d] && subs.1.parts == [a * b, c, d];
    assert allowConcat ==> subs.2.parts == [ab, c, d];
  }

  /** Three parts none of whose nine ways of combining reaches the target. */
  lemma NoneFit3(t: nat, a: nat, b: nat, c: nat, allowConcat: bool)
    requires b > 0 && c > 0
    requires t != a + b + c && t != (a + b) * c && t != a * b + c && t != a * b * c
    requires allowConcat ==> t != Concat(a + b, c) && t != Concat(a * b, c)
    requires allowConcat ==> t != Concat(a, b) + c && t != Concat(a, b) * c && t != Concat(Concat(a, b), c)
    ensures !Solveable(Equation(t, [a, b, c]), allowConcat)
  {
    Step3(t, a, b, Concat(a, b), c, allowConcat);
    Step2(t, a + b, c, Concat(a + b, c), allowConcat);
    Step2(t, a * b, c, Concat(a * b, c), allowConcat);
    Step2(t, Concat(a, b), c, Concat(Concat(a, b), c), allowConcat);
  }

  /** `190: 10 19` is solvable with or without concatenation. */
  lemma Sample190(allowConcat: bool)
    ensures Solveable(Equation(190, [10, 19]), allowConcat)
  {
    Step2(190, 10, 19, 1019, allowConcat);
  }

  /** `3267: 81 40 27` is solvable with or without concatenation. */
  lemma Sample3267(allowConcat: bool)
    ensures Solveable(Equation(3267, [81, 40, 27]), allowConcat)
  {
    Step3(3267, 81, 40, 8140, 27, allowConcat);
    Step2(3267, 3240, 27, 324027, allowConcat);
  }

  /** `83: 17 5` is not solvable, even with concatenation. */
  lemma Sample83(allowConcat: bool)
    ensures !Solveable(Equation(83, [17, 5]), allowConcat)
  {
    Step2(83, 17, 5, 175, allowConcat);
  }

  /** `156: 15 6` is not solvable with addition and multiplication alone. */
  lemma Sample156Plain(allowConcat: bool)
    requires !allowConcat
    ensures !Solveable(Equation(156, [15, 6]), allowConcat)
  {
    Step2(156, 15, 6, 156, allowConcat);
  }

  /** `156: 15 6` is solvable once concatenation is allowed. */
  lemma Sample156Concat(allowConcat: bool)
    requires allowConcat
    ensures Solveable(Equation(156, [15, 6]), allowConcat)
  {
    Step2(156, 15, 6, 156, allowConcat);
  }

  /** `7290: 6 8 6 15` is not solvable with addition and multiplication alone. */
  lemma Sample7290Plain(allowConcat: bool)
    requires !allowConcat
    ensures !Solveable(Equation(7290, [6, 8, 6, 15]), allowConcat)
  {
    Step4(7290, 6, 8, 68, 6, 15, allowConcat);
    NoneFit3(7290, 14, 6, 15, allowConcat);
    NoneFit3(7290, 48, 6, 15, allowConcat);
  }

  /** `7290: 48 6 15`, after multiplying the first two parts, is solvable once concatenation is allowed. */
  lemma Sample7290Rest(allowConcat: bool)
    requires allowConcat
    ensures Solveable(Equation(7290, [48, 6, 15]), allowConcat)
  {
    Step3(7290, 48, 6, 486, 15, allowConcat);
    Step2(7290, 486, 15, 48615, allowConcat);
  }

  /** `7290: 6 8 6 15` is solvable once concatenation is allowed. */
  lemma Sample7290Concat(allowConcat: bool)
    requires allowConcat
    ensures Solveable(Equation(7290, [6, 8, 6, 15]), allowConcat)
  {
    Step4(7290, 6, 8, 68, 6, 15, allowConcat);
    Sample7290Rest(allowConcat);
  }

  /** `161011: 16 10 13` is not solvable, even with concatenation. */
  lemma Sample161011(allowConcat: bool)
    ensures !Solveable(Equation(161011, [16, 10, 13]), allowConcat)
  {
    NoneFit3(161011, 16, 10, 13, allowConcat);
  }

  /** `192: 17 8 14` is not solvable with addition and multiplication alone. */
  lemma Sample192Plain(allowConcat: bool)
    requires !allowConcat
    ensures !Solveable(Equation(192, [17, 8, 14]), allowConcat)
  {
    NoneFit3(192, 17, 8, 14, allowConcat);
  }

  /** `192: 17 8 14` is solvable once concatenation is allowed. */
  lemma Sample192Concat(allowConcat: bool)
    requires allowConcat
    ensures Solveable(Equation(192, [17, 8, 14]), allowConcat)
  {
    Step3(192, 17, 8, 178, 14, allowConcat);
    Step2(192, 178, 14, 17814, allowConcat);
  }

  /** `21037: 16 18 13`, after adding the first two parts, is not solvable. */
  lemma Sample21037Sum(allowConcat: bool)
    ensures !Solveable(Equation(21037, [16, 18, 13]), allowConcat)
  {
    NoneFit3(21037, 16, 18, 13, allowConcat);
  }

  /** `21037: 63 18 13`, after multiplying the first two parts, is not solvable. */
  lemma Sample21037Product(allowConcat: bool)
    ensures !Solveable(Equation(21037, [63, 18, 13]), allowConcat)
  {
    NoneFit3(21037, 63, 18, 13, allowConcat);
  }

  /** `21037: 97 18 13`, after concatenating the first two parts, is not solvable. */
  lemma Sample21037Concat(allowConcat: bool)
    ensures !Solveable(Equation(21037, [97, 18, 13]), allowConcat)
  {
    NoneFit3(21037, 97, 18, 13, allowConcat);
  }

  /** `21037: 9 7 18 13` is not solvable, even with concatenation. */
  lemma Sample21037(allowConcat: bool)
    ensures !Solveable(Equation(21037, [9, 7, 18, 13]), allowConcat)
  {
    Step4(21037, 9, 7, 97, 18, 13, allowConcat);
    Sample21037Sum(allowConcat);
    Sample21037Product(allowConcat);
    Sample21037Concat(allowConcat);
  }

  /** `292: 11 6 16 20` is solvable with or without concatenation. */
  lemma Sample292(allowConcat: bool)
    ensures Solveable(Equation(292, [11, 6, 16, 20]), allowConcat)
  {
    Step4(292, 11, 6, 116, 16, 20, allowConcat);
    Step3(292, 17, 16, 1716, 20, allowConcat);
    Step2(292, 272, 20, 27220, allowConcat);
  }
}
