/**
 * Day 3, the `mul(a,b)` scanner: a character-level state machine recognises
 * `mul(<digits>,<digits>)`; the scan sums the products it recognises, and the second part
 * ignores everything between a `don't()` and the next `do()`.
 */
module Day3 {
  import opened Options
  import opened Text

  datatype Multiplication = Multiplication(left: nat, right: nat)

  /** What the generator expects next. */
  datatype Generator =
    | Indicator(index: nat)
    | BracketLeft
    | FirstNumber(digits: nat)
    | SecondNumber(firstNumber: nat, digits: nat)
    | Done

  /** The state of a fresh generator, expecting the `m` of `mul`. */
  const Fresh: Generator := Indicator(0)

  /** `is_valid`: whether the generator accepts the character. */
  function IsValid(g: Generator, c: char): (ok: bool)
    ensures g.Indicator? ==> (ok <==> (g.index == 0 && c == 'm') || (g.index == 1 && c == 'u') || (g.index == 2 && c == 'l'))
    ensures g.FirstNumber? ==> (ok <==> IsDigit(c) || c == ',')
    ensures g.SecondNumber? ==> (ok <==> IsDigit(c) || c == ')')
    ensures g.Done? ==> !ok
  {
    match g
    case Indicator(index) =>
      if index == 0 then c == 'm' else if index == 1 then c == 'u' else if index == 2 then c == 'l' else false
    case BracketLeft => c == '('
    case FirstNumber(_) => '0' <= c <= '9' || c == ','
    case SecondNumber(_, _) => '0' <= c <= '9' || c == ')'
    case Done => false
  }

  /**
   * What `advance` does to the state: the next state, and the multiplication once its
   * closing bracket is read.
   * A digit c adds to the number being read as `digits * 10 + (c - '0')`.
   */
  function Transition(g: Generator, c: char): (r: (Generator, Option<Multiplication>))
    ensures r.1.Some? <==> g.SecondNumber? && c == ')'
    ensures r.1.Some? ==> r.0 == Done && r.1.value == Multiplication(g.firstNumber, g.digits)
  {
    match g
    case Indicator(index) => if index < 2 then (Indicator(index + 1), None) else (BracketLeft, None)
    case BracketLeft => (FirstNumber(0), None)
    case FirstNumber(digits) =>
      if c == ',' then (SecondNumber(digits, 0), None)
      else (FirstNumber(digits * 10 + AsciiOffset(c)), None)
    case SecondNumber(firstNumber, digits) =>
      if c == ')' then (Done, Some(Multiplication(firstNumber, digits)))
      else (SecondNumber(firstNumber, digits * 10 + AsciiOffset(c)), None)
    case Done => (Done, None)
  }

  /** `c as u16 - '0' as u16` for the characters `is_valid` lets through (digits). */
  function AsciiOffset(c: char): (d: nat)
    ensures d < 10
    ensures IsDigit(c) ==> DigitChar(d) == c
  {
    if IsDigit(c) then DigitValue(c) else 0
  }

  /** The generator as the scan holds it: one state, replaced by every `advance`. */
  class MultiplicationGenerator {
    var state: Generator

    /** `MultiplicationGenerator::default()`. */
    constructor()
      ensures state == Fresh
    {
      state := Fresh;
    }

    /** `advance`: moves to the next state and yields the multiplication once it is complete. */
    method Advance(c: char) returns (mul: Option<Multiplication>)
      modifies this
      ensures (state, mul) == Transition(old(state), c)
    {
      var (next, m) := Transition(state, c);
      state := next;
      mul := m;
    }
  }

  /** Only `m`, `u`, `l` in that order lead from a fresh generator to the bracket. */
  lemma IndicatorSpells(c0: char, c1: char, c2: char)
    ensures IsValid(Fresh, c0) && IsValid(Transition(Fresh, c0).0, c1) && IsValid(Transition(Transition(Fresh, c0).0, c1).0, c2)
            <==> c0 == 'm' && c1 == 'u' && c2 == 'l'
    ensures c0 == 'm' && c1 == 'u' && c2 == 'l' ==> Transition(Transition(Transition(Fresh, c0).0, c1).0, c2).0 == BracketLeft
  {
  }

  /* The scan as a transducer: one character at a time. */

  /**
   * One character of the scan as written: a product is counted and the generator restarts;
   * a character the generator rejects is consumed and the generator restarts. Only a
   * closing bracket read after the second number yields, and the scan never rests in `Done`.
   */
  function Feed(g: Generator, c: char): (r: (Generator, nat))
    ensures r.1 > 0 ==> c == ')' && g.SecondNumber? && r.0 == Fresh
    ensures !r.0.Done?
  {
    if IsValid(g, c) then
      match Transition(g, c)
      case (_, Some(m)) => (Fresh, m.left * m.right)
      case (next, None) => (next, 0)
    else (Fresh, 0)
  }

  /** The sum of the products recognised in s, starting in generator state g; none without a `)`. */
  function Scan(s: string, g: Generator): (n: nat)
    ensures (forall p :: 0 <= p < |s| ==> s[p] != ')') ==> n == 0
  {
    if s == [] then 0 else Feed(g, s[0]).1 + Scan(s[1..], Feed(g, s[0]).0)
  }

  /** The generator state after the scan of s. */
  function After(s: string, g: Generator): Generator {
    if s == [] then g else After(s[1..], Feed(g, s[0]).0)
  }

  /** Scanning two texts in turn is scanning them in one go. */
  lemma {:induction false} ScanAppend(s: string, t: string, g: Generator)
    ensures Scan(s + t, g) == Scan(s, g) + Scan(t, After(s, g))
    ensures After(s + t, g) == After(t, After(s, g))
  {
    if s != [] {
      assert (s + t)[1..] == s[1..] + t;
      ScanAppend(s[1..], t, Feed(g, s[0]).0);
    } else {
      assert s + t == t;
    }
  }

  /** Digits fold into the number as `digits * 10 + d`. */
  function Accumulate(n: nat, ds: string): (r: nat)
    requires AllDigits(ds)
    ensures n * Pow10(|ds|) <= r < (n + 1) * Pow10(|ds|)
    decreases |ds|
  {
    if ds == [] then n
    else
      AccumulateBound(n, DigitValue(ds[0]), Pow10(|ds| - 1));
      Accumulate(n * 10 + DigitValue(ds[0]), ds[1..])
  }

  /** A digit appended to `n` keeps the number between `10 * n` and `10 * n + 9`, at any scale `p`. */
  lemma AccumulateBound(n: nat, d: nat, p: nat)
    requires d < 10
    ensures n * (10 * p) <= (n * 10 + d) * p
    ensures (n * 10 + d + 1) * p <= (n + 1) * (10 * p)
  {
    assert (n * 10 + d) * p == n * (10 * p) + d * p;
    assert (n + 1) * (10 * p) == (n * 10 + d + 1) * p + (9 - d) * p;
  }

  lemma {:induction false} AccumulateSnoc(n: nat, ds: string, c: char)
    requires AllDigits(ds) && IsDigit(c)
    ensures AllDigits(ds + [c]) && Accumulate(n, ds + [c]) == Accumulate(n, ds) * 10 + DigitValue(c)
    decreases |ds|
  {
    if ds != [] {
      assert (ds + [c])[1..] == ds[1..] + [c];
      AccumulateSnoc(n * 10 + DigitValue(ds[0]), ds[1..], c);
    }
  }

  /** Folding the digits from 0 reads the decimal number they spell. */
  lemma {:induction false} AccumulateDecimal(ds: string)
    requires AllDigits(ds)
    ensures Accumulate(0, ds) == DecimalValue(ds)
    decreases |ds|
  {
    if ds != [] {
      var init := ds[..|ds| - 1];
      AccumulateDecimal(init);
      assert ds == init + [ds[|ds| - 1]];
      AccumulateSnoc(0, init, ds[|ds| - 1]);
    }
  }

  /** Reading digits in either number state accumulates them and recognises nothing. */
  lemma {:induction false} ScanDigits(ds: string, g: Generator)
    requires AllDigits(ds) && (g.FirstNumber? || g.SecondNumber?)
    ensures Scan(ds, g) == 0 && Accepts(ds, g)
    ensures After(ds, g) == if g.FirstNumber? then FirstNumber(Accumulate(g.digits, ds))
                            else SecondNumber(g.firstNumber, Accumulate(g.digits, ds))
    decreases |ds|
  {
    if ds != [] {
      ScanDigits(ds[1..], Feed(g, ds[0]).0);
    }
  }

  /** The text of one instruction, `mul(a,b)`. */
  function MulText(a: nat, b: nat): string {
    "mul(" + DecimalString(a) + "," + DecimalString(b) + ")"
  }

  lemma ScanOne(c: char, g: Generator)
    ensures Scan([c], g) == Feed(g, c).1 && After([c], g) == Feed(g, c).0
  {
    assert [c][1..] == [];
  }

  /** `mul(` takes a fresh generator to the first number, recognising nothing. */
  lemma ScanKeyword()
    ensures Scan("mul(", Fresh) == 0 && After("mul(", Fresh) == FirstNumber(0)
    ensures Accepts("mul(", Fresh)
  {
    assert "mul(" == ['m'] + (['u'] + (['l'] + ['(']));
    ScanOne('m', Fresh);
    ScanOne('u', Indicator(1));
    ScanOne('l', Indicator(2));
    ScanOne('(', BracketLeft);
    ScanAppend(['l'], ['('], Indicator(2));
    ScanAppend(['u'], ['l'] + ['('], Indicator(1));
    ScanAppend(['m'], ['u'] + (['l'] + ['(']), Fresh);
  }

  /** Every character of s is accepted by the state the scan is in when it arrives. */
  predicate Accepts(s: string, g: Generator) {
    s == [] || (IsValid(g, s[0]) && Accepts(s[1..], Feed(g, s[0]).0))
  }

  lemma {:induction false} AcceptsAppend(s: string, t: string, g: Generator)
    requires Accepts(s, g) && Accepts(t, After(s, g))
    ensures Accepts(s + t, g)
    decreases |s|
  {
    if s != [] {
      assert (s + t)[1..] == s[1..] + t;
      AcceptsAppend(s[1..], t, Feed(g, s[0]).0);
    } else {
      assert s + t == t;
    }
  }

  /** A fresh generator recognises `mul(a,b)` as the product a·b and is fresh again afterwards. */
  lemma MulTextRecognised(a: nat, b: nat)
    ensures Scan(MulText(a, b), Fresh) == a * b
    ensures After(MulText(a, b), Fresh) == Fresh
    ensures Accepts(MulText(a, b), Fresh)
  {
    var da, db := DecimalString(a), DecimalString(b);
    var rest := da + ("," + (db + ")"));
    assert MulText(a, b) == "mul(" + rest;
    ScanKeyword();
    FirstNumberRead(da, db);
    DecimalRoundTrip(a);
    DecimalRoundTrip(b);
    ScanAppend("mul(", rest, Fresh);
    AcceptsAppend("mul(", rest, Fresh);
  }

  /** From the first number, `<digits>,<digits>)` yields the product of the two numbers. */
  lemma FirstNumberRead(da: string, db: string)
    requires IsDecimal(da) && IsDecimal(db)
    ensures Scan(da + ("," + (db + ")")), FirstNumber(0)) == DecimalValue(da) * DecimalValue(db)
    ensures After(da + ("," + (db + ")")), FirstNumber(0)) == Fresh
    ensures Accepts(da + ("," + (db + ")")), FirstNumber(0))
  {
    var tail := "," + (db + ")");
    AccumulateDecimal(da);
    ScanDigits(da, FirstNumber(0));
    SecondNumberRead(DecimalValue(da), db);
    ScanAppend(da, tail, FirstNumber(0));
    AcceptsAppend(da, tail, FirstNumber(0));
  }

  /** From the first number a, `,<digits>)` yields a times the second number. */
  lemma SecondNumberRead(a: nat, db: string)
    requires IsDecimal(db)
    ensures Scan("," + (db + ")"), FirstNumber(a)) == a * DecimalValue(db)
    ensures After("," + (db + ")"), FirstNumber(a)) == Fresh
    ensures Accepts("," + (db + ")"), FirstNumber(a))
  {
    AccumulateDecimal(db);
    ScanDigits(db, SecondNumber(a, 0));
    ScanOne(',', FirstNumber(a));
    ScanOne(')', SecondNumber(a, DecimalValue(db)));
    ScanAppend(db, ")", SecondNumber(a, 0));
    AcceptsAppend(db, ")", SecondNumber(a, 0));
    ScanAppend(",", db + ")", FirstNumber(a));
    AcceptsAppend(",", db + ")", FirstNumber(a));
  }

  /* The scan as written: a fresh generator at each start, run until it yields or rejects. */

  /**
   * The inner `while let` loop: run generator g from position j until it yields a product
   * (which is counted), rejects a character (which is consumed) or the text ends. The sum
   * gained and the position after the last character read.
   */
  function RunGenerator(s: string, j: nat, g: Generator): (r: (nat, nat))
    requires j <= |s|
    ensures j <= r.1 <= |s| && (j < |s| ==> j < r.1)
    ensures r.0 > 0 ==> j < r.1 && s[r.1 - 1] == ')'
    decreases |s| - j
  {
    if j == |s| then (0, |s|)
    else if IsValid(g, s[j]) then
      match Transition(g, s[j])
      case (_, Some(m)) => (m.left * m.right, j + 1)
      case (next, None) => RunGenerator(s, j + 1, next)
    else (0, j + 1)
  }

  /**
   * The outer loop of `evaluate_muls` from position i, with or without `do()`/`don't()`;
   * nothing is gained when no `)` follows position i.
   */
  function Evaluate(s: string, i: nat, skipDonts: bool): (n: nat)
    requires i <= |s|
    ensures (forall p :: i <= p < |s| ==> s[p] != ')') ==> n == 0
    decreases |s| - i
  {
    if i == |s| then 0
    else
      var j := if skipDonts then SkipIfDisabled(s, i) else i;
      var (gain, k) := RunGenerator(s, j, Fresh);
      assert k > i;
      gain + Evaluate(s, k, skipDonts)
  }

  /** Running one generator is scanning up to where it stopped; the scan is then fresh again. */
  lemma {:induction false} RunGeneratorScans(s: string, j: nat, g: Generator)
    requires j <= |s|
    ensures Scan(s[j..], g) == RunGenerator(s, j, g).0 + Scan(s[RunGenerator(s, j, g).1..], if RunGenerator(s, j, g).1 == |s| then After(s[j..], g) else Fresh)
    decreases |s| - j
  {
    if j < |s| {
      assert s[j..][1..] == s[j + 1..];
      if IsValid(g, s[j]) && Transition(g, s[j]).1.None? {
        RunGeneratorScans(s, j + 1, Transition(g, s[j]).0);
      }
      if RunGenerator(s, j, g).1 == |s| {
        EmptyTail(s);
      }
    }
  }

  lemma EmptyTail(s: string)
    ensures s[|s|..] == []
  {
  }

  /** Without `do()`/`don't()`, the restarting loops compute the character-by-character scan. */
  lemma {:induction false} EvaluateIsScan(s: string, i: nat)
    requires i <= |s|
    ensures Evaluate(s, i, false) == Scan(s[i..], Fresh)
    decreases |s| - i
  {
    if i < |s| {
      var (gain, k) := RunGenerator(s, i, Fresh);
      RunGeneratorScans(s, i, Fresh);
      EvaluateIsScan(s, k);
    }
  }

  /* do() and don't() */

  /**
   * How many characters the compare loop `while pattern.peek() == chars.peek()` consumes:
   * the length of the longest common prefix of s[i..] and the pattern.
   */
  function MatchLength(s: string, i: nat, pattern: string): (k: nat)
    requires i <= |s|
    ensures k <= |pattern| && i + k <= |s|
    decreases |pattern|
  {
    if pattern != [] && i < |s| && s[i] == pattern[0] then 1 + MatchLength(s, i + 1, pattern[1..]) else 0
  }

  /** The matched characters are the pattern's first ones, and the next character differs. */
  lemma {:induction false} MatchLengthAgrees(s: string, i: nat, pattern: string)
    requires i <= |s|
    ensures var k := MatchLength(s, i, pattern);
            s[i..i + k] == pattern[..k] && (k < |pattern| && i + k < |s| ==> s[i + k] != pattern[k])
    decreases |pattern|
  {
    if pattern != [] && i < |s| && s[i] == pattern[0] {
      MatchLengthAgrees(s, i + 1, pattern[1..]);
      var k := MatchLength(s, i, pattern);
      assert s[i..i + k] == [s[i]] + s[i + 1..i + k];
      assert pattern[..k] == [pattern[0]] + pattern[1..][..k - 1];
    }
  }

  /** The `while let` loop of `skip_if_disabled` after a `don't()`: skip through the next full `do()`. */
  function SkipDisabled(s: string, i: nat): (j: nat)
    requires i <= |s|
    ensures i <= j <= |s|
    decreases |s| - i
  {
    if i == |s| then i
    else if s[i] == 'd' then
      var k := MatchLength(s, i, "do()");
      if k == 4 then i + 4 else SkipDisabled(s, i + k)
    else SkipDisabled(s, i + 1)
  }

  /** `skip_if_disabled`: the position after it, starting at i. */
  function SkipIfDisabled(s: string, i: nat): (j: nat)
    requires i <= |s|
    ensures i <= j <= |s|
  {
    if i < |s| && s[i] == 'd' then
      var k := MatchLength(s, i, "don't()");
      if k == 7 then SkipDisabled(s, i + 7) else i + k
    else i
  }

  /** Whether `do()` starts at position p. */
  predicate DoAt(s: string, p: int) {
    0 <= p && p + 4 <= |s| && s[p..p + 4] == "do()"
  }

  /**
   * Once disabled, the scan resumes right after the first `do()` at or after i, or at the end
   * of the text if there is none: a partly matched `do()` never hides a later one.
   */
  lemma {:induction false} SkipDisabledFindsDo(s: string, i: nat)
    requires i <= |s|
    ensures ResumesAfterDo(s, i, SkipDisabled(s, i))
    decreases |s| - i
  {
    if i < |s| {
      if s[i] == 'd' {
        var k := MatchLength(s, i, "do()");
        if k == 4 {
          DoMatched(s, i);
        } else {
          SkipDisabledFindsDo(s, i + k);
          NoDoInPartialMatch(s, i, k);
          NoDoJoin(s, i, i + k, SkipDisabled(s, i + k));
        }
      } else {
        SkipDisabledFindsDo(s, i + 1);
        NotDoAt(s, i);
        NoDoJoin(s, i, i + 1, SkipDisabled(s, i + 1));
      }
    }
  }

  /**
   * Scanning from i resumes at j: at the end of the text with no `do()` from i on, or right
   * after the first `do()` from i on.
   */
  predicate ResumesAfterDo(s: string, i: int, j: int) {
    (j == |s| && NoDoBetween(s, i, |s|)) || (i + 4 <= j && DoAt(s, j - 4) && NoDoBetween(s, i, j - 4))
  }

  lemma DoMatched(s: string, i: nat)
    requires i <= |s| && MatchLength(s, i, "do()") == 4
    ensures ResumesAfterDo(s, i, i + 4)
  {
    MatchLengthAgrees(s, i, "do()");
    assert "do()"[..4] == "do()";
  }

  lemma NotDoAt(s: string, i: nat)
    requires i < |s| && s[i] != 'd'
    ensures !DoAt(s, i)
  {
    if i + 4 <= |s| {
      assert s[i..i + 4][0] == s[i];
    }
  }

  /** No `do()` starts at a position from a up to b. */
  predicate NoDoBetween(s: string, a: int, b: int) {
    forall p :: a <= p < b ==> !DoAt(s, p)
  }

  /** A stretch free of `do()` in front of where the scan from m resumes extends it. */
  lemma NoDoJoin(s: string, a: int, m: int, j: int)
    requires a <= m && NoDoBetween(s, a, m) && ResumesAfterDo(s, m, j)
    ensures ResumesAfterDo(s, a, j)
  {
  }

  lemma NoDoInPartialMatch(s: string, i: nat, k: nat)
    requires i < |s| && s[i] == 'd' && k == MatchLength(s, i, "do()") && k < 4
    ensures NoDoBetween(s, i, i + k)
  {
    MatchLengthAgrees(s, i, "do()");
    forall p | i <= p < i + k ensures !DoAt(s, p) {
      NoDoInsidePartialMatch(s, i, k, p);
    }
  }

  /** A do() cannot start inside (or at) a prefix of do() that the text does not complete. */
  lemma NoDoInsidePartialMatch(s: string, i: nat, k: nat, p: nat)
    requires i + k <= |s| && 0 < k < 4 && s[i..i + k] == "do()"[..k]
    requires i + k < |s| ==> s[i + k] != "do()"[k]
    requires i <= p < i + k
    ensures !DoAt(s, p)
  {
    if p > i {
      assert s[p] == s[i..i + k][p - i] == "do()"[p - i] != 'd';
    } else if p + 4 <= |s| {
      assert s[p..p + 4][k] == s[i + k] != "do()"[k];
    }
  }

  /** A text without any `d` is evaluated the same with and without `do()`/`don't()` handling. */
  lemma {:induction false} NoDontNoChange(s: string, i: nat)
    requires i <= |s| && forall p :: 0 <= p < |s| ==> s[p] != 'd'
    ensures Evaluate(s, i, true) == Evaluate(s, i, false)
    decreases |s| - i
  {
    if i < |s| {
      EvaluateTail(s, i);
    }
  }

  lemma EvaluateTail(s: string, i: nat)
    requires i < |s| && forall p :: 0 <= p < |s| ==> s[p] != 'd'
    ensures Evaluate(s, i, true) == Evaluate(s, i, false)
    decreases |s| - i, 0
  {
    assert SkipIfDisabled(s, i) == i;
    var k := RunGenerator(s, i, Fresh).1;
    NoDontNoChange(s, k);
  }

  /* The methods. */

  /** `skip_if_disabled` on the text from position i; returns the position after it. */
  method SkipIfDisabledAt(s: string, i: nat) returns (j: nat)
    requires i <= |s|
    ensures j == SkipIfDisabled(s, i)
  {
    j := i;
    if j < |s| && s[j] == 'd' {
      var k := MatchPrefix(s, j, "don't()");
      j := j + k;
      if k == 7 {
        j := SkipDisabledFrom(s, j);
      }
    }
  }

  /** The `while let` loop after a `don't()`: runs to just past the next full `do()`. */
  method SkipDisabledFrom(s: string, i: nat) returns (j: nat)
    requires i <= |s|
    ensures j == SkipDisabled(s, i)
  {
    j := i;
    while j < |s|
      invariant i <= j <= |s|
      invariant SkipDisabled(s, j) == SkipDisabled(s, i)
      decreases |s| - j
    {
      if s[j] == 'd' {
        var m := MatchPrefix(s, j, "do()");
        SkipDisabledAtD(s, j);
        j := j + m;
        if m == 4 {
          return;
        }
      } else {
        j := j + 1;
      }
    }
  }

  lemma SkipDisabledAtD(s: string, i: nat)
    requires i < |s| && s[i] == 'd'
    ensures MatchLength(s, i, "do()") == 4 ==> SkipDisabled(s, i) == i + 4
    ensures MatchLength(s, i, "do()") < 4 ==> SkipDisabled(s, i) == SkipDisabled(s, i + MatchLength(s, i, "do()"))
  {
  }

  /** The compare loop: consume characters while they agree with the pattern's. */
  method MatchPrefix(s: string, i: nat, pattern: string) returns (k: nat)
    requires i <= |s|
    ensures k == MatchLength(s, i, pattern)
  {
    k := 0;
    while k < |pattern| && i + k < |s| && s[i + k] == pattern[k]
      invariant k <= |pattern| && i + k <= |s|
      invariant MatchLength(s, i, pattern) == k + MatchLength(s, i + k, pattern[k..])
      decreases |pattern| - k
    {
      MatchLengthStep(s, i + k, pattern, k);
      k := k + 1;
    }
    MatchLengthStop(s, i + k, pattern, k);
  }

  lemma MatchLengthStep(s: string, j: nat, pattern: string, k: nat)
    requires k < |pattern| && j < |s| && s[j] == pattern[k]
    ensures MatchLength(s, j, pattern[k..]) == 1 + MatchLength(s, j + 1, pattern[k + 1..])
  {
    assert pattern[k..][1..] == pattern[k + 1..];
  }

  lemma MatchLengthStop(s: string, j: nat, pattern: string, k: nat)
    requires k <= |pattern| && j <= |s|
    requires !(k < |pattern| && j < |s| && s[j] == pattern[k])
    ensures MatchLength(s, j, pattern[k..]) == 0
  {
  }

  /** `evaluate_muls`: sum the recognised products, skipping disabled text when asked to. */
  method EvaluateMuls(input: string, skipDonts: bool) returns (result: nat)
    ensures result == Evaluate(input, 0, skipDonts)
  {
    result := 0;
    var i := 0;
    while i < |input|
      invariant i <= |input|
      invariant result + Evaluate(input, i, skipDonts) == Evaluate(input, 0, skipDonts)
      decreases |input| - i
    {
      var j := i;
      if skipDonts {
        j := SkipIfDisabledAt(input, i);
      }
      var gain;
      gain, i := RunFreshGenerator(input, j);
      result := result + gain;
    }
  }

  /** The inner loop of `evaluate_muls`: a fresh generator reads from position j. */
  method RunFreshGenerator(input: string, j: nat) returns (gain: nat, i: nat)
    requires j <= |input|
    ensures (gain, i) == RunGenerator(input, j, Fresh)
  {
    i := j;
    var currentGenerator := new MultiplicationGenerator();
    while i < |input|
      invariant j <= i <= |input|
      invariant RunGenerator(input, i, currentGenerator.state) == RunGenerator(input, j, Fresh)
      decreases |input| - i
    {
      var newChar := input[i];
      i := i + 1;
      if IsValid(currentGenerator.state, newChar) {
        var newMul := currentGenerator.Advance(newChar);
        if newMul.Some? {
          return newMul.value.left * newMul.value.right, i;
        }
      } else {
        return 0, i;
      }
    }
    gain := 0;
  }

  /** `evaluate_ignore_do_dont` (part 1). */
  method EvaluateIgnoreDoDont(input: string) returns (result: nat)
    ensures result == Evaluate(input, 0, false)
    ensures result == Scan(input, Fresh)
  {
    result := EvaluateMuls(input, false);
    EvaluateIsScan(input, 0);
  }

  /** `evaluate_do_dont` (part 2). */
  method EvaluateDoDont(input: string) returns (result: nat)
    ensures result == Evaluate(input, 0, true)
  {
    result := EvaluateMuls(input, true);
  }

  /* A character the generator rejects is consumed, so an instruction starting there is lost. */

  /** As written, `mmul(a,b)` yields nothing: the second `m` is rejected and consumed. */
  lemma RejectedCharacterIsLost(a: nat, b: nat)
    ensures Scan("m" + MulText(a, b), Fresh) == 0
    ensures Scan(MulText(a, b), Fresh) == a * b
  {
    var t := MulText(a, b);
    MulTextRecognised(a, b);
    ScanAppend("m", t, Fresh);
    assert After("m", Fresh) == Indicator(1);
    MulTextTail(a, b);
    RejectRestarts(t, Indicator(1));
    ScanUnmatched(t[1..]);
  }

  /** `mul(a,b)` starts with its only `m`. */
  lemma MulTextTail(a: nat, b: nat)
    ensures |MulText(a, b)| > 0 && MulText(a, b)[0] == 'm' && 'm' !in MulText(a, b)[1..]
  {
    var da, db := DecimalString(a), DecimalString(b);
    DigitsExclude(da, 'm');
    DigitsExclude(db, 'm');
    assert MulText(a, b)[1..] == "ul(" + da + "," + db + ")";
  }

  /** A rejected first character is consumed and the rest is scanned by a fresh generator. */
  lemma RejectRestarts(t: string, g: Generator)
    requires t != [] && !IsValid(g, t[0])
    ensures Scan(t, g) == Scan(t[1..], Fresh)
  {
  }

  /** From a fresh generator, a text without an `m` recognises nothing. */
  lemma {:induction false} ScanUnmatched(s: string)
    requires 'm' !in s
    ensures Scan(s, Fresh) == 0
    decreases |s|
  {
    if s != [] {
      assert s[0] in s;
      assert forall c :: c in s[1..] ==> c in s;
      ScanUnmatched(s[1..]);
    }
  }

  /** The intended step: a rejected character is read again by a fresh generator. */
  function FeedRescanning(g: Generator, c: char): (Generator, nat) {
    if IsValid(g, c) then Feed(g, c) else Feed(Fresh, c)
  }

  /** The sum of the products recognised in s when rejected characters are read again. */
  function ScanRescanning(s: string, g: Generator): nat {
    if s == [] then 0 else FeedRescanning(g, s[0]).1 + ScanRescanning(s[1..], FeedRescanning(g, s[0]).0)
  }

  function AfterRescanning(s: string, g: Generator): Generator {
    if s == [] then g else AfterRescanning(s[1..], FeedRescanning(g, s[0]).0)
  }

  lemma {:induction false} ScanRescanningAppend(s: string, t: string, g: Generator)
    ensures ScanRescanning(s + t, g) == ScanRescanning(s, g) + ScanRescanning(t, AfterRescanning(s, g))
    decreases |s|
  {
    if s != [] {
      assert (s + t)[1..] == s[1..] + t;
      ScanRescanningAppend(s[1..], t, FeedRescanning(g, s[0]).0);
    } else {
      assert s + t == t;
    }
  }

  /** Where every character is accepted, the two scans agree. */
  lemma {:induction false} RescanningAgreesOnAccepted(s: string, g: Generator)
    requires Accepts(s, g)
    ensures ScanRescanning(s, g) == Scan(s, g)
    decreases |s|
  {
    if s != [] {
      RescanningAgreesOnAccepted(s[1..], Feed(g, s[0]).0);
    }
  }

  /**
   * With rescanning, every instruction counts whatever text comes before it:
   * nothing but a fresh generator accepts the `m`, so the instruction is read in full.
   */
  lemma RescanningCountsEveryInstruction(p: string, a: nat, b: nat)
    ensures ScanRescanning(p + MulText(a, b), Fresh) == ScanRescanning(p, Fresh) + a * b
  {
    var t := MulText(a, b);
    ScanRescanningAppend(p, t, Fresh);
    var g := AfterRescanning(p, Fresh);
    assert t[0] == 'm';
    assert FeedRescanning(g, 'm') == FeedRescanning(Fresh, 'm');
    assert ScanRescanning(t, g) == ScanRescanning(t, Fresh);
    MulTextRecognised(a, b);
    RescanningAgreesOnAccepted(t, Fresh);
  }

  /** The rescanning scan recognises `mmul(2,3)`, which the scan as written loses. */
  lemma RescanningKeepsRejectedCharacter()
    ensures ScanRescanning("m" + MulText(2, 3), Fresh) == 6 != Scan("m" + MulText(2, 3), Fresh)
  {
    RescanningCountsEveryInstruction("m", 2, 3);
    RejectedCharacterIsLost(2, 3);
    assert ScanRescanning("m", Fresh) == 0;
  }
}
