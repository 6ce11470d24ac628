/**
 * Day 11: a row of numbered stones that changes at every blink. A 0
 * becomes 1, a stone with an even number of digits splits into its left and
 * right halves, and any other stone is multiplied by 2024. The answer is
 * the number of stones after 25 (part 1) or 36 (part 2) blinks.
 */
module Day11 {
  import opened Text

  type Stone = nat

  function Pow2(k: nat): (p: nat)
    ensures p >= 1
  {
    if k == 0 then 1 else 2 * Pow2(k - 1)
  }

  // ---------------------------------------------------------------------
  // Digits
  // ---------------------------------------------------------------------

  /** The number of decimal digits of a positive stone. */
  function DigitCount(n: Stone): (k: nat)
    requires n > 0
    ensures k >= 1
  {
    if n < 10 then 1 else 1 + DigitCount(n / 10)
  }

  /** A stone with `k` digits lies in `10^(k-1) .. 10^k`. */
  lemma {:induction false} DigitCountBounds(n: Stone)
    requires n > 0
    ensures Pow10(DigitCount(n) - 1) <= n < Pow10(DigitCount(n))
  {
    if n >= 10 {
      DigitCountBounds(n / 10);
    }
  }

  /** The loop of `blink` that divides by ten until nothing is left, counting the steps. */
  method CountDigits(stone: Stone) returns (digitCount: nat)
    requires stone > 0
    ensures digitCount == DigitCount(stone)
  {
    digitCount := 0;
    var n: nat := stone;
    while n > 0
      invariant n > 0 ==> digitCount + DigitCount(n) == DigitCount(stone)
      invariant n == 0 ==> digitCount == DigitCount(stone)
      decreases n
    {
      n := n / 10;
      digitCount := digitCount + 1;
    }
  }

  lemma {:induction false} Pow10Add(a: nat, b: nat)
    ensures Pow10(a + b) == Pow10(a) * Pow10(b)
  {
    if a > 0 {
      Pow10Add(a - 1, b);
    }
  }

  lemma MulMonotone(a: nat, b: nat, n: nat)
    requires a <= b
    ensures a * n <= b * n
  {
  }

  /** The left half of a stone with `k` digits: its first `k / 2` digits. */
  function LeftHalf(s: Stone, k: nat): (l: int)
    ensures 0 <= l <= s
    ensures l * Pow10(k / 2) <= s < (l + 1) * Pow10(k / 2)
  {
    var p := Pow10(k / 2);
    DivBounds(s, p);
    s / p
  }

  /** The quotient `s / p` is at most `s`, and `p` times it lies within `p` below `s`. */
  lemma DivBounds(s: nat, p: nat)
    requires p >= 1
    ensures 0 <= s / p <= s
    ensures (s / p) * p <= s < (s / p + 1) * p
  {
    var q: nat, r := s / p, s % p;
    assert q * p + r == s && 0 <= r < p;
    assert (q + 1) * p == q * p + p;
    MulMonotone(1, p, q);
  }

  /**
   * Splitting a stone with an even number `k` of digits: the halves put back
   * together give the stone, the right half has at most `k / 2` digits and
   * the left half exactly `k / 2`.
   */
  lemma SplitHalves(s: Stone)
    requires s > 0 && DigitCount(s) % 2 == 0
    ensures LeftHalf(s, DigitCount(s)) * Pow10(DigitCount(s) / 2) <= s
    ensures s - LeftHalf(s, DigitCount(s)) * Pow10(DigitCount(s) / 2) < Pow10(DigitCount(s) / 2)
    ensures Pow10(DigitCount(s) / 2 - 1) <= LeftHalf(s, DigitCount(s)) < Pow10(DigitCount(s) / 2)
  {
    var k := DigitCount(s);
    var h := k / 2;
    var p := Pow10(h);
    DigitCountBounds(s);
    Pow10Add(h, h);
    Pow10Add(h - 1, h);
    assert k == h + h && k - 1 == h - 1 + h;
    DivBetween(s, p, Pow10(h - 1), p);
  }

  /** Bounds on a quotient from bounds on the dividend. */
  lemma DivBetween(s: nat, p: nat, lo: nat, hi: nat)
    requires p >= 1 && lo * p <= s < hi * p
    ensures s / p * p <= s < s / p * p + p
    ensures lo <= s / p < hi
  {
    var q := s / p;
    assert s == q * p + s % p;
    if q >= hi {
      MulMonotone(hi, q, p);
    }
    if q < lo {
      MulMonotone(q + 1, lo, p);
    }
  }

  /** The stones one stone turns into at a blink. */
  function Rule(s: Stone): (next: seq<Stone>)
    ensures 1 <= |next| <= 2
    ensures s == 0 ==> next == [1]
    ensures s > 0 && DigitCount(s) % 2 == 1 ==> next == [s * 2024]
  {
    if s == 0 then [1]
    else
      var k := DigitCount(s);
      if k % 2 == 0 then
        SplitHalves(s);
        var left := LeftHalf(s, k);
        [left, s - left * Pow10(k / 2)]
      else [s * 2024]
  }

  /** A split stone is its two halves written side by side. */
  lemma RuleSplits(s: Stone)
    requires s > 0 && DigitCount(s) % 2 == 0
    ensures |Rule(s)| == 2
    ensures Rule(s)[0] * Pow10(DigitCount(s) / 2) + Rule(s)[1] == s
    ensures Rule(s)[1] < Pow10(DigitCount(s) / 2)
    ensures Rule(s)[0] > 0 && DigitCount(Rule(s)[0]) == DigitCount(s) / 2
  {
    var k := DigitCount(s);
    var left := LeftHalf(s, k);
    SplitHalves(s);
    assert Rule(s) == [left, s - left * Pow10(k / 2)];
    LeftHalfDigits(s, k, left);
  }

  lemma LeftHalfDigits(s: Stone, k: nat, left: int)
    requires s > 0 && k == DigitCount(s) && k % 2 == 0 && left == LeftHalf(s, k)
    ensures left > 0 && DigitCount(left) == k / 2
  {
    SplitHalves(s);
    DigitCountUnique(left, k / 2);
  }

  /** The bounds `10^(k-1) <= n < 10^k` fix the digit count. */
  lemma {:induction false} DigitCountUnique(n: Stone, k: nat)
    requires n > 0 && k >= 1 && Pow10(k - 1) <= n < Pow10(k)
    ensures DigitCount(n) == k
  {
    if n >= 10 {
      assert k >= 2;
      DigitCountUnique(n / 10, k - 1);
    }
  }

  // ---------------------------------------------------------------------
  // Blinking
  // ---------------------------------------------------------------------

  /**
   * `blink`: the stones one stone becomes after `depth` blinks, in order.
   * There is at least one and at most `2^depth` of them.
   */
  function Blink(s: Stone, depth: nat): (stones: seq<Stone>)
    ensures 1 <= |stones| <= Pow2(depth)
    ensures depth == 0 ==> stones == [s]
    decreases depth, 0
  {
    if depth == 0 then [s] else BlinkAll(Rule(s), depth - 1)
  }

  /** The stones of a row after `depth` blinks, stone by stone, as `flat_map` joins them. */
  function BlinkAll(ss: seq<Stone>, depth: nat): (stones: seq<Stone>)
    ensures |ss| <= |stones| <= |ss| * Pow2(depth)
    decreases depth, |ss| + 1
  {
    if ss == [] then []
    else
      var first, rest := Blink(ss[0], depth), BlinkAll(ss[1..], depth);
      assert |rest| <= (|ss| - 1) * Pow2(depth);
      assert (|ss| - 1) * Pow2(depth) + Pow2(depth) == |ss| * Pow2(depth);
      first + rest
  }

  /** One blink of a whole row: every stone replaced by what `Rule` makes of it. */
  function Step(ss: seq<Stone>): (next: seq<Stone>)
    ensures |ss| <= |next| <= 2 * |ss|
  {
    if ss == [] then [] else Rule(ss[0]) + Step(ss[1..])
  }

  /** A row blinked `d` times, one whole row at a time. */
  function Iterate(ss: seq<Stone>, d: nat): seq<Stone>
    decreases d
  {
    if d == 0 then ss else Iterate(Step(ss), d - 1)
  }

  lemma {:induction false} BlinkAllAppend(a: seq<Stone>, b: seq<Stone>, d: nat)
    ensures BlinkAll(a + b, d) == BlinkAll(a, d) + BlinkAll(b, d)
  {
    if a == [] {
      assert a + b == b;
    } else {
      assert (a + b)[1..] == a[1..] + b;
      BlinkAllAppend(a[1..], b, d);
    }
  }

  /** Blinking the stones of a row once more is blinking the row after one blink. */
  lemma {:induction false} BlinkAllStep(ss: seq<Stone>, d: nat)
    ensures BlinkAll(ss, d + 1) == BlinkAll(Step(ss), d)
  {
    if ss != [] {
      BlinkAllStep(ss[1..], d);
      BlinkAllAppend(Rule(ss[0]), Step(ss[1..]), d);
    }
  }

  /**
   * The depth-first recursion of `blink` gives the same row, in the same
   * order, as blinking the whole row `d` times.
   */
  lemma {:induction false} BlinkAllIsIterate(ss: seq<Stone>, d: nat)
    ensures BlinkAll(ss, d) == Iterate(ss, d)
    decreases d
  {
    if d == 0 {
      BlinkAllNone(ss);
    } else {
      BlinkAllStep(ss, d - 1);
      BlinkAllIsIterate(Step(ss), d - 1);
    }
  }

  lemma {:induction false} BlinkAllNone(ss: seq<Stone>)
    ensures BlinkAll(ss, 0) == ss
  {
    if ss != [] {
      BlinkAllNone(ss[1..]);
    }
  }

  // ---------------------------------------------------------------------
  // Counting
  // ---------------------------------------------------------------------

  /** What `parse::<Stone>().unwrap()` accepts on every space-separated piece. */
  predicate StoneText(input: string) {
    forall i :: 0 <= i < |Split(input, ' ')| ==> IsDecimal(Split(input, ' ')[i])
  }

  function ParseStones(pieces: seq<string>): (stones: seq<Stone>)
    requires forall i :: 0 <= i < |pieces| ==> IsDecimal(pieces[i])
    ensures |stones| == |pieces|
  {
    if pieces == [] then []
    else
      assert IsDecimal(pieces[0]);
      [DecimalValue(pieces[0])] + ParseStones(pieces[1..])
  }

  function StonesOf(input: string): (stones: seq<Stone>)
    requires StoneText(input)
    ensures |stones| >= 1
  {
    ParseStones(Split(input, ' '))
  }

  /**
   * `count_stones_after_blink` (depth 25) and `count_stones_after_blink_many`
   * (depth 36): the number of stones the whole row becomes, at least the number
   * of stones and at most `2^depth` times it.
   */
  function CountStonesAfterBlink(input: string, depth: nat): (count: nat)
    requires StoneText(input)
    ensures |StonesOf(input)| <= count <= |StonesOf(input)| * Pow2(depth)
  {
    |BlinkAll(StonesOf(input), depth)|
  }

  /** The count is the length of the row blinked `depth` times. */
  lemma CountIsRowLength(input: string, depth: nat)
    requires StoneText(input)
    ensures CountStonesAfterBlink(input, depth) == |Iterate(StonesOf(input), depth)|
  {
    BlinkAllIsIterate(StonesOf(input), depth);
  }

  /** Part 1: the length of the row after blinking it 25 times. */
  function Part1(input: string): (count: nat)
    requires StoneText(input)
    ensures count == |Iterate(StonesOf(input), 25)|
  {
    CountIsRowLength(input, 25);
    CountStonesAfterBlink(input, 25)
  }

  /** Part 2: the length of the row after blinking it 36 times. */
  function Part2(input: string): (count: nat)
    requires StoneText(input)
    ensures count == |Iterate(StonesOf(input), 36)|
  {
    CountIsRowLength(input, 36);
    CountStonesAfterBlink(input, 36)
  }
}
