/**
 * The few operations on text that the puzzle solvers borrow from Rust's `str`:
 * splitting into lines and at a separator, trimming, and reading decimal numbers.
 * Text is a sequence of characters; `\r\n` line endings are not modelled.
 */
module Text {
  import opened Options

  predicate IsDigit(c: char) {
    '0' <= c <= '9'
  }

  /** `char::to_digit(10)` on a decimal digit. */
  function DigitValue(c: char): (d: nat)
    requires IsDigit(c)
    ensures d < 10
  {
    (c as int) - ('0' as int)
  }

  function DigitChar(d: nat): (c: char)
    requires d < 10
    ensures IsDigit(c) && DigitValue(c) == d
  {
    ('0' as int + d) as char
  }

  predicate AllDigits(s: string) {
    forall i :: 0 <= i < |s| ==> IsDigit(s[i])
  }

  /** What `str::parse` accepts here: a non-empty run of decimal digits. */
  predicate IsDecimal(s: string) {
    |s| > 0 && AllDigits(s)
  }

  /** The value of a run of decimal digits, most significant digit first. */
  function DecimalValue(s: string): nat
    requires AllDigits(s)
    decreases |s|
  {
    if s == [] then 0 else 10 * DecimalValue(s[..|s| - 1]) + DigitValue(s[|s| - 1])
  }

  /** `10usize.pow(k)`. */
  function Pow10(k: nat): (p: nat)
    ensures p >= 1
  {
    if k == 0 then 1 else 10 * Pow10(k - 1)
  }

  /** The decimal rendering of `n`, without leading zeros. */
  function DecimalString(n: nat): (s: string)
    ensures IsDecimal(s)
    ensures n > 0 ==> s[0] != '0'
  {
    if n < 10 then [DigitChar(n)] else DecimalString(n / 10) + [DigitChar(n % 10)]
  }

  /** Reading back a rendered number gives the number. */
  lemma {:induction false} DecimalRoundTrip(n: nat)
    ensures DecimalValue(DecimalString(n)) == n
  {
    if n >= 10 {
      DecimalRoundTrip(n / 10);
      var s := DecimalString(n);
      assert s[..|s| - 1] == DecimalString(n / 10);
    }
  }

  /** A run of digits contains no character that is not a digit. */
  lemma DigitsExclude(s: string, c: char)
    requires AllDigits(s) && !IsDigit(c)
    ensures c !in s
  {
    forall k | 0 <= k < |s|
      ensures s[k] != c
    {
      assert IsDigit(s[k]);
    }
  }

  /** Index of the first occurrence of `c` in `s`. */
  function IndexOf(s: string, c: char): (r: Option<nat>)
    ensures r.None? <==> c !in s
    ensures r.Some? ==> r.value < |s| && s[r.value] == c && c !in s[..r.value]
  {
    if s == [] then None
    else if s[0] == c then Some(0)
    else match IndexOf(s[1..], c)
      case None => None
      case Some(k) => assert s[1..][..k] == s[1..k + 1]; Some(k + 1)
  }

  /** `str::split_once` with a character separator: the text before and after its first occurrence. */
  function SplitOnce(s: string, sep: char): (r: Option<(string, string)>)
    ensures r.None? <==> sep !in s
    ensures r.Some? ==> sep !in r.value.0 && |r.value.0| + 1 + |r.value.1| == |s|
  {
    match IndexOf(s, sep)
    case None => None
    case Some(k) => Some((s[..k], s[k + 1..]))
  }

  /** The two halves of `SplitOnce`, with the separator between them, are the text. */
  lemma SplitOnceJoins(s: string, sep: char)
    requires sep in s
    ensures s == SplitOnce(s, sep).value.0 + [sep] + SplitOnce(s, sep).value.1
  {
    var k := IndexOf(s, sep).value;
    assert s == s[..k] + [sep] + s[k + 1..];
  }

  /** The pieces joined back with the separator between them. */
  function Join(parts: seq<string>, sep: char): string {
    if parts == [] then []
    else if |parts| == 1 then parts[0]
    else parts[0] + [sep] + Join(parts[1..], sep)
  }

  /** Joining pieces that lack a character, with another separator, does not introduce it. */
  lemma {:induction false} JoinExcludes(parts: seq<string>, sep: char, c: char)
    requires c != sep && forall i :: 0 <= i < |parts| ==> c !in parts[i]
    ensures c !in Join(parts, sep)
    decreases |parts|
  {
    if |parts| > 1 {
      JoinExcludes(parts[1..], sep, c);
    }
  }

  /** `str::split` with a character separator: always at least one piece, none containing `sep`. */
  function Split(s: string, sep: char): (parts: seq<string>)
    ensures |parts| >= 1
    ensures forall i :: 0 <= i < |parts| ==> sep !in parts[i]
    decreases |s|
  {
    match SplitOnce(s, sep)
    case None => [s]
    case Some((before, after)) => [before] + Split(after, sep)
  }

  /** Joining the pieces of a split gives back the text. */
  lemma {:induction false} SplitJoins(s: string, sep: char)
    ensures Join(Split(s, sep), sep) == s
    decreases |s|
  {
    if sep in s {
      var (before, after) := SplitOnce(s, sep).value;
      SplitOnceJoins(s, sep);
      SplitJoins(after, sep);
    }
  }

  /** Splitting once at the first separator recovers the text on either side of it. */
  lemma SplitOnceFirst(before: string, after: string, sep: char)
    requires sep !in before
    ensures SplitOnce(before + [sep] + after, sep) == Some((before, after))
  {
    var s := before + [sep] + after;
    assert s[|before|] == sep;
    var k := IndexOf(s, sep).value;
    assert k == |before|;
    assert s[..k] == before;
    assert s[k + 1..] == after;
  }

  /** Splitting joined pieces that do not contain the separator gives back the pieces. */
  lemma {:induction false} SplitJoin(parts: seq<string>, sep: char)
    requires parts != [] && forall i :: 0 <= i < |parts| ==> sep !in parts[i]
    ensures Split(Join(parts, sep), sep) == parts
  {
    if |parts| > 1 {
      SplitJoin(parts[1..], sep);
      SplitOnceFirst(parts[0], Join(parts[1..], sep), sep);
    }
  }

  /** Newline-terminated lines are read back as those lines. */
  lemma LinesOfText(lines: seq<string>)
    requires lines != [] && forall i :: 0 <= i < |lines| ==> '\n' !in lines[i]
    ensures Lines(Join(lines, '\n') + "\n") == lines
  {
    var text := Join(lines, '\n') + "\n";
    assert text[..|text| - 1] == Join(lines, '\n');
    SplitJoin(lines, '\n');
  }

  /** `str::lines`: split at `\n`, where a final `\n` does not begin another line. */
  function Lines(s: string): (ls: seq<string>)
    ensures forall i :: 0 <= i < |ls| ==> '\n' !in ls[i]
    ensures s == [] <==> ls == []
  {
    if s == [] then []
    else if s[|s| - 1] == '\n' then Split(s[..|s| - 1], '\n')
    else Split(s, '\n')
  }

  /** The lines joined back with `\n` are the text without its final `\n`. */
  lemma LinesJoin(s: string)
    requires s != []
    ensures Join(Lines(s), '\n') == (if s[|s| - 1] == '\n' then s[..|s| - 1] else s)
  {
    if s[|s| - 1] == '\n' {
      SplitJoins(s[..|s| - 1], '\n');
    } else {
      SplitJoins(s, '\n');
    }
  }

  predicate IsWhitespace(c: char) {
    c == ' ' || c == '\t' || c == '\n' || c == '\r'
  }

  function TrimStart(s: string): (r: string)
    ensures |r| <= |s| && r == s[|s| - |r|..]
    ensures r == [] || !IsWhitespace(r[0])
    ensures forall i :: 0 <= i < |s| - |r| ==> IsWhitespace(s[i])
  {
    if s != [] && IsWhitespace(s[0]) then TrimStart(s[1..]) else s
  }

  function TrimEnd(s: string): (r: string)
    ensures |r| <= |s| && r == s[..|r|]
    ensures r == [] || !IsWhitespace(r[|r| - 1])
    ensures forall i :: |r| <= i < |s| ==> IsWhitespace(s[i])
  {
    if s != [] && IsWhitespace(s[|s| - 1]) then TrimEnd(s[..|s| - 1]) else s
  }

  /** `str::trim`: whitespace removed at both ends, nothing else changed. */
  function Trim(s: string): (r: string)
    ensures r == [] || (!IsWhitespace(r[0]) && !IsWhitespace(r[|r| - 1]))
    ensures |r| <= |s|
  {
    TrimEnd(TrimStart(s))
  }

  predicate AllWhitespace(s: string) {
    forall i :: 0 <= i < |s| ==> IsWhitespace(s[i])
  }

  /** Trimming removes exactly the padding around a text that has no whitespace at its ends. */
  lemma TrimPadded(w: string, t: string, w': string)
    requires AllWhitespace(w) && AllWhitespace(w')
    requires t == [] || (!IsWhitespace(t[0]) && !IsWhitespace(t[|t| - 1]))
    ensures Trim(w + t + w') == t
  {
    if t == [] {
      assert w + t + w' == w + w';
      TrimStartBlank(w + w');
    } else {
      assert w + t + w' == w + (t + w');
      TrimStartPadded(w, t + w');
      TrimEndPadded(t, w');
    }
  }

  lemma {:induction false} TrimStartBlank(w: string)
    requires AllWhitespace(w)
    ensures TrimStart(w) == []
  {
    if w != [] {
      TrimStartBlank(w[1..]);
    }
  }

  lemma {:induction false} TrimStartPadded(w: string, t: string)
    requires AllWhitespace(w) && t != [] && !IsWhitespace(t[0])
    ensures TrimStart(w + t) == t
  {
    if w != [] {
      assert (w + t)[1..] == w[1..] + t;
      TrimStartPadded(w[1..], t);
    } else {
      assert w + t == t;
    }
  }

  lemma {:induction false} TrimEndPadded(t: string, w: string)
    requires AllWhitespace(w) && (t == [] || !IsWhitespace(t[|t| - 1]))
    ensures TrimEnd(t + w) == t
  {
    if w != [] {
      assert (t + w)[..|t + w| - 1] == t + w[..|w| - 1];
      TrimEndPadded(t, w[..|w| - 1]);
    } else {
      assert t + w == t;
    }
  }

  /** `u32::MAX + 1`: `parse::<u32>` rejects anything from here on. */
  const U32_LIMIT: nat := 0x1_0000_0000

  /** A field that `s.trim().parse::<u32>()` accepts (a leading `+` is not modelled). */
  predicate IsNumberField(s: string) {
    IsDecimal(Trim(s)) && DecimalValue(Trim(s)) < U32_LIMIT
  }

  /** `s.trim().parse::<u32>().unwrap()`. */
  function FieldValue(s: string): (n: nat)
    requires IsNumberField(s)
    ensures n < U32_LIMIT
  {
    DecimalValue(Trim(s))
  }

  /** A number written out, after any whitespace, reads back as itself. */
  lemma FieldRoundTrip(w: string, n: nat)
    requires AllWhitespace(w) && n < U32_LIMIT
    ensures IsNumberField(w + DecimalString(n)) && FieldValue(w + DecimalString(n)) == n
  {
    var d := DecimalString(n);
    assert w + d + [] == w + d;
    TrimPadded(w, d, []);
    DecimalRoundTrip(n);
  }

  /** The lines of a text read one after another, as `lines().flat_map(chars)` yields them. */
  function Concat(lines: seq<string>): (s: string)
    ensures |lines| > 0 ==> |s| >= |lines[0]|
  {
    if lines == [] then [] else lines[0] + Concat(lines[1..])
  }

  lemma {:induction false} ConcatIndex(lines: seq<string>, n: nat, i: nat, j: nat)
    requires forall k :: 0 <= k < |lines| ==> |lines[k]| == n
    requires i < |lines| && j < n
    ensures |Concat(lines)| == |lines| * n
    ensures i * n + j < |Concat(lines)| && Concat(lines)[i * n + j] == lines[i][j]
    decreases i
  {
    ConcatLength(lines, n);
    if i > 0 {
      ConcatIndex(lines[1..], n, i - 1, j);
      var k := (i - 1) * n + j;
      MulPred(i, n);
      assert Concat(lines)[n + k] == Concat(lines[1..])[k];
    } else {
      assert Concat(lines)[j] == lines[0][j];
    }
  }

  lemma MulPred(i: nat, n: nat)
    requires i > 0
    ensures i * n == (i - 1) * n + n
  {
  }

  lemma {:induction false} ConcatLength(lines: seq<string>, n: nat)
    requires forall k :: 0 <= k < |lines| ==> |lines[k]| == n
    ensures |Concat(lines)| == |lines| * n
  {
    if lines != [] {
      ConcatLength(lines[1..], n);
      MulPred(|lines|, n);
    }
  }

  lemma {:induction false} ConcatSnoc(lines: seq<string>, line: string)
    ensures Concat(lines + [line]) == Concat(lines) + line
  {
    if lines != [] {
      assert (lines + [line])[1..] == lines[1..] + [line];
      ConcatSnoc(lines[1..], line);
    }
  }

  /** The first occurrence is the one with no earlier occurrence. */
  lemma {:induction false} IndexOfUnique(s: string, c: char, k: nat)
    requires k < |s| && s[k] == c && c !in s[..k]
    ensures IndexOf(s, c) == Some(k)
  {
    if k > 0 {
      assert s[0] in s[..k];
      assert s[1..][..k - 1] == s[1..k];
      assert s[1..k] <= s[..k][1..];
      IndexOfUnique(s[1..], c, k - 1);
    }
  }

  /** The first line of a text with a newline runs up to its first newline. */
  lemma FirstLineWidth(input: string)
    requires '\n' in input
    ensures |Lines(input)| > 0 && |Lines(input)[0]| == IndexOf(input, '\n').value
  {
    var k := IndexOf(input, '\n').value;
    var body := if input[|input| - 1] == '\n' then input[..|input| - 1] else input;
    assert Lines(input) == Split(body, '\n');
    if k < |body| {
      assert body[..k] == input[..k];
      IndexOfUnique(body, '\n', k);
    } else {
      assert body == input[..k];
    }
  }

  /** Division is determined by quotient and remainder. */
  lemma DivUnique(a: int, n: int, q: int, r: int)
    requires n > 0 && 0 <= r < n && a == q * n + r
    ensures a / n == q && a % n == r
  {
    var q', r' := a / n, a % n;
    assert a == q' * n + r';
    assert (q - q') * n == r' - r by {
      assert (q - q') * n == q * n - q' * n;
    }
    MulBounds(q - q', n);
  }

  lemma MulBounds(a: int, d: int)
    requires d > 0
    ensures a >= 1 ==> a * d >= d
    ensures a <= -1 ==> a * d <= -d
  {
  }
}
