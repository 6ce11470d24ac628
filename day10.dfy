/**
 * Day 10: hiking trails on a square topographic map of digit heights. A
 * trail starts at height 0, climbs by exactly one with every step to a
 * horizontal or vertical neighbour, and ends at height 9. A trailhead's
 * score is the number of 9s its trails reach (part 1) or the number of its
 * trails (part 2).
 */
module Day10 {
  import opened Options
  import opened Text

  type Position = (nat, nat)
  type Dir = (int, int)

  /** An `Array2<u8>`: `dim` × `dim` heights stored row by row. */
  datatype TopoMap = TopoMap(dim: nat, heights: seq<nat>)

  predicate Valid(m: TopoMap) {
    |m.heights| == m.dim * m.dim && forall i :: 0 <= i < |m.heights| ==> m.heights[i] <= 9
  }

  predicate OnMap(m: TopoMap, p: Position) {
    p.0 < m.dim && p.1 < m.dim
  }

  lemma CellIndex(r: nat, c: nat, n: nat)
    requires r < n && c < n
    ensures r * n + c < n * n
  {
    assert r * n + c < (r + 1) * n;
    MulMonotone(r + 1, n, n);
  }

  lemma MulMonotone(a: nat, b: nat, n: nat)
    requires a <= b
    ensures a * n <= b * n
  {
  }

  function Height(m: TopoMap, p: Position): (h: nat)
    requires Valid(m) && OnMap(m, p)
    ensures h <= 9
  {
    CellIndex(p.0, p.1, m.dim);
    m.heights[p.0 * m.dim + p.1]
  }

  // ---------------------------------------------------------------------
  // Reading the map
  // ---------------------------------------------------------------------

  /**
   * What `sum_trailheads_score` reads without panicking, taken as a square
   * block: one line per row, each as wide as the first newline is far in,
   * and only decimal digits.
   */
  predicate MapText(input: string) {
    && '\n' in input
    && var lines, n := Lines(input), IndexOf(input, '\n').value;
       && |lines| == n
       && (forall r :: 0 <= r < n ==> |lines[r]| == n)
       && (forall r, c :: 0 <= r < n && 0 <= c < |lines[r]| ==> IsDigit(lines[r][c]))
  }

  /** The heights of one line, `ch as u8 - '0' as u8` for each character. */
  function LineHeights(line: string): (hs: seq<nat>)
    requires AllDigits(line)
    ensures |hs| == |line| && forall i :: 0 <= i < |hs| ==> hs[i] == DigitValue(line[i])
  {
    seq(|line|, i requires 0 <= i < |line| => DigitValue(line[i]))
  }

  /** The heights of the lines, one after the other, as `flat_map` collects them. */
  function Flatten(lines: seq<string>): (hs: seq<nat>)
    requires forall r :: 0 <= r < |lines| ==> AllDigits(lines[r])
    ensures forall i :: 0 <= i < |hs| ==> hs[i] <= 9
  {
    if lines == [] then []
    else
      var n := |lines| - 1;
      Flatten(lines[..n]) + LineHeights(lines[n])
  }

  /** Equal-width lines put the height of character (r, c) at `r * n + c`. */
  lemma {:induction false} FlattenIndex(lines: seq<string>, n: nat, r: nat, c: nat)
    requires forall k :: 0 <= k < |lines| ==> AllDigits(lines[k]) && |lines[k]| == n
    requires r < |lines| && c < n
    ensures |Flatten(lines)| == |lines| * n
    ensures r * n + c < |Flatten(lines)| && Flatten(lines)[r * n + c] == DigitValue(lines[r][c])
    decreases |lines|
  {
    var last := |lines| - 1;
    var front := lines[..last];
    MulPred(|lines|, n);
    if r < last {
      FlattenIndex(front, n, r, c);
    } else {
      if last > 0 {
        FlattenIndex(front, n, 0, 0);
      }
      assert |Flatten(front)| == last * n;
    }
  }

  /** `Array2::from_shape_vec((dimension, dimension), collected)`. */
  function MapOf(input: string): (m: TopoMap)
    requires MapText(input)
    ensures Valid(m) && m.dim == |Lines(input)|
  {
    var lines, n := Lines(input), IndexOf(input, '\n').value;
    FlattenIndex(lines, n, 0, 0);
    TopoMap(n, Flatten(lines))
  }

  /** The cell at (r, c) of the map holds the digit at line r, column c. */
  lemma MapHeight(input: string, r: nat, c: nat)
    requires MapText(input) && r < |Lines(input)| && c < |Lines(input)|
    ensures OnMap(MapOf(input), (r, c)) && Height(MapOf(input), (r, c)) == DigitValue(Lines(input)[r][c])
  {
    FlattenIndex(Lines(input), |Lines(input)|, r, c);
  }

  /** The positions `(line_no, ch_no)` of the `0` digits. */
  function TrailheadsOf(input: string): (ts: set<Position>)
    requires MapText(input)
    ensures forall t :: t in ts ==> OnMap(MapOf(input), t)
  {
    var lines := Lines(input);
    set r: nat, c: nat | r < |lines| && c < |lines[r]| && lines[r][c] == '0' :: (r, c)
  }

  /** The trailheads are exactly the cells of height 0. */
  lemma TrailheadsAreLowest(input: string, p: Position)
    requires MapText(input)
    ensures p in TrailheadsOf(input) <==> OnMap(MapOf(input), p) && Height(MapOf(input), p) == 0
  {
    if OnMap(MapOf(input), p) {
      MapHeight(input, p.0, p.1);
    }
  }

  /**
   * The parse of `sum_trailheads_score`: the digits collected row by row
   * into the map, with every `0` inserted into the trailhead set on the way.
   */
  method ReadMap(input: string) returns (m: TopoMap, trailheads: set<Position>)
    requires MapText(input)
    ensures m == MapOf(input)
    ensures trailheads == TrailheadsOf(input)
  {
    var lines := Lines(input);
    var dimension := IndexOf(input, '\n').value;
    var collected: seq<nat> := [];
    trailheads := {};
    for r := 0 to |lines|
      invariant collected == Flatten(lines[..r])
      invariant trailheads == ZerosUpTo(lines, r)
    {
      var heights, zeros := ReadLine(lines[r], r);
      ZerosUpToSnoc(lines, r);
      assert lines[..r + 1][..r] == lines[..r];
      collected := collected + heights;
      trailheads := trailheads + zeros;
    }
    assert lines[..|lines|] == lines;
    m := TopoMap(dimension, collected);
  }

  /** The positions of the `0` digits on the first `r` lines. */
  ghost function ZerosUpTo(lines: seq<string>, r: nat): set<Position>
    requires r <= |lines|
  {
    set i: nat, c: nat | i < r && c < |lines[i]| && lines[i][c] == '0' :: (i, c)
  }

  /** The positions of the `0` digits on line `r`, which reads `line`. */
  ghost function ZerosOfLine(line: string, r: nat): set<Position> {
    set j: nat | j < |line| && line[j] == '0' :: (r, j)
  }

  lemma ZerosUpToSnoc(lines: seq<string>, r: nat)
    requires r < |lines|
    ensures ZerosUpTo(lines, r + 1) == ZerosUpTo(lines, r) + ZerosOfLine(lines[r], r)
  {
  }

  /** The inner loop of the parse: the heights of one line and where its `0` digits are. */
  method ReadLine(line: string, r: nat) returns (heights: seq<nat>, zeros: set<Position>)
    requires AllDigits(line)
    ensures heights == LineHeights(line)
    ensures zeros == ZerosOfLine(line, r)
  {
    heights := [];
    zeros := {};
    for c := 0 to |line|
      invariant heights == LineHeights(line[..c])
      invariant zeros == set j: nat | j < c && line[j] == '0' :: (r, j)
    {
      assert LineHeights(line[..c + 1]) == heights + [DigitValue(line[c])];
      heights := heights + [DigitValue(line[c])];
      if line[c] == '0' {
        zeros := zeros + {(r, c)};
      }
    }
    assert line[..|line|] == line;
  }

  // ---------------------------------------------------------------------
  // Trails
  // ---------------------------------------------------------------------

  /** The four directions, in the order `get_trailhead_score` tries them. */
  const Directions: seq<Dir> := [(-1, 0), (0, -1), (0, 1), (1, 0)]

  /** The neighbour one step along `d`, when it is inside `0..dim` on both axes. */
  function Neighbour(m: TopoMap, p: Position, d: Dir): (r: Option<Position>)
    ensures r.Some? ==> OnMap(m, r.value)
  {
    var t := (p.0 + d.0, p.1 + d.1);
    if 0 <= t.0 < m.dim && 0 <= t.1 < m.dim then Some((t.0, t.1)) else None
  }

  /** A step along `d` lands on the map, one height up. */
  predicate StepsUp(m: TopoMap, p: Position, d: Dir)
    requires Valid(m) && OnMap(m, p)
  {
    Neighbour(m, p, d).Some? && Height(m, Neighbour(m, p, d).value) == Height(m, p) + 1
  }

  /**
   * `get_trailhead_score`: the height-9 ends of every trail from `p`, once
   * per trail, in the order the directions are tried.
   */
  function TrailheadScore(m: TopoMap, p: Position): (ends: seq<Position>)
    requires Valid(m) && OnMap(m, p)
    ensures forall q :: q in ends ==> OnMap(m, q) && Height(m, q) == 9
    ensures Height(m, p) == 9 ==> ends == [p]
    decreases 9 - Height(m, p), 1, 0
  {
    if Height(m, p) == 9 then [p] else ScoreVia(m, p, Directions)
  }

  /** The ends reached through the directions of `ds`, each of them tried in turn. */
  function ScoreVia(m: TopoMap, p: Position, ds: seq<Dir>): (ends: seq<Position>)
    requires Valid(m) && OnMap(m, p) && Height(m, p) < 9
    ensures forall q :: q in ends ==> OnMap(m, q) && Height(m, q) == 9
    decreases 9 - Height(m, p), 0, |ds|
  {
    if ds == [] then []
    else
      var rest := ScoreVia(m, p, ds[1..]);
      if StepsUp(m, p, ds[0]) then TrailheadScore(m, Neighbour(m, p, ds[0]).value) + rest else rest
  }

  /** An end is reached through `ds` exactly when one of them steps up to a cell that reaches it. */
  lemma {:induction false} ScoreViaHas(m: TopoMap, p: Position, ds: seq<Dir>, q: Position)
    requires Valid(m) && OnMap(m, p) && Height(m, p) < 9
    ensures q in ScoreVia(m, p, ds) <==>
            exists d :: d in ds && StepsUp(m, p, d) && q in TrailheadScore(m, Neighbour(m, p, d).value)
  {
    if ds != [] {
      ScoreViaHas(m, p, ds[1..], q);
      forall d | d in ds ensures d == ds[0] || d in ds[1..] {
      }
    }
  }

  /** Horizontal or vertical neighbours. */
  predicate Adjacent(p: Position, q: Position) {
    || (p.0 == q.0 && (p.1 + 1 == q.1 || q.1 + 1 == p.1))
    || (p.1 == q.1 && (p.0 + 1 == q.0 || q.0 + 1 == p.0))
  }

  /** The directions step exactly to the neighbours on the map. */
  lemma NeighbourIsAdjacent(m: TopoMap, p: Position, d: Dir)
    requires d in Directions && Neighbour(m, p, d).Some?
    ensures Adjacent(p, Neighbour(m, p, d).value)
  {
  }

  lemma AdjacentIsNeighbour(m: TopoMap, p: Position, q: Position)
    requires OnMap(m, q) && Adjacent(p, q)
    ensures exists d :: d in Directions && Neighbour(m, p, d) == Some(q)
  {
    if q.0 + 1 == p.0 {
      assert Neighbour(m, p, (-1, 0)) == Some(q);
    } else if q.1 + 1 == p.1 {
      assert Neighbour(m, p, (0, -1)) == Some(q);
    } else if p.1 + 1 == q.1 {
      assert Neighbour(m, p, (0, 1)) == Some(q);
    } else {
      assert Neighbour(m, p, (1, 0)) == Some(q);
    }
  }

  /** A hiking trail from `p` to `q`: on the map, one height up per step, ending at 9. */
  ghost predicate TrailBetween(m: TopoMap, p: Position, q: Position, path: seq<Position>)
    requires Valid(m)
  {
    && |path| >= 1 && path[0] == p && path[|path| - 1] == q
    && (forall i :: 0 <= i < |path| ==> OnMap(m, path[i]))
    && (forall i :: 0 <= i < |path| - 1 ==>
          Adjacent(path[i], path[i + 1]) && Height(m, path[i + 1]) == Height(m, path[i]) + 1)
    && Height(m, q) == 9
  }

  /** Every end that `get_trailhead_score` returns closes a hiking trail. */
  lemma {:induction false} ScoreSound(m: TopoMap, p: Position, q: Position)
    requires Valid(m) && OnMap(m, p) && q in TrailheadScore(m, p)
    ensures exists path :: TrailBetween(m, p, q, path)
    decreases 9 - Height(m, p)
  {
    if Height(m, p) == 9 {
      assert TrailBetween(m, p, q, [p]);
    } else {
      ScoreViaHas(m, p, Directions, q);
      var d :| d in Directions && StepsUp(m, p, d) && q in TrailheadScore(m, Neighbour(m, p, d).value);
      var r := Neighbour(m, p, d).value;
      NeighbourIsAdjacent(m, p, d);
      ScoreSound(m, r, q);
      var tail :| TrailBetween(m, r, q, tail);
      TrailCons(m, p, r, q, tail);
    }
  }

  /** A step up to the start of a trail extends the trail. */
  lemma TrailCons(m: TopoMap, p: Position, r: Position, q: Position, tail: seq<Position>)
    requires Valid(m) && OnMap(m, p) && TrailBetween(m, r, q, tail)
    requires Adjacent(p, r) && Height(m, r) == Height(m, p) + 1
    ensures TrailBetween(m, p, q, [p] + tail)
  {
    var path := [p] + tail;
    assert forall i :: 0 < i < |path| ==> path[i] == tail[i - 1];
  }

  /** Every hiking trail's end is among those `get_trailhead_score` returns. */
  lemma {:induction false} ScoreComplete(m: TopoMap, p: Position, q: Position, path: seq<Position>)
    requires Valid(m) && OnMap(m, p) && TrailBetween(m, p, q, path)
    ensures q in TrailheadScore(m, p)
    decreases |path|
  {
    if |path| > 1 {
      var r := path[1];
      var tail := path[1..];
      assert TrailBetween(m, r, q, tail) by {
        assert forall i :: 0 <= i < |tail| ==> tail[i] == path[i + 1];
      }
      ScoreComplete(m, r, q, tail);
      AdjacentIsNeighbour(m, p, r);
      var d :| d in Directions && Neighbour(m, p, d) == Some(r);
      ScoreViaHas(m, p, Directions, q);
    }
  }

  /** The ends of a trailhead's score are exactly the 9s its hiking trails reach. */
  lemma ScoreIsTrailEnds(m: TopoMap, p: Position, q: Position)
    requires Valid(m) && OnMap(m, p)
    ensures q in TrailheadScore(m, p) <==> exists path :: TrailBetween(m, p, q, path)
  {
    if q in TrailheadScore(m, p) {
      ScoreSound(m, p, q);
    }
    if exists path :: TrailBetween(m, p, q, path) {
      var path :| TrailBetween(m, p, q, path);
      ScoreComplete(m, p, q, path);
    }
  }

  // ---------------------------------------------------------------------
  // Summing the scores
  // ---------------------------------------------------------------------

  /** What one trailhead adds: its distinct ends (part 1) or all of them (part 2). */
  function Contribution(m: TopoMap, t: Position, unique: bool): (n: nat)
    requires Valid(m) && OnMap(m, t)
    ensures n <= |TrailheadScore(m, t)|
    ensures !unique ==> n == |TrailheadScore(m, t)|
  {
    var ends := TrailheadScore(m, t);
    DistinctAtMostLength(ends);
    if unique then |set q | q in ends| else |ends|
  }

  ghost function Pick(ts: set<Position>): (t: Position)
    requires ts != {}
    ensures t in ts
  {
    var t :| t in ts; t
  }

  /** The contributions of the trailheads `ts`, in no particular order. */
  ghost function ScoreSum(m: TopoMap, ts: set<Position>, unique: bool): (n: nat)
    requires Valid(m) && forall t :: t in ts ==> OnMap(m, t)
    ensures forall t :: t in ts ==> Contribution(m, t, unique) <= n
    decreases ts
  {
    if ts == {} then 0
    else
      var t := Pick(ts);
      Contribution(m, t, unique) + ScoreSum(m, ts - {t}, unique)
  }

  /** Any trailhead may be taken first: the sum does not depend on the order. */
  lemma {:induction false} ScoreSumRemove(m: TopoMap, ts: set<Position>, t: Position, unique: bool)
    requires Valid(m) && (forall t' :: t' in ts ==> OnMap(m, t')) && t in ts
    ensures ScoreSum(m, ts, unique) == Contribution(m, t, unique) + ScoreSum(m, ts - {t}, unique)
    decreases ts
  {
    var x := Pick(ts);
    if x != t {
      ScoreSumRemove(m, ts - {x}, t, unique);
      assert ts - {x} - {t} == ts - {t} - {x};
      ScoreSumRemove(m, ts - {t}, x, unique);
    }
  }

  /**
   * `sum_trailheads_score`: the contributions of all trailheads, visited in
   * whatever order the set hands them out.
   */
  method SumTrailheadsScore(input: string, unique: bool) returns (sum: nat)
    requires MapText(input)
    ensures sum == ScoreSum(MapOf(input), TrailheadsOf(input), unique)
  {
    var m, trailheads := ReadMap(input);
    var rest := trailheads;
    sum := 0;
    while rest != {}
      invariant rest <= trailheads
      invariant sum + ScoreSum(m, rest, unique) == ScoreSum(m, trailheads, unique)
      decreases |rest|
    {
      var t :| t in rest;
      ScoreSumRemove(m, rest, t, unique);
      var ends := TrailheadScore(m, t);
      if unique {
        sum := sum + |set q | q in ends|;
      } else {
        sum := sum + |ends|;
      }
      rest := rest - {t};
    }
  }

  method Part1(input: string) returns (sum: nat)
    requires MapText(input)
    ensures sum == ScoreSum(MapOf(input), TrailheadsOf(input), true)
  {
    sum := SumTrailheadsScore(input, true);
  }

  method Part2(input: string) returns (sum: nat)
    requires MapText(input)
    ensures sum == ScoreSum(MapOf(input), TrailheadsOf(input), false)
  {
    sum := SumTrailheadsScore(input, false);
  }

  /** A sequence has no more distinct elements than it has elements. */
  lemma {:induction false} DistinctAtMostLength(s: seq<Position>)
    ensures |set q | q in s| <= |s|
  {
    if s != [] {
      DistinctAtMostLength(s[1..]);
      assert (set q | q in s) == {s[0]} + (set q | q in s[1..]);
    }
  }

  /** Counting distinct ends never exceeds counting trails. */
  lemma {:induction false} UniqueAtMostAll(m: TopoMap, ts: set<Position>)
    requires Valid(m) && forall t :: t in ts ==> OnMap(m, t)
    ensures ScoreSum(m, ts, true) <= ScoreSum(m, ts, false)
    decreases ts
  {
    if ts != {} {
      var t := Pick(ts);
      DistinctAtMostLength(TrailheadScore(m, t));
      UniqueAtMostAll(m, ts - {t});
    }
  }

  /** Part 1's answer is at most part 2's. */
  lemma PartOneAtMostPartTwo(input: string)
    requires MapText(input)
    ensures ScoreSum(MapOf(input), TrailheadsOf(input), true) <= ScoreSum(MapOf(input), TrailheadsOf(input), false)
  {
    UniqueAtMostAll(MapOf(input), TrailheadsOf(input));
  }
}
