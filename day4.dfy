/**
 * Day 4: a word search for XMAS.  Every X cell is tried in each of the
 * eight compass directions whose three-step end stays on the grid, and a
 * direction counts when the next three cells read M, A, S.
 */
module Day4 {
  import opened Text

  datatype XMasChar = X | M | A | S

  /** An `Array2`: `rows` × `cols` cells stored row by row. */
  datatype Grid = Grid(rows: nat, cols: nat, cells: seq<XMasChar>)

  predicate Valid(g: Grid) {
    |g.cells| == g.rows * g.cols
  }

  type Position = (nat, nat)
  type Dir = (int, int)

  // ---------------------------------------------------------------------
  // Reading the grid
  // ---------------------------------------------------------------------

  predicate IsXmasChar(c: char) {
    c == 'X' || c == 'M' || c == 'A' || c == 'S'
  }

  function Decode(c: char): (x: XMasChar)
    requires IsXmasChar(c)
  {
    match c
    case 'X' => X
    case 'M' => M
    case 'A' => A
    case 'S' => S
  }

  /** The characters `Decode` recovers. */
  function Encode(x: XMasChar): (c: char)
    ensures IsXmasChar(c) && Decode(c) == x
  {
    match x
    case X => 'X'
    case M => 'M'
    case A => 'A'
    case S => 'S'
  }

  /** `Encode` undoes `Decode`: the `match` pairs the four letters with the four variants one to one. */
  lemma DecodeInverse(c: char)
    requires IsXmasChar(c)
    ensures Encode(Decode(c)) == c
  {
  }


  /**
   * What `generate_data` accepts: a newline (it unwraps `find('\n')`), a
   * non-zero first-line width (it divides by it), only X/M/A/S (anything else
   * panics), and a whole number of rows (`from_shape_vec` unwraps).
   */
  predicate GridText(input: string) {
    '\n' in input && IsGridShape(Concat(Lines(input)), IndexOf(input, '\n').value)
  }

  /** Rows of `cols` X/M/A/S characters, stored one after another. */
  predicate IsGridShape(flat: string, cols: nat) {
    && cols > 0
    && |flat| % cols == 0
    && (forall i :: 0 <= i < |flat| ==> IsXmasChar(flat[i]))
  }

  function GenerateData(input: string): (g: Grid)
    requires GridText(input)
    ensures Valid(g) && |g.cells| == |Concat(Lines(input))|
    ensures g.cols == IndexOf(input, '\n').value && g.rows == |Concat(Lines(input))| / g.cols
    ensures forall k :: 0 <= k < |g.cells| ==> g.cells[k] == Decode(Concat(Lines(input))[k])
  {
    GridOf(Concat(Lines(input)), IndexOf(input, '\n').value)
  }

  /** `from_shape_vec((len / cols, cols), flat)` over the decoded characters. */
  function GridOf(flat: string, cols: nat): (g: Grid)
    requires IsGridShape(flat, cols)
    ensures Valid(g) && |g.cells| == |flat| && g.cols == cols && g.rows == |flat| / cols
    ensures forall k :: 0 <= k < |g.cells| ==> g.cells[k] == Decode(flat[k])
  {
    DivExact(|flat|, cols);
    Grid(|flat| / cols, cols, seq(|flat|, k requires 0 <= k < |flat| => Decode(flat[k])))
  }

  /** Reading a text whose lines all have the first line's width puts character (r, c) in cell (r, c). */
  lemma GeneratedCells(input: string, r: nat, c: nat)
    requires GridText(input)
    requires var lines := Lines(input); forall k :: 0 <= k < |lines| ==> |lines[k]| == |lines[0]|
    requires r < |Lines(input)| && c < |Lines(input)[0]|
    ensures var g := GenerateData(input);
            && g.cols == |Lines(input)[0]| && g.rows == |Lines(input)|
            && r < g.rows && c < g.cols
            && Encode(At(g, r, c)) == Lines(input)[r][c]
  {
    var lines := Lines(input);
    var n := |lines[0]|;
    FirstLineWidth(input);
    ConcatIndex(lines, n, r, c);
    var g := GenerateData(input);
    assert g.cols == n;
    assert |lines| * n / n == |lines| by { DivCancel(|lines|, n); }
  }

  lemma DivExact(a: nat, n: nat)
    requires n > 0 && a % n == 0
    ensures a / n * n == a
  {
    assert a == a / n * n + a % n;
  }

  lemma DivCancel(a: nat, n: nat)
    requires n > 0
    ensures a * n / n == a
  {
    DivUnique(a * n, n, a, 0);
  }

  // ---------------------------------------------------------------------
  // Cells
  // ---------------------------------------------------------------------

  lemma CellIndex(g: Grid, r: nat, c: nat)
    requires Valid(g) && r < g.rows && c < g.cols
    ensures r * g.cols + c < |g.cells|
  {
    assert r * g.cols + c < (r + 1) * g.cols;
    MulMonotone(r + 1, g.rows, g.cols);
  }

  lemma MulMonotone(a: nat, b: nat, n: nat)
    requires a <= b
    ensures a * n <= b * n
  {
  }

  function At(g: Grid, r: nat, c: nat): XMasChar
    requires Valid(g) && r < g.rows && c < g.cols
  {
    CellIndex(g, r, c);
    g.cells[r * g.cols + c]
  }

  /** The position `indexed_iter` reports for the k-th cell. */
  function PositionOf(g: Grid, k: nat): (p: Position)
    requires Valid(g) && k < |g.cells|
    ensures p.0 < g.rows && p.1 < g.cols && p.0 * g.cols + p.1 == k
  {
    RowBound(k, g.rows, g.cols);
    (k / g.cols, k % g.cols)
  }

  lemma RowBound(k: nat, rows: nat, cols: nat)
    requires k < rows * cols
    ensures cols > 0 && k / cols < rows && k / cols * cols + k % cols == k
  {
    assert rows * 0 == 0;
    var r := k / cols;
    assert r * cols + k % cols == k;
    if r >= rows {
      MulMonotone(rows, r, cols);
    }
  }

  // ---------------------------------------------------------------------
  // Directions
  // ---------------------------------------------------------------------

  /** The eight directions, in the order `get_xmas_directions` pushes them. */
  const Compass: seq<Dir> := [(-1, -1), (-1, 1), (1, -1), (1, 1), (-1, 0), (0, -1), (0, 1), (1, 0)]

  predicate IsCompass(d: Dir) {
    -1 <= d.0 <= 1 && -1 <= d.1 <= 1 && d != (0, 0)
  }

  /** Three steps from `p` along `d` stay on a `dim.0` × `dim.1` grid. */
  predicate Reaches(p: Position, d: Dir, dim: (nat, nat)) {
    0 <= p.0 + 3 * d.0 < dim.0 && 0 <= p.1 + 3 * d.1 < dim.1
  }

  lemma CompassIsEveryDirection(d: Dir)
    ensures d in Compass <==> IsCompass(d)
  {
  }

  function Keep(p: Position, d: Dir, dim: (nat, nat)): seq<Dir> {
    if Reaches(p, d, dim) then [d] else []
  }

  predicate Distinct<T(==)>(s: seq<T>) {
    forall i, j :: 0 <= i < j < |s| ==> s[i] != s[j]
  }

  /** The k-th direction `get_xmas_directions` tries. */
  function CompassAt(k: nat): (d: Dir)
    requires k < 8
    ensures IsCompass(d) && d == Compass[k]
  {
    match k
    case 0 => (-1, -1)
    case 1 => (-1, 1)
    case 2 => (1, -1)
    case 3 => (1, 1)
    case 4 => (-1, 0)
    case 5 => (0, -1)
    case 6 => (0, 1)
    case 7 => (1, 0)
  }

  /** Where a compass direction comes in that order. */
  function Rank(d: Dir): (k: nat)
    requires IsCompass(d)
    ensures k < 8 && CompassAt(k) == d
  {
    if d == (-1, -1) then 0
    else if d == (-1, 1) then 1
    else if d == (1, -1) then 2
    else if d == (1, 1) then 3
    else if d == (-1, 0) then 4
    else if d == (0, -1) then 5
    else if d == (0, 1) then 6
    else 7
  }

  lemma RankOfCompassAt(k: nat)
    requires k < 8
    ensures Rank(CompassAt(k)) == k
  {
  }

  /** The list after the first `k` guarded pushes. */
  function PushedUpTo(k: nat, p: Position, dim: (nat, nat)): (dirs: seq<Dir>)
    requires k <= 8
    ensures |dirs| <= k
  {
    if k == 0 then [] else PushedUpTo(k - 1, p, dim) + Keep(p, CompassAt(k - 1), dim)
  }

  /** After `k` pushes the list holds exactly the first `k` directions that reach. */
  lemma {:induction false} PushedMembers(k: nat, p: Position, dim: (nat, nat))
    requires k <= 8
    ensures forall d :: d in PushedUpTo(k, p, dim) <==> IsCompass(d) && Rank(d) < k && Reaches(p, d, dim)
  {
    if k > 0 {
      PushedMembers(k - 1, p, dim);
      RankOfCompassAt(k - 1);
    }
  }

  /** ... and holds each of them once. */
  lemma {:induction false} PushedDistinct(k: nat, p: Position, dim: (nat, nat))
    requires k <= 8
    ensures Distinct(PushedUpTo(k, p, dim))
  {
    if k > 0 {
      PushedDistinct(k - 1, p, dim);
      PushedMembers(k - 1, p, dim);
      RankOfCompassAt(k - 1);
      DistinctKeep(PushedUpTo(k - 1, p, dim), p, CompassAt(k - 1), dim);
    }
  }

  lemma DistinctKeep(s: seq<Dir>, p: Position, d: Dir, dim: (nat, nat))
    requires Distinct(s) && d !in s
    ensures Distinct(s + Keep(p, d, dim))
  {
    var t := s + Keep(p, d, dim);
    if Reaches(p, d, dim) {
      forall i, j | 0 <= i < j < |t| ensures t[i] != t[j] {
        if j == |s| {
          assert t[i] in s;
        }
      }
    }
  }

  /** All eight pushes: every reaching compass direction, each once. */
  lemma AllPushed(p: Position, dim: (nat, nat))
    ensures forall d :: d in PushedUpTo(8, p, dim) <==> IsCompass(d) && Reaches(p, d, dim)
    ensures Distinct(PushedUpTo(8, p, dim))
  {
    PushedMembers(8, p, dim);
    PushedDistinct(8, p, dim);
  }

  /** One `if … { directions.push(d) }` of `get_xmas_directions`, whose guard holds exactly when `d` reaches. */
  method PushIf(directions: seq<Dir>, ghost k: nat, guard: bool, d: Dir, p: Position, dim: (nat, nat))
    returns (after: seq<Dir>)
    requires k < 8 && d == CompassAt(k) && directions == PushedUpTo(k, p, dim)
    requires guard == Reaches(p, d, dim)
    ensures after == PushedUpTo(k + 1, p, dim)
  {
    after := directions;
    if guard {
      after := after + [d];
    }
  }

  const DirectionUp: bv8 := 1
  const DirectionRight: bv8 := 2
  const DirectionDown: bv8 := 4
  const DirectionLeft: bv8 := 8

  /** The first half of `get_xmas_directions`: one bit per side with three cells to spare. */
  method OpenSides(index: Position, dim: (nat, nat)) returns (allowed: bv8)
    requires dim.0 >= 3 && dim.1 >= 3
    ensures (allowed & DirectionUp != 0) <==> index.0 >= 3
    ensures (allowed & DirectionDown != 0) <==> index.0 + 3 < dim.0
    ensures (allowed & DirectionLeft != 0) <==> index.1 >= 3
    ensures (allowed & DirectionRight != 0) <==> index.1 + 3 < dim.1
  {
    allowed := 0;
    if index.0 >= 3 {
      allowed := allowed | DirectionUp;
    }
    if index.0 < dim.0 - 3 {
      allowed := allowed | DirectionDown;
    }
    if index.1 >= 3 {
      allowed := allowed | DirectionLeft;
    }
    if index.1 < dim.1 - 3 {
      allowed := allowed | DirectionRight;
    }
  }

  /** The four bits of `OpenSides`, read back as `allowed & DIRECTION != 0`. */
  method SidesOf(index: Position, dim: (nat, nat)) returns (up: bool, down: bool, left: bool, right: bool)
    requires dim.0 >= 3 && dim.1 >= 3
    ensures up <==> index.0 >= 3
    ensures down <==> index.0 + 3 < dim.0
    ensures left <==> index.1 >= 3
    ensures right <==> index.1 + 3 < dim.1
  {
    var allowed := OpenSides(index, dim);
    up, down := allowed & DirectionUp != 0, allowed & DirectionDown != 0;
    left, right := allowed & DirectionLeft != 0, allowed & DirectionRight != 0;
  }

  /**
   * `get_xmas_directions`: the directions tried from `index` are exactly the
   * compass directions whose three-step end is on the grid, each once.
   */
  method GetXmasDirections(index: Position, dim: (nat, nat)) returns (directions: seq<Dir>)
    requires dim.0 >= 3 && dim.1 >= 3
    requires index.0 < dim.0 && index.1 < dim.1
    ensures directions == PushedUpTo(8, index, dim)
    ensures forall d :: d in directions <==> IsCompass(d) && Reaches(index, d, dim)
    ensures Distinct(directions)
    ensures |directions| <= 8
  {
    var up, down, left, right := SidesOf(index, dim);

    directions := [];
    directions := PushIf(directions, 0, up && left, (-1, -1), index, dim);
    directions := PushIf(directions, 1, up && right, (-1, 1), index, dim);
    directions := PushIf(directions, 2, down && left, (1, -1), index, dim);
    directions := PushIf(directions, 3, down && right, (1, 1), index, dim);
    directions := PushIf(directions, 4, up, (-1, 0), index, dim);
    directions := PushIf(directions, 5, left, (0, -1), index, dim);
    directions := PushIf(directions, 6, right, (0, 1), index, dim);
    directions := PushIf(directions, 7, down, (1, 0), index, dim);
    AllPushed(index, dim);
  }

  // ---------------------------------------------------------------------
  // Counting
  // ---------------------------------------------------------------------

  const XmasOrder: seq<XMasChar> := [X, M, A, S]

  /** Stepping `f` ≤ 3 times along a reaching compass direction stays on the grid. */
  lemma StepOnGrid(g: Grid, p: Position, d: Dir, f: int)
    requires p.0 < g.rows && p.1 < g.cols && IsCompass(d) && Reaches(p, d, (g.rows, g.cols))
    requires 0 <= f <= 3
    ensures 0 <= p.0 + d.0 * f < g.rows && 0 <= p.1 + d.1 * f < g.cols
  {
  }

  /** The cell `f` steps from `p` along `d`. */
  function Along(g: Grid, p: Position, d: Dir, f: nat): XMasChar
    requires Valid(g) && p.0 < g.rows && p.1 < g.cols && IsCompass(d) && Reaches(p, d, (g.rows, g.cols))
    requires f <= 3
  {
    StepOnGrid(g, p, d, f);
    At(g, p.0 + d.0 * f, p.1 + d.1 * f)
  }

  /** The cells `f..3` steps along `d` read the rest of XMAS, as `(1..=3).all(..)` checks. */
  predicate SpelledFrom(g: Grid, p: Position, d: Dir, f: nat)
    requires Valid(g) && p.0 < g.rows && p.1 < g.cols && IsCompass(d) && Reaches(p, d, (g.rows, g.cols))
    requires 1 <= f
    decreases 4 - f
  {
    f > 3 || (Along(g, p, d, f) == XmasOrder[f] && SpelledFrom(g, p, d, f + 1))
  }

  predicate SpellsXmas(g: Grid, p: Position, d: Dir)
    requires Valid(g) && p.0 < g.rows && p.1 < g.cols && IsCompass(d) && Reaches(p, d, (g.rows, g.cols))
  {
    SpelledFrom(g, p, d, 1)
  }

  /** A direction matches exactly when the next three cells read M, A, S. */
  lemma SpellsXmasIff(g: Grid, p: Position, d: Dir)
    requires Valid(g) && p.0 < g.rows && p.1 < g.cols && IsCompass(d) && Reaches(p, d, (g.rows, g.cols))
    ensures SpellsXmas(g, p, d) <==> Along(g, p, d, 1) == M && Along(g, p, d, 2) == A && Along(g, p, d, 3) == S
  {
    assert SpelledFrom(g, p, d, 4);
  }

  /** The directions of `ds` along which XMAS reads from `p`, in order. */
  function Matching(g: Grid, p: Position, ds: seq<Dir>): (r: seq<Dir>)
    requires Valid(g) && p.0 < g.rows && p.1 < g.cols
    requires forall d :: d in ds ==> IsCompass(d) && Reaches(p, d, (g.rows, g.cols))
    ensures forall d :: d in r <==> d in ds && SpellsXmas(g, p, d)
  {
    if ds == [] then []
    else (if SpellsXmas(g, p, ds[0]) then [ds[0]] else []) + Matching(g, p, ds[1..])
  }

  lemma {:induction false} MatchingDistinct(g: Grid, p: Position, ds: seq<Dir>)
    requires Valid(g) && p.0 < g.rows && p.1 < g.cols
    requires forall d :: d in ds ==> IsCompass(d) && Reaches(p, d, (g.rows, g.cols))
    requires Distinct(ds)
    ensures Distinct(Matching(g, p, ds))
  {
    if ds != [] {
      MatchingDistinct(g, p, ds[1..]);
      assert ds[0] !in ds[1..];
    }
  }

  /** An X at the k-th cell with XMAS reading along `d`. */
  predicate XmasAt(g: Grid, k: nat, d: Dir)
    requires Valid(g)
  {
    && k < |g.cells|
    && g.cells[k] == X
    && IsCompass(d)
    && Reaches(PositionOf(g, k), d, (g.rows, g.cols))
    && SpellsXmas(g, PositionOf(g, k), d)
  }

  /** The (cell, direction) pairs that spell XMAS among the first `k` cells. */
  function XmasPairs(g: Grid, k: nat): set<(nat, Dir)>
    requires Valid(g)
  {
    set i: nat, d | 0 <= i < k && d in Compass && XmasAt(g, i, d) :: (i, d)
  }

  /** The pairs contributed by the k-th cell. */
  function CellPairs(g: Grid, k: nat): set<(nat, Dir)>
    requires Valid(g)
  {
    set d | d in Compass && XmasAt(g, k, d) :: (k, d)
  }

  /** The pairs of the first k + 1 cells: those of the first k, and the k-th cell's, which are new. */
  lemma PairsSnoc(g: Grid, k: nat)
    requires Valid(g)
    ensures XmasPairs(g, k + 1) == XmasPairs(g, k) + CellPairs(g, k)
    ensures XmasPairs(g, k) * CellPairs(g, k) == {}
  {
  }

  /** A cell that is not an X contributes no pair. */
  lemma NoPairsOffX(g: Grid, k: nat)
    requires Valid(g) && k < |g.cells| && g.cells[k] != X
    ensures CellPairs(g, k) == {}
  {
  }

  lemma PairsCountSnoc(g: Grid, k: nat)
    requires Valid(g)
    ensures |XmasPairs(g, k + 1)| == |XmasPairs(g, k)| + |CellPairs(g, k)|
  {
    PairsSnoc(g, k);
    DisjointCard(XmasPairs(g, k), CellPairs(g, k));
  }

  lemma DisjointCard<T>(a: set<T>, b: set<T>)
    requires a * b == {}
    ensures |a + b| == |a| + |b|
  {
    assert |a * b| == 0;
  }

  lemma {:induction false} TaggedCard(k: nat, ds: seq<Dir>)
    requires Distinct(ds)
    ensures |set d | d in ds :: (k, d)| == |ds|
  {
    if ds != [] {
      var n := |ds| - 1;
      assert Distinct(ds[..n]);
      TaggedCard(k, ds[..n]);
      assert (set d | d in ds :: (k, d)) == (set d | d in ds[..n] :: (k, d)) + {(k, ds[n])} by {
        assert ds == ds[..n] + [ds[n]];
      }
      assert ds[n] !in ds[..n];
    }
  }

  /**
   * The matches counted from an X cell are its pairs: the tried directions
   * are all the reaching compass directions, each once.
   */
  lemma MatchesArePairs(g: Grid, k: nat, directions: seq<Dir>)
    requires Valid(g) && k < |g.cells| && g.cells[k] == X
    requires forall d :: d in directions <==> IsCompass(d) && Reaches(PositionOf(g, k), d, (g.rows, g.cols))
    requires Distinct(directions)
    ensures |Matching(g, PositionOf(g, k), directions)| == |CellPairs(g, k)|
  {
    var p := PositionOf(g, k);
    var ms := Matching(g, p, directions);
    MatchingDistinct(g, p, directions);
    TaggedCard(k, ms);
    forall d ensures d in ms <==> d in Compass && XmasAt(g, k, d) {
      CompassIsEveryDirection(d);
    }
    assert (set d | d in ms :: (k, d)) == CellPairs(g, k);
  }

  /**
   * `count_xmas`: the number of (X cell, direction) pairs along which XMAS
   * reads. The grid is at least 3 × 3 once it holds an X, since
   * `get_xmas_directions` subtracts 3 from each dimension.
   */
  method CountXmas(g: Grid) returns (count: nat)
    requires Valid(g)
    requires (g.rows >= 3 && g.cols >= 3) || X !in g.cells
    ensures count == |XmasPairs(g, |g.cells|)|
  {
    count := 0;
    for k := 0 to |g.cells|
      invariant count == |XmasPairs(g, k)|
    {
      PairsCountSnoc(g, k);
      assert g.cells[k] in g.cells;
      var n := CellCount(g, k);
      count := count + n;
    }
  }

  /** The body of the loop of `count_xmas` for the k-th cell: its matches if it is an X, else none. */
  method CellCount(g: Grid, k: nat) returns (n: nat)
    requires Valid(g) && k < |g.cells|
    requires (g.rows >= 3 && g.cols >= 3) || g.cells[k] != X
    ensures n == |CellPairs(g, k)|
  {
    if g.cells[k] == X {
      var p := PositionOf(g, k);
      var directions := GetXmasDirections(p, (g.rows, g.cols));
      MatchesArePairs(g, k, directions);
      n := |Matching(g, p, directions)|;
    } else {
      NoPairsOffX(g, k);
      n := 0;
    }
  }
}
