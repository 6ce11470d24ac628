/**
 * Model of the guard walk of src/day6.rs.
 *
 * A square map of cells holds exactly one guard. On every step the guard looks
 * at the cell in front of it: an empty or already covered cell is entered (the
 * cell left behind becomes covered), an obstruction makes the guard turn right
 * where it stands, and a position outside the map ends the walk. The answer is
 * the number of covered cells plus the cell the guard stands on at the end.
 *
 * The walk is specified by the pure functions `Step` and `Walk` over a snapshot
 * of the map (`seq<seq<Cell>>`); `WalkMap` performs it in place on an `array2`,
 * as the source does, and is proved to end in the state `Walk` describes.
 */
module Day6 {
  import opened Options
  import opened Text

  datatype Direction = North | East | South | West

  /** The (row, column) displacement of one step in a heading. */
  function Vector(d: Direction): (v: (int, int))
    ensures (if v.0 < 0 then -v.0 else v.0) + (if v.1 < 0 then -v.1 else v.1) == 1
  {
    match d
    case North => (-1, 0)
    case East => (0, 1)
    case South => (1, 0)
    case West => (0, -1)
  }

  /** The heading after a quarter turn clockwise: its vector is the old one turned by 90 degrees. */
  function RotateRight(d: Direction): (r: Direction)
    ensures Vector(r) == (Vector(d).1, -Vector(d).0)
    ensures r != d
  {
    match d
    case North => East
    case East => South
    case South => West
    case West => North
  }

  /** Four quarter turns bring the guard back to its heading; two give the opposite one. */
  lemma FourRotationsIdentity(d: Direction)
    ensures RotateRight(RotateRight(RotateRight(RotateRight(d)))) == d
    ensures Vector(RotateRight(RotateRight(d))) == (-Vector(d).0, -Vector(d).1)
  {
  }

  datatype Cell = Empty | Guard(direction: Direction) | Obstruction | Covered

  /** A cell the final count includes. */
  predicate IsVisited(c: Cell) {
    c.Covered? || c.Guard?
  }

  /** (row, column), as two `usize` values. */
  type Position = (nat, nat)

  const USIZE_MODULUS: int := 0x1_0000_0000_0000_0000

  /** `x as usize` for a signed value: two's-complement reinterpretation, so -1 becomes `usize::MAX`. */
  function AsUsize(x: int): (r: nat)
    ensures r < USIZE_MODULUS
    ensures 0 <= x < USIZE_MODULUS ==> r == x
    ensures x == -1 ==> r == USIZE_MODULUS - 1
  {
    x % USIZE_MODULUS
  }

  /** The position in front of the guard, computed as the source does, with wrap-around. */
  function NextPosition(pos: Position, d: Direction): Position {
    (AsUsize(pos.0 + Vector(d).0), AsUsize(pos.1 + Vector(d).1))
  }

  /**
   * The position in front is the plain step away from the edges of the address
   * space, and wraps to `usize::MAX` off row or column 0.
   */
  lemma NextPositionWraps(pos: Position, d: Direction)
    ensures NextPosition(pos, d).0 < USIZE_MODULUS && NextPosition(pos, d).1 < USIZE_MODULUS
    ensures 0 < pos.0 < USIZE_MODULUS - 1 && 0 < pos.1 < USIZE_MODULUS - 1 ==>
              NextPosition(pos, d) == (pos.0 + Vector(d).0, pos.1 + Vector(d).1)
    ensures pos.0 == 0 && d == North ==> NextPosition(pos, d).0 == USIZE_MODULUS - 1
    ensures pos.1 == 0 && d == West ==> NextPosition(pos, d).1 == USIZE_MODULUS - 1
  {
  }

  /** Every row has the length of the first one. */
  predicate Rectangular(g: seq<seq<Cell>>) {
    forall i :: 0 <= i < |g| ==> |g[i]| == |g[0]|
  }

  /** `Array2::get` returns a cell. */
  predicate InBounds(g: seq<seq<Cell>>, p: Position) {
    p.0 < |g| && p.1 < |g[p.0]|
  }

  /** The guard stands at `pos`, and no other cell holds a guard. */
  predicate OneGuardAt(g: seq<seq<Cell>>, pos: Position) {
    && InBounds(g, pos)
    && g[pos.0][pos.1].Guard?
    && forall i, j :: 0 <= i < |g| && 0 <= j < |g[i]| && g[i][j].Guard? ==> i == pos.0 && j == pos.1
  }

  /** The map with one cell replaced. */
  function Set(g: seq<seq<Cell>>, p: Position, c: Cell): (h: seq<seq<Cell>>)
    requires InBounds(g, p)
  {
    g[p.0 := g[p.0][p.1 := c]]
  }

  /** The state of a walk: the map, where the guard stands, and whether the guard has left. */
  datatype Walker = Walker(grid: seq<seq<Cell>>, pos: Position, exited: bool)

  /** The states the walk can be in: a rectangular map (of at most `usize` rows and columns) with one guard at `pos`. */
  predicate Valid(w: Walker) {
    && Rectangular(w.grid)
    && |w.grid| < USIZE_MODULUS
    && (|w.grid| > 0 ==> |w.grid[0]| < USIZE_MODULUS)
    && OneGuardAt(w.grid, w.pos)
  }

  /** Whether the cell the guard faces is on the map: exactly when the unwrapped coordinates are. */
  lemma NextInBoundsIff(w: Walker, d: Direction)
    requires Valid(w)
    ensures InBounds(w.grid, NextPosition(w.pos, d)) <==>
              0 <= w.pos.0 + Vector(d).0 < |w.grid| && 0 <= w.pos.1 + Vector(d).1 < |w.grid[0]|
    ensures InBounds(w.grid, NextPosition(w.pos, d)) ==> NextPosition(w.pos, d) != w.pos
  {
    var v := Vector(d);
    var n := NextPosition(w.pos, d);
    assert |w.grid[n.0 % |w.grid|]| == |w.grid[0]|;
    if w.pos.0 + v.0 == -1 {
      assert n.0 == USIZE_MODULUS - 1;
    } else {
      assert n.0 == w.pos.0 + v.0;
    }
    if w.pos.1 + v.1 == -1 {
      assert n.1 == USIZE_MODULUS - 1;
    } else {
      assert n.1 == w.pos.1 + v.1;
    }
  }

  /**
   * One application of the source's step: enter an empty or covered cell, turn right in
   * front of an obstruction, or leave when the cell in front is off the map.
   */
  function Step(w: Walker): (r: Walker)
    requires Valid(w)
    ensures Valid(r)
  {
    if w.exited then w
    else
      var d := w.grid[w.pos.0][w.pos.1].direction;
      var next := NextPosition(w.pos, d);
      NextInBoundsIff(w, d);
      if !InBounds(w.grid, next) then w.(exited := true)
      else
        match w.grid[next.0][next.1]
        case Empty | Covered =>
          MoveKeepsValid(w, next, d);
          Walker(Set(Set(w.grid, next, Guard(d)), w.pos, Covered), next, false)
        case Obstruction =>
          TurnKeepsValid(w, RotateRight(d));
          w.(grid := Set(w.grid, w.pos, Guard(RotateRight(d))))
        case Guard(_) =>
          assert false; w
  }

  /** Moving the guard to another cell of the map leaves one guard, at the new cell. */
  lemma MoveKeepsValid(w: Walker, next: Position, d: Direction)
    requires Valid(w) && InBounds(w.grid, next) && next != w.pos
    ensures Valid(Walker(Set(Set(w.grid, next, Guard(d)), w.pos, Covered), next, false))
  {
    var g: seq<seq<Cell>> := Set(Set(w.grid, next, Guard(d)), w.pos, Covered);
    forall i, j | 0 <= i < |g| && 0 <= j < |g[i]| && g[i][j].Guard? ensures i == next.0 && j == next.1 {
      assert (i, j) != w.pos;
    }
  }

  /** Turning the guard in place leaves one guard, where it stands. */
  lemma TurnKeepsValid(w: Walker, d: Direction)
    requires Valid(w)
    ensures Valid(w.(grid := Set(w.grid, w.pos, Guard(d))))
  {
  }

  /** The state after at most `n` steps; a walk that has left stays where it is. */
  function Walk(w: Walker, n: nat): (r: Walker)
    requires Valid(w)
    ensures Valid(r)
    ensures |r.grid| == |w.grid| && (|w.grid| > 0 ==> |r.grid[0]| == |w.grid[0]|)
    decreases n
  {
    if n == 0 || w.exited then w
    else
      StepKeepsShape(w);
      Walk(Step(w), n - 1)
  }

  /** A step keeps the number of rows and the width of the map. */
  lemma StepKeepsShape(w: Walker)
    requires Valid(w)
    ensures |Step(w).grid| == |w.grid| && (|w.grid| > 0 ==> |Step(w).grid[0]| == |w.grid[0]|)
  {
  }

  /** The walk leaves the map after finitely many steps. */
  ghost predicate Exits(w: Walker) {
    Valid(w) && exists n: nat :: Walk(w, n).exited
  }

  /** The guard's heading. */
  function Heading(w: Walker): Direction
    requires Valid(w)
  {
    w.grid[w.pos.0][w.pos.1].direction
  }

  /** A step into an empty or covered cell: the guard stands there with the same heading, the cell it left is covered, nothing else changes. */
  lemma StepMoves(w: Walker)
    requires Valid(w) && !w.exited
    requires InBounds(w.grid, NextPosition(w.pos, Heading(w)))
    requires w.grid[NextPosition(w.pos, Heading(w)).0][NextPosition(w.pos, Heading(w)).1] in {Empty, Covered}
    ensures Step(w).pos == NextPosition(w.pos, Heading(w)) && !Step(w).exited
    ensures Step(w).grid[Step(w).pos.0][Step(w).pos.1] == Guard(Heading(w))
    ensures Step(w).grid[w.pos.0][w.pos.1] == Covered
    ensures forall i, j :: 0 <= i < |w.grid| && 0 <= j < |w.grid[i]| && (i, j) != w.pos && (i, j) != Step(w).pos ==>
              Step(w).grid[i][j] == w.grid[i][j]
  {
    NextInBoundsIff(w, Heading(w));
  }

  /** A step facing an obstruction: the guard stays, turns right, and no other cell changes. */
  lemma StepTurns(w: Walker)
    requires Valid(w) && !w.exited
    requires InBounds(w.grid, NextPosition(w.pos, Heading(w)))
    requires w.grid[NextPosition(w.pos, Heading(w)).0][NextPosition(w.pos, Heading(w)).1] == Obstruction
    ensures Step(w).pos == w.pos && !Step(w).exited
    ensures Heading(Step(w)) == RotateRight(Heading(w))
    ensures forall i, j :: 0 <= i < |w.grid| && 0 <= j < |w.grid[i]| && (i, j) != w.pos ==>
              Step(w).grid[i][j] == w.grid[i][j]
  {
  }

  /** The walk ends exactly when the position in front of the guard is off the map (a coordinate of 0 minus 1 wraps past every row and column). */
  lemma StepExitsIff(w: Walker)
    requires Valid(w) && !w.exited
    ensures Step(w).exited <==>
              !(0 <= w.pos.0 + Vector(Heading(w)).0 < |w.grid| && 0 <= w.pos.1 + Vector(Heading(w)).1 < |w.grid[0]|)
    ensures Step(w).exited ==> Step(w).grid == w.grid && Step(w).pos == w.pos
  {
    NextInBoundsIff(w, Heading(w));
  }

  /** Visited cells stay visited, obstructions stay where they are, and a cell changes only by becoming visited. */
  predicate Monotone(g: seq<seq<Cell>>, h: seq<seq<Cell>>)
    requires Rectangular(g) && Rectangular(h) && |g| == |h| && (|g| > 0 ==> |g[0]| == |h[0]|)
  {
    forall i, j :: 0 <= i < |g| && 0 <= j < |g[i]| ==>
      && (IsVisited(g[i][j]) ==> IsVisited(h[i][j]))
      && (g[i][j].Obstruction? <==> h[i][j].Obstruction?)
      && (!IsVisited(h[i][j]) ==> h[i][j] == g[i][j])
  }

  lemma StepMonotone(w: Walker)
    requires Valid(w)
    ensures Monotone(w.grid, Step(w).grid)
  {
    if !w.exited {
      NextInBoundsIff(w, Heading(w));
    }
  }

  /** Along a whole walk, covered cells never revert to empty and obstructions never change. */
  lemma {:induction false} WalkMonotone(w: Walker, n: nat)
    requires Valid(w)
    ensures Monotone(w.grid, Walk(w, n).grid)
    decreases n
  {
    if n != 0 && !w.exited {
      var s := Step(w);
      StepMonotone(w);
      WalkMonotone(s, n - 1);
      var r := Walk(s, n - 1);
      assert Walk(w, n) == r;
      forall i, j | 0 <= i < |w.grid| && 0 <= j < |w.grid[i]|
        ensures IsVisited(w.grid[i][j]) ==> IsVisited(r.grid[i][j])
        ensures w.grid[i][j].Obstruction? <==> r.grid[i][j].Obstruction?
        ensures !IsVisited(r.grid[i][j]) ==> r.grid[i][j] == w.grid[i][j]
      {
        assert |s.grid[i]| == |w.grid[i]|;
      }
    }
  }

  /** A walk that has left the map stays the same however many more steps are allowed. */
  lemma {:induction false} WalkStable(w: Walker, n: nat, m: nat)
    requires Valid(w) && Walk(w, n).exited && n <= m
    ensures Walk(w, m) == Walk(w, n)
    decreases n
  {
    if n != 0 && !w.exited {
      WalkStable(Step(w), n - 1, m - 1);
    }
  }

  /** Every walk that leaves the map ends in the same state, whatever bound was used to observe it. */
  lemma WalkDeterministic(w: Walker, n: nat, m: nat)
    requires Valid(w) && Walk(w, n).exited && Walk(w, m).exited
    ensures Walk(w, n) == Walk(w, m)
  {
    if n <= m { WalkStable(w, n, m); } else { WalkStable(w, m, n); }
  }

  function CountRow(row: seq<Cell>): (k: nat)
    ensures k <= |row|
  {
    if row == [] then 0 else (if IsVisited(row[0]) then 1 else 0) + CountRow(row[1..])
  }

  /** The number of covered cells plus guard cells, as `count_distinct_fields` counts them. */
  function CountVisited(g: seq<seq<Cell>>): nat {
    if g == [] then 0 else CountRow(g[0]) + CountVisited(g[1..])
  }

  lemma {:induction false} CountRowSet(row: seq<Cell>, j: nat, c: Cell)
    requires j < |row|
    ensures CountRow(row[j := c]) + (if IsVisited(row[j]) then 1 else 0) == CountRow(row) + (if IsVisited(c) then 1 else 0)
  {
    if j > 0 {
      CountRowSet(row[1..], j - 1, c);
      assert row[j := c][1..] == row[1..][j - 1 := c];
    }
  }

  lemma {:induction false} CountSet(g: seq<seq<Cell>>, p: Position, c: Cell)
    requires InBounds(g, p)
    ensures CountVisited(Set(g, p, c)) + (if IsVisited(g[p.0][p.1]) then 1 else 0) == CountVisited(g) + (if IsVisited(c) then 1 else 0)
  {
    if p.0 == 0 {
      CountRowSet(g[0], p.1, c);
      assert Set(g, p, c)[1..] == g[1..];
    } else {
      CountSet(g[1..], (p.0 - 1, p.1), c);
      assert Set(g, p, c)[1..] == Set(g[1..], (p.0 - 1, p.1), c);
    }
  }

  /** A step adds one to the count exactly when the guard enters an empty cell; turning and leaving keep it. */
  lemma StepCount(w: Walker)
    requires Valid(w) && !w.exited
    ensures var n := NextPosition(w.pos, Heading(w));
            CountVisited(Step(w).grid) ==
              CountVisited(w.grid) + (if InBounds(w.grid, n) && w.grid[n.0][n.1] == Empty then 1 else 0)
  {
    var d := Heading(w);
    var n := NextPosition(w.pos, d);
    NextInBoundsIff(w, d);
    if InBounds(w.grid, n) {
      match w.grid[n.0][n.1]
      case Empty | Covered =>
        var g1 := Set(w.grid, n, Guard(d));
        CountSet(w.grid, n, Guard(d));
        CountSet(g1, w.pos, Covered);
      case Obstruction =>
        CountSet(w.grid, w.pos, Guard(RotateRight(d)));
      case Guard(_) =>
    }
  }

  /** A map holding a guard counts at least that cell, and never more cells than it has. */
  lemma {:induction false} CountBounds(w: Walker, n: nat)
    requires Valid(w)
    ensures 1 <= CountVisited(Walk(w, n).grid) <= |w.grid| * |w.grid[0]|
  {
    var r := Walk(w, n);
    CountAtMost(r.grid);
    CountAtLeastGuard(r.grid, r.pos);
  }

  lemma {:induction false} CountAtMost(g: seq<seq<Cell>>)
    requires Rectangular(g) && |g| > 0
    ensures CountVisited(g) <= |g| * |g[0]|
  {
    if |g| > 1 {
      CountAtMost(g[1..]);
      assert |g[1..][0]| == |g[0]|;
    }
  }

  lemma {:induction false} CountAtLeastGuard(g: seq<seq<Cell>>, p: Position)
    requires InBounds(g, p) && IsVisited(g[p.0][p.1])
    ensures CountVisited(g) >= 1
  {
    if p.0 == 0 {
      RowAtLeast(g[0], p.1);
    } else {
      CountAtLeastGuard(g[1..], (p.0 - 1, p.1));
    }
  }

  lemma {:induction false} RowAtLeast(row: seq<Cell>, j: nat)
    requires j < |row| && IsVisited(row[j])
    ensures CountRow(row) >= 1
  {
    if j > 0 {
      RowAtLeast(row[1..], j - 1);
    }
  }

  /** The contents of an `array2`, row by row. */
  function Snapshot(a: array2<Cell>): (g: seq<seq<Cell>>)
    reads a
    ensures |g| == a.Length0
    ensures forall i :: 0 <= i < |g| ==> |g[i]| == a.Length1
    ensures forall i, j :: 0 <= i < a.Length0 && 0 <= j < a.Length1 ==> g[i][j] == a[i, j]
  {
    seq(a.Length0, i requires 0 <= i < a.Length0 reads a =>
      seq(a.Length1, j requires 0 <= j < a.Length1 reads a => a[i, j]))
  }

  lemma SameMap(g: seq<seq<Cell>>, h: seq<seq<Cell>>)
    requires |g| == |h|
    requires forall i :: 0 <= i < |g| ==> |g[i]| == |h[i]|
    requires forall i, j :: 0 <= i < |g| && 0 <= j < |g[i]| ==> g[i][j] == h[i][j]
    ensures g == h
  {
    forall i | 0 <= i < |g| ensures g[i] == h[i] {
      assert |g[i]| == |h[i]|;
    }
  }

  /** The body of `walk_map_recursive`: one step performed in place on the map. */
  method StepInPlace(guardMap: array2<Cell>, pos: Position) returns (newPos: Position, left: bool)
    requires Valid(Walker(Snapshot(guardMap), pos, false))
    modifies guardMap
    ensures Walker(Snapshot(guardMap), newPos, left) == Step(Walker(old(Snapshot(guardMap)), pos, false))
  {
    ghost var before := Walker(Snapshot(guardMap), pos, false);
    var direction := guardMap[pos.0, pos.1].direction;
    var v := Vector(direction);
    var next: Position := (AsUsize(pos.0 + v.0), AsUsize(pos.1 + v.1));
    NextInBoundsIff(before, direction);
    newPos, left := pos, false;
    if next.0 < guardMap.Length0 && next.1 < guardMap.Length1 {
      var item := guardMap[next.0, next.1];
      match item
      case Empty | Covered =>
        guardMap[next.0, next.1] := Guard(direction);
        guardMap[pos.0, pos.1] := Covered;
        newPos := next;
        StepIntoCell(before);
        Replaced(Snapshot(guardMap), before.grid, next, Guard(direction), pos, Covered);
      case Obstruction =>
        guardMap[pos.0, pos.1] := Guard(RotateRight(direction));
        StepAtObstruction(before);
        ReplacedOnce(Snapshot(guardMap), before.grid, pos, Guard(RotateRight(direction)));
      case Guard(_) =>
        assert false;
    } else {
      left := true;
      StepOffMap(before);
      SameMap(Snapshot(guardMap), before.grid);
    }
  }

  /** A map that differs from `g` only at `p` (set to `c`) and then at `q` (set to `e`). */
  lemma Replaced(h: seq<seq<Cell>>, g: seq<seq<Cell>>, p: Position, c: Cell, q: Position, e: Cell)
    requires InBounds(g, p) && InBounds(g, q)
    requires |h| == |g| && forall i :: 0 <= i < |g| ==> |h[i]| == |g[i]|
    requires forall i, j :: 0 <= i < |g| && 0 <= j < |g[i]| ==>
               h[i][j] == if (i, j) == q then e else if (i, j) == p then c else g[i][j]
    ensures h == Set(Set(g, p, c), q, e)
  {
    SameMap(h, Set(Set(g, p, c), q, e));
  }

  /** A map that differs from `g` only at `p`, set to `c`. */
  lemma ReplacedOnce(h: seq<seq<Cell>>, g: seq<seq<Cell>>, p: Position, c: Cell)
    requires InBounds(g, p)
    requires |h| == |g| && forall i :: 0 <= i < |g| ==> |h[i]| == |g[i]|
    requires forall i, j :: 0 <= i < |g| && 0 <= j < |g[i]| ==> h[i][j] == if (i, j) == p then c else g[i][j]
    ensures h == Set(g, p, c)
  {
    SameMap(h, Set(g, p, c));
  }

  /** The step into an empty or covered cell. */
  lemma StepIntoCell(w: Walker)
    requires Valid(w) && !w.exited
    requires InBounds(w.grid, NextPosition(w.pos, Heading(w)))
    requires var n := NextPosition(w.pos, Heading(w)); w.grid[n.0][n.1].Empty? || w.grid[n.0][n.1].Covered?
    ensures var n := NextPosition(w.pos, Heading(w));
            Step(w) == Walker(Set(Set(w.grid, n, Guard(Heading(w))), w.pos, Covered), n, false)
  {
  }

  /** The turn in front of an obstruction. */
  lemma StepAtObstruction(w: Walker)
    requires Valid(w) && !w.exited
    requires InBounds(w.grid, NextPosition(w.pos, Heading(w)))
    requires var n := NextPosition(w.pos, Heading(w)); w.grid[n.0][n.1].Obstruction?
    ensures Step(w) == w.(grid := Set(w.grid, w.pos, Guard(RotateRight(Heading(w)))))
  {
  }

  /** The step off the map. */
  lemma StepOffMap(w: Walker)
    requires Valid(w) && !w.exited
    requires !InBounds(w.grid, NextPosition(w.pos, Heading(w)))
    ensures Step(w) == w.(exited := true)
  {
  }

  /**
   * `walk_map_recursive`, as a loop: the guard walks the map in place until the cell in
   * front of it is off the map. The walk must leave the map (the source recurses forever
   * otherwise); the final map is the one `Walk` reaches.
   */
  method WalkMap(guardMap: array2<Cell>, start: Position)
    requires Exits(Walker(Snapshot(guardMap), start, false))
    modifies guardMap
    ensures forall n: nat :: Walk(Walker(old(Snapshot(guardMap)), start, false), n).exited ==>
              Snapshot(guardMap) == Walk(Walker(old(Snapshot(guardMap)), start, false), n).grid
  {
    ghost var w0 := Walker(Snapshot(guardMap), start, false);
    ghost var bound: nat :| Walk(w0, bound).exited;
    ghost var steps: nat := 0;
    var pos: Position := start;
    var done := false;
    while !done
      invariant steps <= bound
      invariant Valid(Walker(Snapshot(guardMap), pos, done))
      invariant Walk(Walker(Snapshot(guardMap), pos, done), bound - steps) == Walk(w0, bound)
      decreases bound - steps
    {
      ghost var before := Walker(Snapshot(guardMap), pos, done);
      assert Walk(before, bound - steps).exited;
      pos, done := StepInPlace(guardMap, pos);
      steps := steps + 1;
    }
    forall n: nat | Walk(w0, n).exited
      ensures Snapshot(guardMap) == Walk(w0, n).grid
    {
      WalkDeterministic(w0, n, bound);
    }
  }

  /**
   * `count_distinct_fields`: walks a copy of the map (the given one is left untouched) and
   * counts the covered cells and the guard's final cell.
   */
  method CountDistinctFields(guardMap: array2<Cell>, start: Position) returns (count: nat)
    requires Exits(Walker(Snapshot(guardMap), start, false))
    ensures forall n: nat :: Walk(Walker(Snapshot(guardMap), start, false), n).exited ==>
              count == CountVisited(Walk(Walker(Snapshot(guardMap), start, false), n).grid)
  {
    var copy := new Cell[guardMap.Length0, guardMap.Length1]((i, j) reads guardMap =>
      if 0 <= i < guardMap.Length0 && 0 <= j < guardMap.Length1 then guardMap[i, j] else Empty);
    SameMap(Snapshot(copy), Snapshot(guardMap));
    WalkMap(copy, start);
    count := CountVisited(Snapshot(copy));
  }

  /** The cell a map character stands for (`generate_map` panics on any other character). */
  function ParseCell(c: char): (cell: Cell)
    requires c in ".#^><v"
    ensures cell.Guard? <==> c in "^><v"
  {
    match c
    case '.' => Empty
    case '#' => Obstruction
    case '^' => Guard(North)
    case '>' => Guard(East)
    case '<' => Guard(West)
    case 'v' => Guard(South)
  }

  predicate IsGuardChar(c: char) {
    c == '^' || c == '>' || c == '<' || c == 'v'
  }

  /** Text `generate_map` accepts: map characters only, and exactly (first line length)² of them. */
  predicate IsMapText(input: string) {
    var lines := Lines(input);
    && |lines| > 0
    && (forall i :: 0 <= i < |input| ==> input[i] in ".#^><v\n")
    && |Concat(lines)| == |lines[0]| * |lines[0]|
  }

  /** The (line, column) of the last guard character, or (0, 0) if there is none. */
  function LastGuard(lines: seq<string>): (p: Position)
    ensures (forall i, j :: 0 <= i < |lines| && 0 <= j < |lines[i]| ==> !IsGuardChar(lines[i][j])) ==> p == (0, 0)
    decreases |lines|
  {
    if lines == [] then (0, 0)
    else
      var k := |lines| - 1;
      match LastGuardInLine(lines[k])
      case Some(j) => (k, j)
      case None => LastGuard(lines[..k])
  }

  function LastGuardInLine(line: string): (r: Option<nat>)
    ensures r.Some? ==> r.value < |line| && IsGuardChar(line[r.value])
    ensures r.Some? ==> forall j :: r.value < j < |line| ==> !IsGuardChar(line[j])
    ensures r.None? ==> forall j :: 0 <= j < |line| ==> !IsGuardChar(line[j])
  {
    if line == [] then None
    else if IsGuardChar(line[|line| - 1]) then Some(|line| - 1)
    else LastGuardInLine(line[..|line| - 1])
  }

  /** The recorded guard position is a guard character, and no guard character comes after it. */
  lemma {:induction false} LastGuardIsLast(lines: seq<string>)
    requires exists i, j :: 0 <= i < |lines| && 0 <= j < |lines[i]| && IsGuardChar(lines[i][j])
    ensures var p := LastGuard(lines);
            && p.0 < |lines| && p.1 < |lines[p.0]| && IsGuardChar(lines[p.0][p.1])
            && forall i, j :: 0 <= i < |lines| && 0 <= j < |lines[i]| && IsGuardChar(lines[i][j]) ==>
                 i < p.0 || (i == p.0 && j <= p.1)
  {
    var k := |lines| - 1;
    match LastGuardInLine(lines[k])
    case Some(j) =>
    case None =>
      var i, j :| 0 <= i < |lines| && 0 <= j < |lines[i]| && IsGuardChar(lines[i][j]);
      assert i < k;
      assert lines[..k][i] == lines[i];
      LastGuardIsLast(lines[..k]);
  }

  lemma RowMajorIndex(n: nat, i: nat, j: nat)
    requires i < n && j < n
    ensures i * n + j < n * n
  {
    MulMono(i, n - 1, n);
    MulPred(n, n);
  }

  lemma MulMono(a: nat, b: nat, n: nat)
    requires a <= b
    ensures a * n <= b * n
  {
  }

  predicate InAlphabet(s: string) {
    forall k :: 0 <= k < |s| ==> s[k] in ".#^><v"
  }

  /** The cells of a run of map characters, in order. */
  function ParseCells(s: string): (cells: seq<Cell>)
    requires InAlphabet(s)
    ensures |cells| == |s| && forall k :: 0 <= k < |s| ==> cells[k] == ParseCell(s[k])
  {
    seq(|s|, k requires 0 <= k < |s| => ParseCell(s[k]))
  }

  /** The cells of one line, and the column of its last guard character. */
  method ParseLine(line: string) returns (lineCells: seq<Cell>, linePosition: Option<nat>)
    requires InAlphabet(line)
    ensures lineCells == ParseCells(line)
    ensures linePosition == LastGuardInLine(line)
  {
    lineCells, linePosition := [], None;
    for charNo := 0 to |line|
      invariant lineCells == ParseCells(line[..charNo])
      invariant linePosition == LastGuardInLine(line[..charNo])
    {
      var item := ParseCell(line[charNo]);
      if item.Guard? {
        linePosition := Some(charNo);
      } else {
        assert line[..charNo + 1][..charNo] == line[..charNo];
      }
      lineCells := lineCells + [item];
    }
    assert line[..|line|] == line;
  }

  /**
   * `generate_map`: the cells of all lines, in reading order, laid out row-major as a
   * (first line length)² grid, and the (line, column) where a guard character was last seen.
   */
  method GenerateMap(input: string) returns (guardMap: array2<Cell>, guardPosition: Position)
    requires IsMapText(input)
    ensures InAlphabet(Concat(Lines(input)))
    ensures fresh(guardMap)
    ensures guardMap.Length0 == |Lines(input)[0]| && guardMap.Length1 == |Lines(input)[0]|
    ensures forall i, j :: 0 <= i < guardMap.Length0 && 0 <= j < guardMap.Length1 ==>
              guardMap[i, j] == CellAt(ParseCells(Concat(Lines(input))), guardMap.Length1, i, j)
    ensures guardPosition == LastGuard(Lines(input))
  {
    var lines := Lines(input);
    LinesInAlphabet(input);
    var cells;
    cells, guardPosition := ParseLines(lines);
    guardMap := BuildGrid(cells, |lines[0]|);
  }

  /** The cells of all lines in reading order, and where a guard character was last seen. */
  method ParseLines(lines: seq<string>) returns (cells: seq<Cell>, guardPosition: Position)
    requires forall k :: 0 <= k < |lines| ==> InAlphabet(lines[k])
    ensures InAlphabet(Concat(lines))
    ensures cells == ParseCells(Concat(lines))
    ensures guardPosition == LastGuard(lines)
  {
    cells, guardPosition := [], (0, 0);
    for lineNo := 0 to |lines|
      invariant InAlphabet(Concat(lines[..lineNo]))
      invariant cells == ParseCells(Concat(lines[..lineNo]))
      invariant guardPosition == LastGuard(lines[..lineNo])
    {
      var line := lines[lineNo];
      var lineCells, linePosition := ParseLine(line);
      if linePosition.Some? {
        guardPosition := (lineNo, linePosition.value);
      }
      ParseCellsSnoc(lines[..lineNo], line);
      assert lines[..lineNo + 1] == lines[..lineNo] + [line];
      cells := cells + lineCells;
    }
    assert lines[..|lines|] == lines;
  }

  lemma ParseCellsSnoc(lines: seq<string>, line: string)
    requires InAlphabet(Concat(lines)) && InAlphabet(line)
    ensures InAlphabet(Concat(lines + [line]))
    ensures ParseCells(Concat(lines + [line])) == ParseCells(Concat(lines)) + ParseCells(line)
    ensures LastGuard(lines + [line]) ==
              match LastGuardInLine(line) case Some(j) => (|lines|, j) case None => LastGuard(lines)
  {
    ConcatSnoc(lines, line);
    ParseCellsAppend(Concat(lines), line);
    LastGuardSnoc(lines, line);
  }

  lemma ParseCellsAppend(a: string, b: string)
    requires InAlphabet(a) && InAlphabet(b)
    ensures InAlphabet(a + b) && ParseCells(a + b) == ParseCells(a) + ParseCells(b)
  {
    assert InAlphabet(a + b) by {
      forall k | 0 <= k < |a + b| ensures (a + b)[k] in ".#^><v" {
        if k >= |a| {
          assert (a + b)[k] == b[k - |a|];
        }
      }
    }
  }

  lemma LastGuardSnoc(lines: seq<string>, line: string)
    ensures LastGuard(lines + [line]) ==
              match LastGuardInLine(line) case Some(j) => (|lines|, j) case None => LastGuard(lines)
  {
    assert (lines + [line])[..|lines|] == lines;
  }

  /** The cell at row i, column j of a row-major n-column layout. */
  function CellAt(cells: seq<Cell>, n: nat, i: int, j: int): Cell {
    if 0 <= i && 0 <= j && i * n + j < |cells| then cells[i * n + j] else Empty
  }

  /** `Array2::from_shape_vec((n, n), cells)`, which succeeds because there are n² cells. */
  method BuildGrid(cells: seq<Cell>, n: nat) returns (grid: array2<Cell>)
    requires |cells| == n * n
    ensures fresh(grid) && grid.Length0 == n && grid.Length1 == n
    ensures forall i, j :: 0 <= i < n && 0 <= j < n ==> grid[i, j] == CellAt(cells, n, i, j)
  {
    grid := new Cell[n, n]((i, j) => CellAt(cells, n, i, j));
  }

  /** Every character of every line is a map character. */
  lemma LinesInAlphabet(input: string)
    requires forall i :: 0 <= i < |input| ==> input[i] in ".#^><v\n"
    ensures forall k :: 0 <= k < |Lines(input)| ==> InAlphabet(Lines(input)[k])
  {
    var lines := Lines(input);
    if input != [] {
      LinesJoin(input);
    }
    forall k, j | 0 <= k < |lines| && 0 <= j < |lines[k]|
      ensures lines[k][j] in ".#^><v"
    {
      var body := if input != [] && input[|input| - 1] == '\n' then input[..|input| - 1] else input;
      JoinMember(lines, '\n', k, j);
      assert lines[k][j] in body;
      assert '\n' !in lines[k];
    }
  }

  /** A character of a piece is a character of the joined text. */
  lemma {:induction false} JoinMember(parts: seq<string>, sep: char, k: nat, j: nat)
    requires k < |parts| && j < |parts[k]|
    ensures parts[k][j] in Join(parts, sep)
  {
    if |parts| > 1 {
      if k == 0 {
        assert Join(parts, sep)[j] == parts[0][j];
      } else {
        JoinMember(parts[1..], sep, k - 1, j);
        var rest := Join(parts[1..], sep);
        var i :| 0 <= i < |rest| && rest[i] == parts[k][j];
        assert Join(parts, sep)[|parts[0]| + 1 + i] == rest[i];
      }
    }
  }

  /** A square text: as many lines as characters per line. */
  predicate SquareLines(lines: seq<string>) {
    forall k :: 0 <= k < |lines| ==> |lines[k]| == |lines|
  }

  /** No two distinct places of the text hold guard characters. */
  predicate AtMostOneGuard(lines: seq<string>) {
    forall i, j, i', j' ::
      (0 <= i < |lines| && 0 <= j < |lines[i]| && 0 <= i' < |lines| && 0 <= j' < |lines[i']| &&
       IsGuardChar(lines[i][j]) && IsGuardChar(lines[i'][j'])) ==> i == i' && j == j'
  }

  /** The row-major layout of a square text puts character (i, j) at row i, column j. */
  lemma GridOfLines(lines: seq<string>, g: seq<seq<Cell>>)
    requires SquareLines(lines) && forall k :: 0 <= k < |lines| ==> InAlphabet(lines[k])
    requires InAlphabet(Concat(lines))
    requires |g| == |lines| && forall i :: 0 <= i < |g| ==> |g[i]| == |lines|
    requires forall i, j :: 0 <= i < |g| && 0 <= j < |g[i]| ==> g[i][j] == CellAt(ParseCells(Concat(lines)), |lines|, i, j)
    ensures forall i, j :: 0 <= i < |lines| && 0 <= j < |lines[i]| ==> lines[i][j] in ".#^><v" && g[i][j] == ParseCell(lines[i][j])
  {
    var n := |lines|;
    var flat := Concat(lines);
    forall i, j | 0 <= i < n && 0 <= j < |lines[i]|
      ensures lines[i][j] in ".#^><v" && g[i][j] == ParseCell(lines[i][j])
    {
      ConcatIndex(lines, n, i, j);
      var k := i * n + j;
      assert flat[k] == lines[i][j];
      assert g[i][j] == ParseCells(flat)[k];
    }
  }

  /**
   * For a square map with one guard character, `generate_map` yields a valid starting state:
   * the recorded position holds the guard and no other cell does.
   */
  lemma GeneratedMapIsValid(lines: seq<string>, g: seq<seq<Cell>>, pos: Position)
    requires 0 < |lines| < USIZE_MODULUS && SquareLines(lines)
    requires forall k :: 0 <= k < |lines| ==> InAlphabet(lines[k])
    requires exists i, j :: 0 <= i < |lines| && 0 <= j < |lines[i]| && IsGuardChar(lines[i][j])
    requires AtMostOneGuard(lines)
    requires |g| == |lines| && forall i :: 0 <= i < |g| ==> |g[i]| == |lines|
    requires InAlphabet(Concat(lines))
    requires forall i, j :: 0 <= i < |g| && 0 <= j < |g[i]| ==> g[i][j] == CellAt(ParseCells(Concat(lines)), |lines|, i, j)
    requires pos == LastGuard(lines)
    ensures Valid(Walker(g, pos, false))
  {
    LastGuardIsLast(lines);
    GridOfLines(lines, g);
    assert g[pos.0][pos.1].Guard?;
    forall i, j | 0 <= i < |g| && 0 <= j < |g[i]| && g[i][j].Guard?
      ensures i == pos.0 && j == pos.1
    {
      assert IsGuardChar(lines[i][j]);
    }
  }
}
