/**
 * Day 8: antennas of one frequency create antinodes on the line through
 * every pair of them.  The map text becomes one position list per
 * frequency; every ordered pair (i < j) of a list contributes the points
 * `pos2 + m * delta` and `pos1 - m * delta` that fall on the map, for the
 * multipliers of the part, and the answer counts the distinct points.
 */
module Day8 {
  import opened Options
  import opened Text

  /** (row, column), as `get_position` returns it. */
  type Position = (nat, nat)
  type Node = (int, int)

  // ---------------------------------------------------------------------
  // Reading the map
  // ---------------------------------------------------------------------

  /** Splits a flat index into its row and column for rows `dim` cells wide. */
  function GetPosition(index: nat, dim: nat): (p: Position)
    requires dim > 0
    ensures p.0 * dim + p.1 == index && p.1 < dim
  {
    var x := index % dim;
    RowOfIndex(index, dim);
    ((index - x) / dim, x)
  }

  lemma RowOfIndex(index: nat, dim: nat)
    requires dim > 0
    ensures (index - index % dim) / dim * dim + index % dim == index
  {
    var q, x := index / dim, index % dim;
    assert index - x == q * dim + 0;
    DivUnique(index - x, dim, q, 0);
  }

  /** Two different indices never share a position. */
  lemma GetPositionInjective(i: nat, j: nat, dim: nat)
    requires dim > 0 && GetPosition(i, dim) == GetPosition(j, dim)
    ensures i == j
  {
    var p := GetPosition(i, dim);
    assert i == p.0 * dim + p.1 == j;
  }

  /** The cell value of a map character: '.' is empty, anything else an antenna. */
  function CellOf(ch: char): (c: Option<char>)
    ensures c.None? <==> ch == '.'
    ensures c.Some? ==> c.value == ch
  {
    if ch == '.' then None else Some(ch)
  }

  function Cells(flat: string): (cells: seq<Option<char>>)
    ensures |cells| == |flat|
    ensures forall i :: 0 <= i < |flat| ==> cells[i] == CellOf(flat[i])
  {
    seq(|flat|, i requires 0 <= i < |flat| => CellOf(flat[i]))
  }

  /** The distinct antenna characters of the cells, in order of first appearance. */
  function Frequencies(cells: seq<Option<char>>): (fs: seq<char>)
    ensures forall ch :: ch in fs <==> Some(ch) in cells
    ensures forall a, b :: 0 <= a < b < |fs| ==> fs[a] != fs[b]
  {
    if cells == [] then []
    else
      var init := Frequencies(cells[..|cells| - 1]);
      var last := cells[|cells| - 1];
      assert cells == cells[..|cells| - 1] + [last];
      if last.None? || last.value in init then init else init + [last.value]
  }

  /** The positions of the cells holding antenna `ch`, in index order. */
  function Positions(cells: seq<Option<char>>, ch: char, dim: nat): (ps: seq<Position>)
    requires dim > 0
    ensures forall p :: p in ps <==> exists i :: 0 <= i < |cells| && cells[i] == Some(ch) && GetPosition(i, dim) == p
  {
    if cells == [] then []
    else
      var n := |cells| - 1;
      var init := Positions(cells[..n], ch, dim);
      assert forall i :: 0 <= i < n ==> cells[..n][i] == cells[i];
      init + if cells[n] == Some(ch) then [GetPosition(n, dim)] else []
  }

  /** The row width `generate_maps` reads: the offset of the first newline. */
  function Width(input: string): (w: nat)
    requires '\n' in input
    ensures w < |input| && input[w] == '\n' && '\n' !in input[..w]
  {
    IndexOf(input, '\n').value
  }

  /**
   * What `generate_maps` needs: a newline (it unwraps `find('\n')`), and a
   * non-zero width whenever it has an antenna to place (`get_position`
   * divides by the width).
   */
  predicate MapsDefined(input: string) {
    '\n' in input && (Width(input) > 0 || Frequencies(Cells(Concat(Lines(input)))) == [])
  }

  /** One position list per distinct antenna character, and the width. */
  function GenerateMaps(input: string): (r: (seq<seq<Position>>, nat))
    requires MapsDefined(input)
    ensures r.1 == Width(input)
    ensures |r.0| == |Frequencies(Cells(Concat(Lines(input))))|
  {
    var dim := Width(input);
    var cells := Cells(Concat(Lines(input)));
    var fs := Frequencies(cells);
    (seq(|fs|, k requires 0 <= k < |fs| => Positions(cells, fs[k], dim)), dim)
  }

  /** `ps` holds exactly the positions of the cells showing `ch`. */
  ghost predicate GroupOf(ps: seq<Position>, flat: string, dim: nat, ch: char)
    requires dim > 0
  {
    forall p :: p in ps <==> exists i :: 0 <= i < |flat| && flat[i] == ch && GetPosition(i, dim) == p
  }

  /** Each list is non-empty and holds exactly the positions of one antenna character. */
  lemma MapsAreGroups(input: string, k: nat)
    requires MapsDefined(input) && k < |GenerateMaps(input).0|
    ensures var (maps, dim) := GenerateMaps(input);
            && maps[k] != [] && dim > 0
            && exists ch :: ch != '.' && GroupOf(maps[k], Concat(Lines(input)), dim, ch)
  {
    var (maps, dim) := GenerateMaps(input);
    var flat := Concat(Lines(input));
    var cells := Cells(flat);
    var ch := Frequencies(cells)[k];
    assert Some(ch) in cells;
    var i :| 0 <= i < |cells| && cells[i] == Some(ch);
    assert GetPosition(i, dim) in maps[k];
    assert flat[i] == ch != '.';
    forall p ensures p in maps[k] <==> exists i :: 0 <= i < |flat| && flat[i] == ch && GetPosition(i, dim) == p {
      if p in maps[k] {
        var i :| 0 <= i < |cells| && cells[i] == Some(ch) && GetPosition(i, dim) == p;
        assert flat[i] == ch;
      }
      if exists i :: 0 <= i < |flat| && flat[i] == ch && GetPosition(i, dim) == p {
        var i :| 0 <= i < |flat| && flat[i] == ch && GetPosition(i, dim) == p;
        assert cells[i] == Some(ch);
      }
    }
    assert GroupOf(maps[k], flat, dim, ch);
  }

  /** No two lists share a position. */
  lemma MapsDisjoint(input: string, k1: nat, k2: nat, p: Position)
    requires MapsDefined(input) && k1 < k2 < |GenerateMaps(input).0|
    ensures !(p in GenerateMaps(input).0[k1] && p in GenerateMaps(input).0[k2])
  {
    var (maps, dim) := GenerateMaps(input);
    var cells := Cells(Concat(Lines(input)));
    var fs := Frequencies(cells);
    if p in maps[k1] && p in maps[k2] {
      var i :| 0 <= i < |cells| && cells[i] == Some(fs[k1]) && GetPosition(i, dim) == p;
      var j :| 0 <= j < |cells| && cells[j] == Some(fs[k2]) && GetPosition(j, dim) == p;
      GetPositionInjective(i, j, dim);
    }
  }

  /** Every antenna cell is in some list. */
  lemma MapsCoverAntennas(input: string, i: nat)
    requires MapsDefined(input)
    requires i < |Concat(Lines(input))| && Concat(Lines(input))[i] != '.'
    ensures var (maps, dim) := GenerateMaps(input);
            dim > 0 && exists k :: 0 <= k < |maps| && GetPosition(i, dim) in maps[k]
  {
    var (maps, dim) := GenerateMaps(input);
    var flat := Concat(Lines(input));
    var cells := Cells(flat);
    var fs := Frequencies(cells);
    assert cells[i] == Some(flat[i]);
    assert flat[i] in fs;
    var k :| 0 <= k < |fs| && fs[k] == flat[i];
    assert GetPosition(i, dim) in maps[k];
  }

  // ---------------------------------------------------------------------
  // Antinodes of one pair
  // ---------------------------------------------------------------------

  /** `q` lies `m` steps beyond `p2`, or `m` steps before `p1`, along `p2 - p1`. */
  predicate AntinodeOf(q: Position, p1: Position, p2: Position, m: int) {
    var d0, d1 := p2.0 - p1.0, p2.1 - p1.1;
    || (q.0 == p2.0 + d0 * m && q.1 == p2.1 + d1 * m)
    || (q.0 == p1.0 - d0 * m && q.1 == p1.1 - d1 * m)
  }

  predicate OnMap(n: Node, dim: nat) {
    0 <= n.0 < dim && 0 <= n.1 < dim
  }

  /** The nodes one multiplier produces, the one beyond `p2` first, each only if it is on the map. */
  function NodesAt(p1: Position, p2: Position, dim: nat, m: int): (ns: seq<Position>)
    ensures |ns| <= 2
  {
    var d0, d1 := p2.0 - p1.0, p2.1 - p1.1;
    OnMapNodes([(p2.0 + d0 * m, p2.1 + d1 * m), (p1.0 - d0 * m, p1.1 - d1 * m)], dim)
  }

  /** The nodes of `ns` that are on the map, in order. */
  function OnMapNodes(ns: seq<Node>, dim: nat): (ps: seq<Position>)
    ensures |ps| <= |ns|
  {
    if ns == [] then []
    else Keep(ns[0], dim) + OnMapNodes(ns[1..], dim)
  }

  function Keep(n: Node, dim: nat): (ps: seq<Position>)
    ensures |ps| <= 1
  {
    if OnMap(n, dim) then [(n.0 as nat, n.1 as nat)] else []
  }

  lemma OnMapPair(a: Node, b: Node, dim: nat)
    ensures OnMapNodes([a, b], dim) == Keep(a, dim) + Keep(b, dim)
  {
    assert [a, b][1..] == [b];
    assert [b][1..] == [];
  }

  /** A point is among one multiplier's nodes exactly when it is on the map and that multiplier reaches it. */
  lemma NodesAtHas(p1: Position, p2: Position, dim: nat, m: int, q: Position)
    ensures q in NodesAt(p1, p2, dim, m) <==> q.0 < dim && q.1 < dim && AntinodeOf(q, p1, p2, m)
  {
    var d0, d1 := p2.0 - p1.0, p2.1 - p1.1;
    OnMapPair((p2.0 + d0 * m, p2.1 + d1 * m), (p1.0 - d0 * m, p1.1 - d1 * m), dim);
  }

  /** All nodes for the multipliers `first..=last`, in the order the loop pushes them. */
  function Antinodes(p1: Position, p2: Position, dim: nat, first: int, last: int): (ns: seq<Position>)
    ensures first <= last + 1 ==> |ns| <= 2 * (last - first + 1)
    decreases last - first
  {
    if last < first then [] else Antinodes(p1, p2, dim, first, last - 1) + NodesAt(p1, p2, dim, last)
  }

  /** The first multiplier: 0 counts the towers themselves. */
  function FirstMultiplier(includeTowers: bool): int {
    if includeTowers then 0 else 1
  }

  /** The antinodes of one pair are exactly the on-map points some multiplier in range reaches. */
  lemma {:induction false} AntinodesHas(p1: Position, p2: Position, dim: nat, first: int, last: int, q: Position)
    ensures q in Antinodes(p1, p2, dim, first, last) <==>
              q.0 < dim && q.1 < dim && exists m :: first <= m <= last && AntinodeOf(q, p1, p2, m)
    decreases last - first
  {
    if last >= first {
      AntinodesHas(p1, p2, dim, first, last - 1, q);
      NodesAtHas(p1, p2, dim, last, q);
      if q.0 < dim && q.1 < dim && exists m :: first <= m <= last && AntinodeOf(q, p1, p2, m) {
        var m :| first <= m <= last && AntinodeOf(q, p1, p2, m);
        if m < last {
          assert q in Antinodes(p1, p2, dim, first, last - 1);
        }
      }
    }
  }

  /** `calculate_antinodes`: the loop over the multipliers, pushing the on-map nodes. */
  method CalculateAntinodes(p1: Position, p2: Position, dim: nat, depth: nat, includeTowers: bool)
    returns (antinodes: seq<Position>)
    ensures antinodes == Antinodes(p1, p2, dim, FirstMultiplier(includeTowers), depth)
  {
    var first := FirstMultiplier(includeTowers);
    var d0, d1 := p2.0 - p1.0, p2.1 - p1.1;
    antinodes := [];
    for multiplier := first to depth + 1
      invariant antinodes == Antinodes(p1, p2, dim, first, multiplier - 1)
    {
      var node: Node := (p2.0 + d0 * multiplier, p2.1 + d1 * multiplier);
      ghost var pushed := antinodes;
      ghost var beyond := node;
      if OnMap(node, dim) {
        antinodes := antinodes + [(node.0 as nat, node.1 as nat)];
      }
      assert antinodes == pushed + Keep(beyond, dim);
      ghost var middle := antinodes;
      node := (p1.0 - d0 * multiplier, p1.1 - d1 * multiplier);
      if OnMap(node, dim) {
        antinodes := antinodes + [(node.0 as nat, node.1 as nat)];
      }
      assert antinodes == middle + Keep(node, dim);
      PushedBothNodes(p1, p2, dim, multiplier, pushed, middle, antinodes);
    }
  }

  /** Pushing the kept node beyond `p2` and then the one beyond `p1` appends `NodesAt`. */
  lemma PushedBothNodes(p1: Position, p2: Position, dim: nat, m: int, pushed: seq<Position>, middle: seq<Position>, after: seq<Position>)
    requires middle == pushed + Keep((p2.0 + (p2.0 - p1.0) * m, p2.1 + (p2.1 - p1.1) * m), dim)
    requires after == middle + Keep((p1.0 - (p2.0 - p1.0) * m, p1.1 - (p2.1 - p1.1) * m), dim)
    ensures after == pushed + NodesAt(p1, p2, dim, m)
  {
    var d0, d1 := p2.0 - p1.0, p2.1 - p1.1;
    var beyond, before := (p2.0 + d0 * m, p2.1 + d1 * m), (p1.0 - d0 * m, p1.1 - d1 * m);
    assert NodesAt(p1, p2, dim, m) == OnMapNodes([beyond, before], dim);
    OnMapPair(beyond, before, dim);
    assert after == pushed + (Keep(beyond, dim) + Keep(before, dim));
  }

  // ---------------------------------------------------------------------
  // Antinodes of one frequency
  // ---------------------------------------------------------------------

  function PairNodes(towers: seq<Position>, i: nat, j: nat, dim: nat, depth: nat, includeTowers: bool): seq<Position>
    requires i < |towers| && j < |towers|
  {
    Antinodes(towers[i], towers[j], dim, FirstMultiplier(includeTowers), depth)
  }

  /** The nodes of every ordered pair of towers: `Table(..)[i][j]` is the pair (i, j). */
  function Table(towers: seq<Position>, dim: nat, depth: nat, includeTowers: bool): (t: seq<seq<seq<Position>>>)
    ensures |t| == |towers|
    ensures forall i :: 0 <= i < |t| ==> |t[i]| == |towers|
  {
    seq(|towers|, i requires 0 <= i < |towers| =>
      seq(|towers|, j requires 0 <= j < |towers| => PairNodes(towers, i, j, dim, depth, includeTowers)))
  }

  /** The lists `t[i][i+1] .. t[i][j-1]` one after another, as the inner loop appends them. */
  function RowOf<T>(t: seq<seq<seq<T>>>, i: nat, j: nat): seq<T>
    requires i < |t| && j <= |t[i]|
    decreases j
  {
    if j <= i + 1 then [] else RowOf(t, i, j - 1) + t[i][j - 1]
  }

  /** The rows of the first `i` towers one after another, as the outer loop appends them. */
  function PairsOf<T>(t: seq<seq<seq<T>>>, i: nat): seq<T>
    requires i <= |t|
  {
    if i == 0 then [] else PairsOf(t, i - 1) + RowOf(t, i - 1, |t[i - 1]|)
  }

  /** The nodes `get_antinode_locs` returns for one frequency. */
  function FrequencyNodes(towers: seq<Position>, dim: nat, depth: nat, includeTowers: bool): (ns: seq<Position>)
    ensures |towers| < 2 ==> ns == []
  {
    var t := Table(towers, dim, depth, includeTowers);
    assert |towers| == 1 ==> PairsOf(t, 1) == PairsOf(t, 0) + RowOf(t, 0, 1);
    PairsOf(t, |towers|)
  }

  /** `get_antinode_locs`: every pair i < j, in loop order. */
  method GetAntinodeLocs(towers: seq<Position>, dim: nat, depth: nat, includeTowers: bool) returns (posOut: seq<Position>)
    ensures posOut == FrequencyNodes(towers, dim, depth, includeTowers)
  {
    ghost var t := Table(towers, dim, depth, includeTowers);
    posOut := [];
    for i := 0 to |towers|
      invariant posOut == PairsOf(t, i)
    {
      var row := RowLocs(towers, i, dim, depth, includeTowers);
      posOut := posOut + row;
    }
  }

  /** The inner loop of `get_antinode_locs`: the pairs (i, j) for every j after i. */
  method RowLocs(towers: seq<Position>, i: nat, dim: nat, depth: nat, includeTowers: bool) returns (row: seq<Position>)
    requires i < |towers|
    ensures row == RowOf(Table(towers, dim, depth, includeTowers), i, |towers|)
  {
    ghost var t := Table(towers, dim, depth, includeTowers);
    row := [];
    for j := i + 1 to |towers|
      invariant row == RowOf(t, i, j)
    {
      var nodes := CalculateAntinodes(towers[i], towers[j], dim, depth, includeTowers);
      assert nodes == t[i][j];
      row := row + nodes;
    }
  }

  lemma {:induction false} RowOfHas<T>(t: seq<seq<seq<T>>>, i: nat, j: nat, q: T)
    requires i < |t| && j <= |t[i]|
    ensures q in RowOf(t, i, j) <==> exists j' :: i < j' < j && q in t[i][j']
    decreases j
  {
    if j > i + 1 {
      RowOfHas(t, i, j - 1, q);
      assert RowOf(t, i, j) == RowOf(t, i, j - 1) + t[i][j - 1];
      if exists j' :: i < j' < j && q in t[i][j'] {
        var j' :| i < j' < j && q in t[i][j'];
        if j' < j - 1 {
          assert q in RowOf(t, i, j - 1);
        }
      }
    }
  }

  lemma {:induction false} PairsOfHas<T>(t: seq<seq<seq<T>>>, i: nat, q: T)
    requires i <= |t|
    ensures q in PairsOf(t, i) <==> exists i', j' :: 0 <= i' < i && i' < j' < |t[i']| && q in t[i'][j']
  {
    if i > 0 {
      PairsOfHas(t, i - 1, q);
      RowOfHas(t, i - 1, |t[i - 1]|, q);
    }
  }

  /** `q` is a node of the pair (i, j) with i < j. */
  predicate PairHas(towers: seq<Position>, i: int, j: int, q: Position, dim: nat, depth: nat, includeTowers: bool) {
    0 <= i < j < |towers| && q in PairNodes(towers, i, j, dim, depth, includeTowers)
  }

  /** The nodes `get_antinode_locs` returns are exactly those of the pairs i < j. */
  lemma FrequencyNodesHas(towers: seq<Position>, q: Position, dim: nat, depth: nat, includeTowers: bool)
    ensures q in FrequencyNodes(towers, dim, depth, includeTowers) <==>
              exists i, j :: PairHas(towers, i, j, q, dim, depth, includeTowers)
  {
    var t := Table(towers, dim, depth, includeTowers);
    PairsOfHas(t, |towers|, q);
    if q in FrequencyNodes(towers, dim, depth, includeTowers) {
      var i, j :| 0 <= i < |towers| && i < j < |t[i]| && q in t[i][j];
      assert PairHas(towers, i, j, q, dim, depth, includeTowers);
    }
    if exists i, j :: PairHas(towers, i, j, q, dim, depth, includeTowers) {
      var i, j :| PairHas(towers, i, j, q, dim, depth, includeTowers);
      assert q in t[i][j];
    }
  }
  // ---------------------------------------------------------------------
  // Counting over all frequencies
  // ---------------------------------------------------------------------

  /** The distinct nodes of all frequencies. */
  function AntinodeSet(maps: seq<seq<Position>>, dim: nat, depth: nat, includeTowers: bool): (s: set<Position>)
    ensures (forall k :: 0 <= k < |maps| ==> |maps[k]| < 2) ==> s == {}
  {
    if maps == [] then {}
    else
      var n := |maps| - 1;
      AntinodeSet(maps[..n], dim, depth, includeTowers)
      + set q | q in FrequencyNodes(maps[n], dim, depth, includeTowers)
  }

  /** Collects the nodes of every frequency into a set and counts it. */
  method CountAntinodes(maps: seq<seq<Position>>, dim: nat, depth: nat, includeTowers: bool) returns (count: nat)
    ensures count == |AntinodeSet(maps, dim, depth, includeTowers)|
  {
    var positions: set<Position> := {};
    for k := 0 to |maps|
      invariant positions == AntinodeSet(maps[..k], dim, depth, includeTowers)
    {
      var locs := GetAntinodeLocs(maps[k], dim, depth, includeTowers);
      assert maps[..k + 1][..k] == maps[..k];
      positions := positions + set q | q in locs;
    }
    assert maps[..|maps|] == maps;
    count := |positions|;
  }

  /** `count_unique_antinodes`: one step either way (multiplier 1 only). */
  method CountUniqueAntinodes(maps: seq<seq<Position>>, dim: nat) returns (count: nat)
    ensures count == |AntinodeSet(maps, dim, 1, false)|
  {
    count := CountAntinodes(maps, dim, 1, false);
  }

  /** `count_unique_antinodes_depth_2`: every multiplier from 0 to the width. */
  method CountUniqueAntinodesDepth2(maps: seq<seq<Position>>, dim: nat) returns (count: nat)
    ensures count == |AntinodeSet(maps, dim, dim, true)|
  {
    count := CountAntinodes(maps, dim, dim, true);
  }

  method Part1(input: string) returns (count: nat)
    requires MapsDefined(input)
    ensures var (maps, dim) := GenerateMaps(input); count == |AntinodeSet(maps, dim, 1, false)|
  {
    var (maps, dim) := GenerateMaps(input);
    count := CountUniqueAntinodes(maps, dim);
  }

  method Part2(input: string) returns (count: nat)
    requires MapsDefined(input)
    ensures var (maps, dim) := GenerateMaps(input); count == |AntinodeSet(maps, dim, dim, true)|
  {
    var (maps, dim) := GenerateMaps(input);
    count := CountUniqueAntinodesDepth2(maps, dim);
  }

  /** A point is counted exactly when some pair of one frequency has it as a node. */
  lemma {:induction false} AntinodeSetHas(maps: seq<seq<Position>>, q: Position, dim: nat, depth: nat, includeTowers: bool)
    ensures q in AntinodeSet(maps, dim, depth, includeTowers) <==>
              exists k, i, j :: 0 <= k < |maps| && PairHas(maps[k], i, j, q, dim, depth, includeTowers)
  {
    if maps != [] {
      var n := |maps| - 1;
      AntinodeSetHas(maps[..n], q, dim, depth, includeTowers);
      FrequencyNodesHas(maps[n], q, dim, depth, includeTowers);
      if exists k, i, j :: 0 <= k < |maps| && PairHas(maps[k], i, j, q, dim, depth, includeTowers) {
        var k, i, j :| 0 <= k < |maps| && PairHas(maps[k], i, j, q, dim, depth, includeTowers);
        if k < n {
          assert maps[..n][k] == maps[k];
        }
      }
      if q in AntinodeSet(maps[..n], dim, depth, includeTowers) {
        var k, i, j :| 0 <= k < n && PairHas(maps[..n][k], i, j, q, dim, depth, includeTowers);
        assert maps[..n][k] == maps[k];
      }
    }
  }

  /** Every counted point is on the map, and reached by an allowed multiplier. */
  lemma CountedOnMap(maps: seq<seq<Position>>, dim: nat, depth: nat, includeTowers: bool, q: Position)
    requires q in AntinodeSet(maps, dim, depth, includeTowers)
    ensures q.0 < dim && q.1 < dim
    ensures exists k, i, j, m :: 0 <= k < |maps| && 0 <= i < j < |maps[k]| &&
              FirstMultiplier(includeTowers) <= m <= depth && AntinodeOf(q, maps[k][i], maps[k][j], m)
  {
    AntinodeSetHas(maps, q, dim, depth, includeTowers);
    var k, i, j :| 0 <= k < |maps| && PairHas(maps[k], i, j, q, dim, depth, includeTowers);
    AntinodesHas(maps[k][i], maps[k][j], dim, FirstMultiplier(includeTowers), depth, q);
  }

  /** Part two's points include part one's whenever the map is at least one cell wide. */
  lemma PartOneWithinPartTwo(maps: seq<seq<Position>>, dim: nat)
    requires dim >= 1
    ensures AntinodeSet(maps, dim, 1, false) <= AntinodeSet(maps, dim, dim, true)
    ensures |AntinodeSet(maps, dim, 1, false)| <= |AntinodeSet(maps, dim, dim, true)|
  {
    forall q | q in AntinodeSet(maps, dim, 1, false)
      ensures q in AntinodeSet(maps, dim, dim, true)
    {
      AntinodeSetHas(maps, q, dim, 1, false);
      AntinodeSetHas(maps, q, dim, dim, true);
      var k, i, j :| 0 <= k < |maps| && PairHas(maps[k], i, j, q, dim, 1, false);
      AntinodesHas(maps[k][i], maps[k][j], dim, 1, 1, q);
      AntinodesHas(maps[k][i], maps[k][j], dim, 0, dim, q);
      assert PairHas(maps[k], i, j, q, dim, dim, true);
    }
    SubsetCard(AntinodeSet(maps, dim, 1, false), AntinodeSet(maps, dim, dim, true));
  }

  lemma SubsetCard<T>(a: set<T>, b: set<T>)
    requires a <= b
    ensures |a| <= |b|
  {
    assert b == a + (b - a);
  }

  /** With towers included, every on-map antenna that shares its frequency with another is counted. */
  lemma TowersAreAntinodes(maps: seq<seq<Position>>, dim: nat, depth: nat, k: nat, i: nat)
    requires k < |maps| && i < |maps[k]| && |maps[k]| >= 2
    requires maps[k][i].0 < dim && maps[k][i].1 < dim
    ensures maps[k][i] in AntinodeSet(maps, dim, depth, true)
  {
    var towers, q := maps[k], maps[k][i];
    var other := if i == 0 then 1 else 0;
    var lo, hi := if i < other then i else other, if i < other then other else i;
    assert AntinodeOf(q, towers[lo], towers[hi], 0);
    AntinodesHas(towers[lo], towers[hi], dim, 0, depth, q);
    assert PairHas(towers, lo, hi, q, dim, depth, true);
    AntinodeSetHas(maps, q, dim, depth, true);
  }
}
