/** The skirmish map: a GridSize x GridSize board of cells, each walkable or an
    obstacle, and walks over it with 4-neighbour moves. */
module Grid {

  const GridSize: int := 30
  const CellSize: int := 20

  /** A grid coordinate: column i, row j. */
  datatype Cell = Cell(i: int, j: int)

  /** The obstacle flags of the map, indexed as gameMap[j][i]. */
  type Map = seq<seq<bool>>

  predicate WellFormed(m: Map) {
    |m| == GridSize && forall j :: 0 <= j < |m| ==> |m[j]| == GridSize
  }

  predicate InBounds(c: Cell) {
    0 <= c.i < GridSize && 0 <= c.j < GridSize
  }

  predicate IsObstacle(m: Map, c: Cell)
    requires WellFormed(m) && InBounds(c)
  {
    m[c.j][c.i]
  }

  predicate Walkable(m: Map, c: Cell)
    requires WellFormed(m)
  {
    InBounds(c) && !m[c.j][c.i]
  }

  function Abs(x: int): nat { if x < 0 then -x else x }

  /** The four unit moves, in the order the path search tries them. */
  const Offsets: seq<Cell> := [Cell(0, 1), Cell(0, -1), Cell(1, 0), Cell(-1, 0)]

  function Shift(c: Cell, d: Cell): Cell { Cell(c.i + d.i, c.j + d.j) }

  /** Two cells one horizontal or vertical step apart. */
  predicate Adjacent(a: Cell, b: Cell) {
    (a.i == b.i && Abs(a.j - b.j) == 1) || (a.j == b.j && Abs(a.i - b.i) == 1)
  }

  ghost function AllCells(): set<Cell> {
    set i, j | 0 <= i < GridSize && 0 <= j < GridSize :: Cell(i, j)
  }

  lemma InAllCells(c: Cell)
    requires InBounds(c)
    ensures c in AllCells()
  {
    assert c == Cell(c.i, c.j);
  }

  lemma ShiftIsAdjacent(c: Cell, k: int)
    requires 0 <= k < 4
    ensures Adjacent(c, Shift(c, Offsets[k]))
  {
  }

  /** The offsets enumerate exactly the 4-neighbours of a cell. */
  lemma OffsetsAreNeighbours(c: Cell, v: Cell)
    ensures Adjacent(c, v) <==> exists k :: 0 <= k < 4 && v == Shift(c, Offsets[k])
  {
    if Adjacent(c, v) {
      if v.j == c.j + 1 { assert v == Shift(c, Offsets[0]); }
      else if v.j == c.j - 1 { assert v == Shift(c, Offsets[1]); }
      else if v.i == c.i + 1 { assert v == Shift(c, Offsets[2]); }
      else { assert v == Shift(c, Offsets[3]); }
    }
  }

  function Last<T>(s: seq<T>): T
    requires |s| > 0
  {
    s[|s| - 1]
  }

  /** w[0] is where the walk starts (it need not be walkable); every later cell
      is walkable and one step from the previous one. The walk has |w| - 1 steps. */
  predicate IsWalk(m: Map, w: seq<Cell>)
    requires WellFormed(m)
  {
    |w| >= 1 && forall k :: 1 <= k < |w| ==> Walkable(m, w[k]) && Adjacent(w[k - 1], w[k])
  }

  predicate WalkBetween(m: Map, w: seq<Cell>, s: Cell, t: Cell)
    requires WellFormed(m)
  {
    IsWalk(m, w) && w[0] == s && Last(w) == t
  }

  ghost predicate Reachable(m: Map, s: Cell, t: Cell)
    requires WellFormed(m)
  {
    exists w :: WalkBetween(m, w, s, t)
  }

  /** No walk from s to t is shorter than d steps: d is at most the
      breadth-first distance from s to t. */
  ghost predicate NoShorterWalk(m: Map, s: Cell, t: Cell, d: int)
    requires WellFormed(m)
  {
    forall w :: WalkBetween(m, w, s, t) ==> d <= |w| - 1
  }

  lemma PrefixIsWalk(m: Map, w: seq<Cell>, n: nat)
    requires WellFormed(m) && IsWalk(m, w) && 1 <= n <= |w|
    ensures IsWalk(m, w[..n])
  {
  }

  lemma SuffixIsWalk(m: Map, w: seq<Cell>, n: nat)
    requires WellFormed(m) && IsWalk(m, w) && n < |w|
    ensures IsWalk(m, w[n..])
  {
    forall k | 1 <= k < |w| - n
      ensures Walkable(m, w[n..][k]) && Adjacent(w[n..][k - 1], w[n..][k])
    {
      assert w[n..][k] == w[n + k] && w[n..][k - 1] == w[n + k - 1];
    }
  }
}
