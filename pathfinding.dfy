/** A* search over the skirmish map: 4-neighbour moves, unit step cost and the
    Manhattan heuristic. The open list is re-sorted by f = g + h and its head
    is taken each round; a node is closed when it is taken. */
module Pathfinding {
  import opened Grid
  import Sorting

  /** |di| + |dj| between two cells. */
  function Heuristic(a: Cell, b: Cell): nat {
    Abs(a.i - b.i) + Abs(a.j - b.j)
  }

  lemma HeuristicTriangle(a: Cell, b: Cell, c: Cell)
    ensures Heuristic(a, c) <= Heuristic(a, b) + Heuristic(b, c)
  {
  }

  /** A walk of n steps moves at most n cells in Manhattan distance. */
  lemma {:induction false} WalkSpan(m: Map, w: seq<Cell>)
    requires WellFormed(m) && IsWalk(m, w)
    ensures Heuristic(w[0], Last(w)) <= |w| - 1
  {
    if |w| > 1 {
      PrefixIsWalk(m, w, |w| - 1);
      WalkSpan(m, w[..|w| - 1]);
      HeuristicTriangle(w[0], w[|w| - 2], w[|w| - 1]);
    }
  }

  /** The heuristic never overestimates: it is admissible. */
  lemma HeuristicAdmissible(m: Map, s: Cell, t: Cell)
    requires WellFormed(m)
    ensures NoShorterWalk(m, s, t, Heuristic(s, t))
  {
    forall w | WalkBetween(m, w, s, t) ensures Heuristic(s, t) <= |w| - 1 {
      WalkSpan(m, w);
    }
  }

  /** One step changes the heuristic by at most one: it is consistent. */
  lemma HeuristicConsistent(a: Cell, b: Cell, e: Cell)
    requires Adjacent(a, b)
    ensures Heuristic(a, e) <= 1 + Heuristic(b, e)
  {
  }

  ghost predicate NoDuplicates(s: seq<Cell>) {
    forall c :: multiset(s)[c] <= 1
  }

  /** The search tree: start has cost 0 and no parent; every other reached
      node is walkable and hangs one step below a closed parent. */
  ghost predicate TreeInv(m: Map, start: Cell, closed: set<Cell>, g: map<Cell, nat>, parent: map<Cell, Cell>)
    requires WellFormed(m)
  {
    && start in g && g[start] == 0 && start !in parent
    && closed <= g.Keys
    && (forall c :: c in g ==> InBounds(c) && (c != start ==> Walkable(m, c)))
    && (forall c :: c in g && c != start ==>
          c in parent && parent[c] in closed && Adjacent(parent[c], c) && g[c] == g[parent[c]] + 1)
  }

  /** The open list holds each reached, unclosed node exactly once. */
  ghost predicate OpenInv(open: seq<Cell>, closed: set<Cell>, g: map<Cell, nat>) {
    NoDuplicates(open) && forall c :: c in open <==> c in g && c !in closed
  }

  /** Closed nodes carry their breadth-first distance. */
  ghost predicate ClosedOptimal(m: Map, start: Cell, closed: set<Cell>, g: map<Cell, nat>)
    requires WellFormed(m) && closed <= g.Keys
  {
    forall c :: c in closed ==> NoShorterWalk(m, start, c, g[c])
  }

  /** Relaxing the edge c -> v has been done. */
  ghost predicate Relaxed(m: Map, c: Cell, v: Cell, closed: set<Cell>, g: map<Cell, nat>)
    requires WellFormed(m) && c in g
  {
    Walkable(m, v) ==> v in g && (v !in closed ==> g[v] <= g[c] + 1)
  }

  /** Every walkable neighbour of c has been relaxed. */
  ghost predicate Expanded(m: Map, c: Cell, closed: set<Cell>, g: map<Cell, nat>)
    requires WellFormed(m) && c in g
  {
    forall v :: Adjacent(c, v) ==> Relaxed(m, c, v, closed, g)
  }

  ghost predicate FrontierInv(m: Map, closed: set<Cell>, g: map<Cell, nat>)
    requires WellFormed(m) && closed <= g.Keys
  {
    forall c :: c in closed ==> Expanded(m, c, closed, g)
  }

  ghost function FirstOutside(w: seq<Cell>, s: set<Cell>, from: nat): (k: nat)
    requires from < |w| && Last(w) !in s
    ensures from <= k < |w| && w[k] !in s
    ensures forall n :: from <= n < k ==> w[n] in s
    decreases |w| - from
  {
    if w[from] !in s then from else FirstOutside(w, s, from + 1)
  }

  /** The first cell of a walk from start that is not closed has been reached,
      at a cost no greater than its position on the walk. */
  lemma FrontierBound(m: Map, start: Cell, closed: set<Cell>, g: map<Cell, nat>,
                      parent: map<Cell, Cell>, w: seq<Cell>, k: nat)
    requires WellFormed(m)
    requires TreeInv(m, start, closed, g, parent)
    requires ClosedOptimal(m, start, closed, g) && FrontierInv(m, closed, g)
    requires IsWalk(m, w) && w[0] == start && k < |w|
    requires forall n :: 0 <= n < k ==> w[n] in closed
    requires w[k] !in closed
    ensures w[k] in g && g[w[k]] <= k
  {
    if k > 0 {
      var p := w[k - 1];
      PrefixIsWalk(m, w, k);
      assert WalkBetween(m, w[..k], start, p);
      assert p in closed;
      assert NoShorterWalk(m, start, p, g[p]);
      assert g[p] <= k - 1;
      assert Walkable(m, w[k]) && Adjacent(p, w[k]);
      assert Expanded(m, p, closed, g);
      assert Relaxed(m, p, w[k], closed, g);
    }
  }

  /** With a consistent heuristic, the open node of least f already has its
      breadth-first distance when it is taken: closing it is final. */
  lemma PoppedOptimal(m: Map, start: Cell, end: Cell, closed: set<Cell>, open: seq<Cell>,
                      g: map<Cell, nat>, parent: map<Cell, Cell>, u: Cell)
    requires WellFormed(m)
    requires TreeInv(m, start, closed, g, parent) && OpenInv(open, closed, g)
    requires ClosedOptimal(m, start, closed, g) && FrontierInv(m, closed, g)
    requires u in open
    requires forall c :: c in open ==> g[u] + Heuristic(u, end) <= g[c] + Heuristic(c, end)
    ensures NoShorterWalk(m, start, u, g[u])
  {
    forall w | WalkBetween(m, w, start, u) ensures g[u] <= |w| - 1 {
      var k := FirstOutside(w, closed, 0);
      var x := w[k];
      FrontierBound(m, start, closed, g, parent, w, k);
      assert x in open;
      SuffixIsWalk(m, w, k);
      WalkSpan(m, w[k..]);
      assert Heuristic(x, u) <= |w| - 1 - k;
      HeuristicTriangle(x, u, end);
    }
  }

  lemma {:induction false} ClosedAlongWalk(m: Map, w: seq<Cell>, closed: set<Cell>, g: map<Cell, nat>, n: nat)
    requires WellFormed(m) && closed <= g.Keys && g.Keys == closed
    requires FrontierInv(m, closed, g)
    requires IsWalk(m, w) && w[0] in closed && n < |w|
    ensures w[n] in closed
  {
    if n > 0 {
      ClosedAlongWalk(m, w, closed, g, n - 1);
      assert Expanded(m, w[n - 1], closed, g);
      assert Relaxed(m, w[n - 1], w[n], closed, g);
    }
  }

  /** Once the open list is empty, a node that was never closed cannot be
      reached from start. */
  lemma ExhaustedUnreachable(m: Map, start: Cell, end: Cell, closed: set<Cell>,
                             g: map<Cell, nat>, parent: map<Cell, Cell>)
    requires WellFormed(m)
    requires TreeInv(m, start, closed, g, parent) && FrontierInv(m, closed, g)
    requires g.Keys == closed && end !in closed
    ensures !Reachable(m, start, end)
  {
    if Reachable(m, start, end) {
      var w :| WalkBetween(m, w, start, end);
      ClosedAlongWalk(m, w, closed, g, |w| - 1);
    }
  }

  /** The loop invariant of the search, between two rounds. */
  ghost predicate SearchInv(m: Map, start: Cell, end: Cell, closed: set<Cell>, open: seq<Cell>,
                            g: map<Cell, nat>, parent: map<Cell, Cell>)
    requires WellFormed(m)
  {
    && TreeInv(m, start, closed, g, parent)
    && OpenInv(open, closed, g)
    && ClosedOptimal(m, start, closed, g)
    && FrontierInv(m, closed, g)
    && end !in closed
  }

  /** The invariant while the neighbours of current are relaxed, the first k
      of them done. */
  ghost predicate ExpandInv(m: Map, start: Cell, end: Cell, closed: set<Cell>, open: seq<Cell>,
                            g: map<Cell, nat>, parent: map<Cell, Cell>, current: Cell, k: int)
    requires WellFormed(m)
  {
    && TreeInv(m, start, closed, g, parent)
    && OpenInv(open, closed, g)
    && ClosedOptimal(m, start, closed, g)
    && current in closed && end !in closed && 0 <= k <= 4
    && (forall c :: c in closed && c != current ==> Expanded(m, c, closed, g))
    && (forall n :: 0 <= n < k ==> Relaxed(m, current, Shift(current, Offsets[n]), closed, g))
  }

  lemma SortKeepsOpenInv(open: seq<Cell>, sorted: seq<Cell>, closed: set<Cell>, g: map<Cell, nat>)
    requires OpenInv(open, closed, g) && multiset(sorted) == multiset(open)
    ensures OpenInv(sorted, closed, g)
  {
    forall c ensures c in sorted <==> c in open {
      assert c in sorted <==> c in multiset(sorted);
      assert c in open <==> c in multiset(open);
    }
  }

  /** Taking the sorted head: it is optimal, and the rest with it closed
      satisfies the expansion invariant before any neighbour is relaxed. */
  lemma BeginExpand(m: Map, start: Cell, end: Cell, closed: set<Cell>, open: seq<Cell>,
                    g: map<Cell, nat>, parent: map<Cell, Cell>)
    requires WellFormed(m) && SearchInv(m, start, end, closed, open, g, parent)
    requires |open| > 0 && open[0] != end
    requires forall c :: c in open ==> g[open[0]] + Heuristic(open[0], end) <= g[c] + Heuristic(c, end)
    ensures ExpandInv(m, start, end, closed + {open[0]}, open[1..], g, parent, open[0], 0)
  {
    var u := open[0];
    PoppedOptimal(m, start, end, closed, open, g, parent, u);
    var rest := open[1..];
    assert open == [u] + rest;
    assert multiset(open) == multiset{u} + multiset(rest);
    var closed' := closed + {u};
    assert multiset(rest)[u] == 0 by {
      assert multiset(open)[u] <= 1;
    }
    assert NoDuplicates(rest) by {
      forall c ensures multiset(rest)[c] <= 1 {
        assert multiset(open)[c] <= 1;
      }
    }
    forall c ensures c in rest <==> c in g && c !in closed' {
      assert c in rest <==> multiset(rest)[c] > 0;
      assert c in open <==> multiset(open)[c] > 0;
    }
    forall c | c in closed' && c != u ensures Expanded(m, c, closed', g) {
      assert Expanded(m, c, closed, g);
      forall v | Adjacent(c, v) ensures Relaxed(m, c, v, closed', g) {
        assert Relaxed(m, c, v, closed, g);
      }
    }
  }

  /** A neighbour that is off the map, an obstacle, closed, or no cheaper
      through current is left alone, and is then relaxed. */
  lemma SkipNeighbour(m: Map, start: Cell, end: Cell, closed: set<Cell>, open: seq<Cell>,
                      g: map<Cell, nat>, parent: map<Cell, Cell>, current: Cell, k: int)
    requires WellFormed(m) && 0 <= k < 4
    requires ExpandInv(m, start, end, closed, open, g, parent, current, k)
    requires var next := Shift(current, Offsets[k]);
      !Walkable(m, next) || next in closed || (next in g && g[next] <= g[current] + 1)
    ensures ExpandInv(m, start, end, closed, open, g, parent, current, k + 1)
  {
    var next := Shift(current, Offsets[k]);
    assert Relaxed(m, current, next, closed, g);
  }

  /** A walkable, unclosed neighbour reached more cheaply through current gets
      current as parent, cost g[current] + 1, and joins the open list. */
  lemma UpdateNeighbour(m: Map, start: Cell, end: Cell, closed: set<Cell>, open: seq<Cell>,
                        g: map<Cell, nat>, parent: map<Cell, Cell>, current: Cell, k: int)
    requires WellFormed(m) && 0 <= k < 4
    requires ExpandInv(m, start, end, closed, open, g, parent, current, k)
    requires var next := Shift(current, Offsets[k]);
      Walkable(m, next) && next !in closed && (next !in g || g[current] + 1 < g[next])
    ensures var next := Shift(current, Offsets[k]);
      ExpandInv(m, start, end, closed, if next in open then open else open + [next],
                g[next := g[current] + 1], parent[next := current], current, k + 1)
  {
    var next := Shift(current, Offsets[k]);
    ShiftIsAdjacent(current, k);
    var g' := g[next := g[current] + 1];
    var parent' := parent[next := current];
    var open' := if next in open then open else open + [next];
    assert next != start;
    assert TreeInv(m, start, closed, g', parent') by {
      forall c | c in g' && c != start
        ensures c in parent' && parent'[c] in closed && Adjacent(parent'[c], c) && g'[c] == g'[parent'[c]] + 1
      {
        if c != next {
          assert parent'[c] == parent[c] && parent[c] in closed && parent[c] != next;
        }
      }
    }
    assert OpenInv(open', closed, g') by {
      if next !in open {
        assert multiset(open') == multiset(open) + multiset{next};
        assert next !in multiset(open);
      }
    }
    assert ClosedOptimal(m, start, closed, g') by {
      forall c | c in closed ensures NoShorterWalk(m, start, c, g'[c]) {
        assert g'[c] == g[c];
      }
    }
    forall c | c in closed && c != current ensures Expanded(m, c, closed, g') {
      assert Expanded(m, c, closed, g);
      forall v | Adjacent(c, v) ensures Relaxed(m, c, v, closed, g') {
        assert Relaxed(m, c, v, closed, g);
      }
    }
    forall n | 0 <= n < k + 1 ensures Relaxed(m, current, Shift(current, Offsets[n]), closed, g') {
      if n < k {
        assert Relaxed(m, current, Shift(current, Offsets[n]), closed, g);
      }
    }
  }

  /** After the four offsets, current is expanded and the round invariant holds. */
  lemma FinishExpand(m: Map, start: Cell, end: Cell, closed: set<Cell>, open: seq<Cell>,
                     g: map<Cell, nat>, parent: map<Cell, Cell>, current: Cell)
    requires WellFormed(m) && ExpandInv(m, start, end, closed, open, g, parent, current, 4)
    ensures SearchInv(m, start, end, closed, open, g, parent)
  {
    forall v | Adjacent(current, v) ensures Relaxed(m, current, v, closed, g) {
      OffsetsAreNeighbours(current, v);
    }
    assert Expanded(m, current, closed, g);
  }

  function Reversed(s: seq<Cell>): (r: seq<Cell>)
    ensures |r| == |s|
    ensures forall k :: 0 <= k < |s| ==> r[k] == s[|s| - 1 - k]
  {
    if s == [] then [] else Reversed(s[1..]) + [s[0]]
  }

  /** trail[k + 1] is the parent of trail[k]. */
  predicate ParentLink(parent: map<Cell, Cell>, trail: seq<Cell>, k: int)
    requires 0 <= k < |trail| - 1
  {
    trail[k] in parent && trail[k + 1] == parent[trail[k]]
  }

  /** The chain of parent links followed so far, with its costs. */
  ghost predicate Trail(g: map<Cell, nat>, parent: map<Cell, Cell>, current: Cell, trail: seq<Cell>) {
    && current in g
    && (forall k :: 0 <= k < |trail| ==> trail[k] in g && g[trail[k]] == g[current] - k)
    && (forall k :: 0 <= k < |trail| - 1 ==> ParentLink(parent, trail, k))
    && (trail != [] ==> trail[0] == current)
  }

  lemma TrailExtend(g: map<Cell, nat>, parent: map<Cell, Cell>, current: Cell, trail: seq<Cell>, temp: Cell)
    requires current in g && Trail(g, parent, current, trail)
    requires temp in g && g[temp] == g[current] - |trail|
    requires trail == [] ==> temp == current
    requires trail != [] ==> Last(trail) in parent && temp == parent[Last(trail)]
    ensures Trail(g, parent, current, trail + [temp])
  {
    var t := trail + [temp];
    forall k | 0 <= k < |t| - 1 ensures ParentLink(parent, t, k) {
      assert t[k] == trail[k];
      if k < |trail| - 1 {
        assert ParentLink(parent, trail, k);
        assert t[k + 1] == trail[k + 1];
      }
    }
  }

  /** Dropping start from the end of the trail and reversing gives the steps
      of a walk from start. */
  lemma TrailIndex(start: Cell, trail: seq<Cell>, t: int)
    requires |trail| > 0 && Last(trail) == start && 0 <= t < |trail|
    ensures ([start] + Reversed(trail[..|trail| - 1]))[t] == trail[|trail| - 1 - t]
  {
    if t > 0 {
      var n := |trail|;
      assert ([start] + Reversed(trail[..n - 1]))[t] == Reversed(trail[..n - 1])[t - 1];
    }
  }

  /** A complete trail, from current back to start, read backwards without
      its last cell: as many steps as the cost of current, none of them start. */
  lemma TrailSteps(start: Cell, current: Cell, g: map<Cell, nat>, parent: map<Cell, Cell>, trail: seq<Cell>)
    requires start in g && g[start] == 0
    requires Trail(g, parent, current, trail) && trail != [] && Last(trail) == start
    ensures var path := Reversed(trail[..|trail| - 1]);
      |path| == g[current] && start !in path
  {
    var n := |trail|;
    assert g[trail[n - 1]] == g[current] - (n - 1);
    var path := Reversed(trail[..n - 1]);
    forall k | 0 <= k < |path| ensures path[k] != start {
      assert path[k] == trail[n - 2 - k];
      assert g[trail[n - 2 - k]] == g[current] - (n - 2 - k);
    }
  }

  /** trail read backwards is a walk: each cell is walkable and one step from
      the next. */
  ghost predicate BackWalk(m: Map, trail: seq<Cell>)
    requires WellFormed(m)
  {
    forall k :: 0 <= k < |trail| - 1 ==> Walkable(m, trail[k]) && Adjacent(trail[k + 1], trail[k])
  }

  /** Every step of a trail is a step of the search tree. */
  lemma TrailFollowsTree(m: Map, start: Cell, current: Cell, closed: set<Cell>,
                    g: map<Cell, nat>, parent: map<Cell, Cell>, trail: seq<Cell>)
    requires WellFormed(m) && TreeInv(m, start, closed, g, parent)
    requires Trail(g, parent, current, trail)
    ensures BackWalk(m, trail)
  {
    forall k | 0 <= k < |trail| - 1 ensures Walkable(m, trail[k]) && Adjacent(trail[k + 1], trail[k]) {
      assert trail[k] in g && ParentLink(parent, trail, k);
      assert trail[k] != start;
    }
  }

  /** The same trail, start put back in front, is a walk from start to current. */
  lemma TrailWalk(m: Map, start: Cell, current: Cell, trail: seq<Cell>)
    requires WellFormed(m) && BackWalk(m, trail)
    requires trail != [] && trail[0] == current && Last(trail) == start
    ensures WalkBetween(m, [start] + Reversed(trail[..|trail| - 1]), start, current)
  {
    var n := |trail|;
    var path := Reversed(trail[..n - 1]);
    var w := [start] + path;
    assert |w| == n;
    TrailIndex(start, trail, n - 1);
    forall t | 1 <= t < n ensures Walkable(m, w[t]) && Adjacent(w[t - 1], w[t]) {
      TrailIndex(start, trail, t);
      TrailIndex(start, trail, t - 1);
    }
  }

  /** Follows the parent links from current back to start, then drops start
      and reverses. */
  method ReconstructPath(m: Map, start: Cell, current: Cell, closed: set<Cell>,
                         g: map<Cell, nat>, parent: map<Cell, Cell>) returns (path: seq<Cell>)
    requires WellFormed(m) && TreeInv(m, start, closed, g, parent) && current in g
    ensures |path| == g[current]
    ensures path != [] ==> WalkBetween(m, [start] + path, start, current)
    ensures start !in path
  {
    var trail: seq<Cell> := [];
    var temp := current;
    var more := true;
    while more
      invariant temp in g && Trail(g, parent, current, trail)
      invariant trail == [] ==> temp == current && more
      invariant trail != [] && more ==> Last(trail) in parent && temp == parent[Last(trail)]
      invariant more ==> g[temp] == g[current] - |trail|
      invariant !more ==> trail != [] && Last(trail) == start
      decreases if more then g[temp] + 1 else 0
    {
      TrailExtend(g, parent, current, trail, temp);
      trail := trail + [temp];
      if temp in parent {
        temp := parent[temp];
      } else {
        more := false;
      }
    }
    TrailSteps(start, current, g, parent, trail);
    TrailFollowsTree(m, start, current, closed, g, parent, trail);
    TrailWalk(m, start, current, trail);
    path := Reversed(trail[..|trail| - 1]);
  }

  /** Only start has cost 0 in the search tree. */
  lemma ZeroCostIsStart(m: Map, start: Cell, closed: set<Cell>, g: map<Cell, nat>,
                        parent: map<Cell, Cell>, c: Cell)
    requires WellFormed(m) && TreeInv(m, start, closed, g, parent) && c in g && g[c] == 0
    ensures c == start
  {
  }

  /** Relaxes the four neighbours of current, in the order of Offsets: a
      neighbour off the map, an obstacle or already closed is skipped; one
      reached more cheaply through current gets current as parent and
      g[current] + 1 as cost, and is appended to the open list if absent. */
  method ExpandNeighbours(m: Map, start: Cell, end: Cell, closed: set<Cell>, open0: seq<Cell>,
                          g0: map<Cell, nat>, parent0: map<Cell, Cell>, current: Cell)
    returns (open: seq<Cell>, g: map<Cell, nat>, parent: map<Cell, Cell>)
    requires WellFormed(m) && ExpandInv(m, start, end, closed, open0, g0, parent0, current, 0)
    ensures SearchInv(m, start, end, closed, open, g, parent)
  {
    open, g, parent := open0, g0, parent0;
    for k := 0 to 4
      invariant ExpandInv(m, start, end, closed, open, g, parent, current, k)
    {
      var next := Shift(current, Offsets[k]);
      if next.i < 0 || next.j < 0 || next.i >= GridSize || next.j >= GridSize {
        SkipNeighbour(m, start, end, closed, open, g, parent, current, k);
        continue;
      }
      if m[next.j][next.i] || next in closed {
        SkipNeighbour(m, start, end, closed, open, g, parent, current, k);
        continue;
      }
      var tentative := g[current] + 1;
      if next !in g || tentative < g[next] {
        UpdateNeighbour(m, start, end, closed, open, g, parent, current, k);
        parent := parent[next := current];
        g := g[next := tentative];
        if next !in open {
          open := open + [next];
        }
      } else {
        SkipNeighbour(m, start, end, closed, open, g, parent, current, k);
      }
    }
    FinishExpand(m, start, end, closed, open, g, parent, current);
  }

  /** gameMap must be the GridSize x GridSize map; start and end are grid cells. */
  method SolveAStar(m: Map, start: Cell, end: Cell) returns (path: seq<Cell>)
    requires WellFormed(m)
    // the three rejections: start or end off the grid, or end an obstacle
    ensures !InBounds(start) || !InBounds(end) || IsObstacle(m, end) ==> path == []
    ensures start == end ==> path == []
    // a found path: its steps, excluding start, lead from start to end over walkable cells
    ensures path != [] ==> InBounds(start) && WalkBetween(m, [start] + path, start, end)
    ensures start !in path
    // and it is a shortest one
    ensures path != [] ==> NoShorterWalk(m, start, end, |path|)
    // an empty answer for distinct valid cells means there is no way through
    ensures InBounds(start) && Walkable(m, end) && start != end ==>
              (path == [] <==> !Reachable(m, start, end))
  {
    if start.i < 0 || start.j < 0 || start.i >= GridSize || start.j >= GridSize ||
       end.i < 0 || end.j < 0 || end.i >= GridSize || end.j >= GridSize ||
       m[end.j][end.i] {
      return [];
    }
    var g: map<Cell, nat> := map[start := 0];
    var parent: map<Cell, Cell> := map[];
    var open: seq<Cell> := [start];
    var closed: set<Cell> := {};
    assert multiset(open)[start] == 1;
    while |open| > 0
      invariant SearchInv(m, start, end, closed, open, g, parent)
      decreases AllCells() - closed
    {
      var key := (c: Cell) => if c in g then g[c] + Heuristic(c, end) else 0;
      ghost var unsorted := open;
      open := Sorting.SortBy(open, key);
      SortKeepsOpenInv(unsorted, open, closed, g);
      Sorting.SortedHeadIsMinimal(open, key);
      var current := open[0];
      assert forall c :: c in open ==> g[current] + Heuristic(current, end) <= g[c] + Heuristic(c, end) by {
        forall c | c in open ensures g[current] + Heuristic(current, end) <= g[c] + Heuristic(c, end) {
          assert key(current) <= key(c);
        }
      }

      if current == end {
        PoppedOptimal(m, start, end, closed, open, g, parent, current);
        path := ReconstructPath(m, start, current, closed, g, parent);
        if path == [] {
          ZeroCostIsStart(m, start, closed, g, parent, end);
        }
        return;
      }

      BeginExpand(m, start, end, closed, open, g, parent);
      InAllCells(current);
      open, g, parent := ExpandNeighbours(m, start, end, closed + {current}, open[1..], g, parent, current);
      closed := closed + {current};
    }
    ExhaustedUnreachable(m, start, end, closed, g, parent);
    return [];
  }
}
