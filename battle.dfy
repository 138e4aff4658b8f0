/** The skirmish itself: the map with its wall, the roster of units, the
    player's move orders, the live-faction table and the end-of-game test. */
module Battle {
  import opened Grid
  import opened Units
  import Pathfinding
  import Sorting

  datatype Option<T> = None | Some(value: T)

  /** How the game ended, as the closing message reports it. */
  datatype Outcome = Running | Victory(winner: Faction) | Draw

  /** One line of the live-faction table. */
  datatype FactionCount = FactionCount(name: Faction, count: nat)

  /** The wall: row GridSize / 2, columns GridSize / 4 up to (not including)
      GridSize * 3 / 4, except the two gap columns GridSize / 2 and
      GridSize / 2 + 1. */
  const WallRow: int := GridSize / 2
  const WallFrom: int := GridSize / 4
  const WallTo: int := GridSize * 3 / 4
  const GapColumn: int := GridSize / 2

  predicate IsWallCell(c: Cell) {
    c.j == WallRow && WallFrom <= c.i < WallTo && c.i != GapColumn && c.i != GapColumn + 1
  }

  predicate IsLivePlayer(u: Unit)
    reads u
  {
    u.faction == PlayerFaction && u.health > 0.0
  }

  /** The position of the first live unit of the player's faction, as
      Array.prototype.find gives it. */
  function FindLivePlayer(us: seq<Unit>): (r: Option<nat>)
    reads us
    ensures r.None? <==> forall k :: 0 <= k < |us| ==> !IsLivePlayer(us[k])
    ensures r.Some? ==> r.value < |us| && IsLivePlayer(us[r.value]) &&
                        forall k :: 0 <= k < r.value ==> !IsLivePlayer(us[k])
  {
    if us == [] then None
    else if IsLivePlayer(us[0]) then Some(0)
    else match FindLivePlayer(us[1..])
      case None => None
      case Some(k) => Some(k + 1)
  }

  /** The number of live units of faction f. */
  function CountLive(us: seq<Unit>, f: Faction): (n: nat)
    reads us
    ensures n <= |us|
    ensures n == 0 <==> forall k :: 0 <= k < |us| ==> !(us[k].faction == f && us[k].health > 0.0)
  {
    if us == [] then 0
    else (if us[0].faction == f && us[0].health > 0.0 then 1 else 0) + CountLive(us[1..], f)
  }

  /** The factions that still have a live unit. */
  function LiveFactions(us: seq<Unit>): set<Faction>
    reads us
  {
    set u | u in us && u.health > 0.0 :: u.faction
  }

  function Names(r: seq<FactionCount>): (names: seq<Faction>)
    ensures |names| == |r| && forall k :: 0 <= k < |r| ==> names[k] == r[k].name
  {
    seq(|r|, k requires 0 <= k < |r| => r[k].name)
  }

  /** The census the table shows, in configuration order. */
  function Census(us: seq<Unit>): seq<FactionCount>
    reads us
  {
    seq(|Factions|, k requires 0 <= k < |Factions| reads us => FactionCount(Factions[k], CountLive(us, Factions[k])))
  }

  class Game {
    var gameMap: Map
    var obstacles: seq<Cell>
    var units: seq<Unit>
    var currentPath: seq<Cell>
    var isGameOver: bool
    var outcome: Outcome

    /** The map is the full grid and every unit keeps its own invariant and
        aims, if at all, at a unit of the roster. */
    ghost predicate Valid()
      reads this, units
    {
      && WellFormed(gameMap)
      && forall u :: u in units ==> u.Valid() && (u.target == null || u.target in units)
    }

    /** A new game on the walled map, with the given roster. */
    constructor(roster: seq<Unit>)
      requires forall u :: u in roster ==> u.Valid() && (u.target == null || u.target in roster)
      ensures Valid() && units == roster && currentPath == []
      ensures !isGameOver && outcome == Running
      ensures forall c :: InBounds(c) ==> (IsObstacle(gameMap, c) <==> IsWallCell(c))
    {
      units := roster;
      currentPath := [];
      isGameOver := false;
      outcome := Running;
      gameMap := [];
      obstacles := [];
      new;
      PlaceObstacles();
    }

    /** Builds the GridSize x GridSize map with every cell walkable. */
    method InitMap()
      modifies this`gameMap
      ensures WellFormed(gameMap)
      ensures forall c :: InBounds(c) ==> !IsObstacle(gameMap, c)
    {
      gameMap := [];
      for j := 0 to GridSize
        invariant |gameMap| == j
        invariant forall r :: 0 <= r < j ==> |gameMap[r]| == GridSize
        invariant forall r, i :: 0 <= r < j && 0 <= i < |gameMap[r]| ==> !gameMap[r][i]
      {
        var row: seq<bool> := [];
        for i := 0 to GridSize
          invariant |row| == i && forall k :: 0 <= k < i ==> !row[k]
        {
          row := row + [false];
        }
        gameMap := gameMap + [row];
      }
    }

    /** Clears the map and raises the wall, listing its cells in obstacles. */
    method PlaceObstacles()
      modifies this`gameMap, this`obstacles
      ensures WellFormed(gameMap)
      ensures forall c :: InBounds(c) ==> (IsObstacle(gameMap, c) <==> IsWallCell(c))
      ensures forall c :: c in obstacles <==> IsWallCell(c)
      ensures |obstacles| == 13
      ensures forall a, b :: 0 <= a < b < |obstacles| ==> obstacles[a].i < obstacles[b].i
    {
      obstacles := [];
      InitMap();
      var wallJ := GridSize / 2;
      for i := GridSize / 4 to GridSize * 3 / 4
        invariant WellFormed(gameMap)
        invariant forall c :: InBounds(c) ==> (IsObstacle(gameMap, c) <==> IsWallCell(c) && c.i < i)
        invariant forall c :: c in obstacles <==> IsWallCell(c) && c.i < i
        invariant |obstacles| == (i - WallFrom) - (if i > GapColumn + 1 then 2 else if i > GapColumn then 1 else 0)
        invariant forall a, b :: 0 <= a < b < |obstacles| ==> obstacles[a].i < obstacles[b].i
        invariant forall a :: 0 <= a < |obstacles| ==> obstacles[a].i < i
      {
        if i != GridSize / 2 && i != GridSize / 2 + 1 {
          gameMap := gameMap[wallJ := gameMap[wallJ][i := true]];
          obstacles := obstacles + [Cell(i, wallJ)];
        }
      }
    }

    /** A click at canvas point (x, y): plans a shortest route from the cell of
        the first live player unit to the clicked cell and hands it to every
        live player unit, which drops its target and starts at the first
        waypoint. failed reports that no route was found. */
    method HandlePlayerClick(x: real, y: real) returns (failed: bool)
      requires Valid()
      modifies this`currentPath, units`path, units`pathIndex, units`target
      ensures Valid()
      // nothing happens once the game is over, or with no live player unit
      ensures old(isGameOver) || FindLivePlayer(units).None? ==>
        !failed && currentPath == old(currentPath) && forall u :: u in units ==> unchanged(u)
      ensures !old(isGameOver) && FindLivePlayer(units).Some? ==>
        var start := ToGrid(old(units[FindLivePlayer(units).value].position));
        var goal := ToGrid(Vec2(x, y));
        && currentPath == []
        // units outside the player's live army keep their orders
        && (forall u :: u in units && !IsLivePlayer(u) ==> unchanged(u))
        // a failure leaves the orders alone; it happens exactly when the search comes back empty
        && (failed ==> forall u :: u in units ==> unchanged(u))
        && (failed ==> !InBounds(start) || !InBounds(goal) || IsObstacle(gameMap, goal) ||
                       start == goal || !Reachable(gameMap, start, goal))
        && (!failed ==> Reachable(gameMap, start, goal) && start != goal)
        // on success every live player unit follows one and the same shortest route
        && (!failed ==> forall u :: u in units && IsLivePlayer(u) ==>
              && u.path != [] && u.pathIndex == 0 && u.target == null
              && WalkBetween(gameMap, [start] + u.path, start, goal)
              && NoShorterWalk(gameMap, start, goal, |u.path|))
        && (!failed ==> forall u, v :: u in units && v in units && IsLivePlayer(u) && IsLivePlayer(v) ==>
              u.path == v.path)
    {
      failed := false;
      if isGameOver {
        return;
      }
      var targetGrid := ToGrid(Vec2(x, y));
      var found := FindLivePlayer(units);
      if found.None? {
        return;
      }
      var playerUnit := units[found.value];
      var startGrid := ToGrid(playerUnit.position);
      currentPath := Pathfinding.SolveAStar(gameMap, startGrid, targetGrid);
      if |currentPath| > 0 {
        assert Reachable(gameMap, startGrid, targetGrid) by {
          assert WalkBetween(gameMap, [startGrid] + currentPath, startGrid, targetGrid);
        }
        AssignRoute(currentPath);
        currentPath := [];
      } else {
        failed := true;
      }
    }

    /** Hands route to every live unit of the player's faction, which drops
        its target and starts at the first waypoint. */
    method AssignRoute(route: seq<Cell>)
      requires Valid() && route != []
      modifies units`path, units`pathIndex, units`target
      ensures Valid()
      ensures forall u :: u in units && !IsLivePlayer(u) ==> unchanged(u)
      ensures forall u :: u in units && IsLivePlayer(u) ==>
                u.path == route && u.pathIndex == 0 && u.target == null
    {
      for k := 0 to |units|
        invariant forall u :: u in units && !IsLivePlayer(u) ==> unchanged(u)
        invariant forall n :: 0 <= n < k && IsLivePlayer(units[n]) ==>
                    units[n].path == route && units[n].pathIndex == 0 && units[n].target == null
        invariant forall u :: u in units && IsLivePlayer(u) ==>
                    unchanged(u) || (u.path == route && u.pathIndex == 0 && u.target == null)
      {
        var u := units[k];
        if u.faction == PlayerFaction && u.health > 0.0 {
          u.path := route;
          u.pathIndex := 0;
          u.target := null;
        }
      }
    }

    /** Once at most one faction has a live unit the game is over: that
        faction wins, or, with none left, it is a draw. */
    method CheckGameOver()
      modifies this`isGameOver, this`outcome
      ensures old(isGameOver) ==> isGameOver && outcome == old(outcome)
      ensures !old(isGameOver) ==> (isGameOver <==> |LiveFactions(units)| <= 1)
      ensures !old(isGameOver) && |LiveFactions(units)| > 1 ==> outcome == old(outcome)
      ensures !old(isGameOver) && |LiveFactions(units)| == 1 ==>
                outcome.Victory? && LiveFactions(units) == {outcome.winner}
      ensures !old(isGameOver) && |LiveFactions(units)| == 0 ==> outcome == Draw
    {
      if isGameOver {
        return;
      }
      var liveFactions: set<Faction> := {};
      for k := 0 to |units|
        invariant liveFactions == LiveFactions(units[..k])
      {
        var u := units[k];
        if u.health > 0.0 {
          liveFactions := liveFactions + {u.faction};
        }
      }
      assert units[..|units|] == units;
      if |liveFactions| <= 1 {
        isGameOver := true;
        if |liveFactions| == 1 {
          var winner :| winner in liveFactions;
          SingletonSet(liveFactions, winner);
          outcome := Victory(winner);
        } else {
          outcome := Draw;
        }
      }
    }

    /** A count of zero for every faction of the configuration, then one more
        for each live unit of the roster. */
    method CountLiveUnits() returns (counts: map<Faction, nat>)
      ensures forall f :: f in counts && counts[f] == CountLive(units, f)
    {
      counts := map[];
      for k := 0 to |Factions|
        invariant forall n :: 0 <= n < k ==> Factions[n] in counts && counts[Factions[n]] == 0
      {
        counts := counts[Factions[k] := 0];
      }
      AllFactionsListed();
      assert forall f :: f in counts && counts[f] == CountLive(units[..0], f) by {
        forall f ensures f in counts && counts[f] == CountLive(units[..0], f) {
          assert f in Factions;
          assert units[..0] == [];
        }
      }
      for k := 0 to |units|
        invariant forall f :: f in counts && counts[f] == CountLive(units[..k], f)
      {
        var u := units[k];
        CountLiveSnoc(units[..k], u);
        assert units[..k + 1] == units[..k] + [u];
        if u.health > 0.0 {
          counts := counts[u.faction := counts[u.faction] + 1];
        }
      }
      assert units[..|units|] == units;
    }

    /** The live-faction table: every faction of the configuration with its
        number of live units, the largest counts first (a stable sort, so
        equal counts keep configuration order). */
    method UpdateStats() returns (livingFactions: seq<FactionCount>)
      ensures multiset(livingFactions) == multiset(Census(units))
      ensures forall a, b :: 0 <= a < b < |livingFactions| ==> livingFactions[a].count >= livingFactions[b].count
      ensures |livingFactions| == |Factions|
      ensures forall k :: 0 <= k < |livingFactions| ==>
                livingFactions[k].count == CountLive(units, livingFactions[k].name)
      ensures forall f :: f in Names(livingFactions)
    {
      var counts := CountLiveUnits();
      livingFactions := [];
      for k := 0 to |Factions|
        invariant livingFactions == Census(units)[..k]
      {
        livingFactions := livingFactions + [FactionCount(Factions[k], counts[Factions[k]])];
      }
      assert livingFactions == Census(units);
      var byCount := (f: FactionCount) => 0 - f.count as int;
      livingFactions := Sorting.SortBy(livingFactions, byCount);
      CensusFacts(units, livingFactions);
    }
  }

  lemma SingletonSet(s: set<Faction>, x: Faction)
    requires |s| == 1 && x in s
    ensures s == {x}
  {
    var t := s - {x};
    assert s == t + {x} && x !in t;
    assert |t| == 0;

  }

  lemma AllFactionsListed()
    ensures forall f :: f in Factions
  {
    forall f ensures f in Factions {
      match f
      case Aethel => assert Factions[0] == f;
      case Borean => assert Factions[1] == f;
      case Cygnus => assert Factions[2] == f;
      case Drakon => assert Factions[3] == f;
    }
  }

  lemma CountLiveSnoc(us: seq<Unit>, u: Unit)
    ensures forall f :: CountLive(us + [u], f) == CountLive(us, f) + (if u.faction == f && u.health > 0.0 then 1 else 0)
  {
    forall f ensures CountLive(us + [u], f) == CountLive(us, f) + (if u.faction == f && u.health > 0.0 then 1 else 0) {
      CountLiveSnocOne(us, u, f);
    }
  }

  lemma {:induction false} CountLiveSnocOne(us: seq<Unit>, u: Unit, f: Faction)
    ensures CountLive(us + [u], f) == CountLive(us, f) + (if u.faction == f && u.health > 0.0 then 1 else 0)
  {
    if us != [] {
      assert (us + [u])[1..] == us[1..] + [u];
      CountLiveSnocOne(us[1..], u, f);
    }
  }

  /** A reordering of the census still lists every faction once with its count. */
  lemma CensusFacts(us: seq<Unit>, r: seq<FactionCount>)
    requires multiset(r) == multiset(Census(us))
    ensures |r| == |Factions|
    ensures forall k :: 0 <= k < |r| ==> r[k].count == CountLive(us, r[k].name)
    ensures forall f :: f in Names(r)
  {
    var c := Census(us);
    assert |r| == |multiset(r)| == |multiset(c)| == |c|;
    forall k | 0 <= k < |r| ensures r[k].count == CountLive(us, r[k].name) {
      assert r[k] in multiset(c);
      var n :| 0 <= n < |c| && c[n] == r[k];
    }
    AllFactionsListed();
    forall f ensures f in Names(r) {
      assert f in Factions;
      var n :| 0 <= n < |Factions| && Factions[n] == f;
      assert c[n] in multiset(r);
      var k :| 0 <= k < |r| && r[k] == c[n];
      assert Names(r)[k] == f;
    }
  }

  /** With the wall in place the gap columns are open: a unit can step from
      the cell above the gap to the cell below it. */
  lemma GapIsOpen(m: Map)
    requires WellFormed(m)
    requires forall c :: InBounds(c) ==> (IsObstacle(m, c) <==> IsWallCell(c))
    ensures Reachable(m, Cell(GapColumn, WallRow - 1), Cell(GapColumn, WallRow + 1))
    ensures Reachable(m, Cell(GapColumn + 1, WallRow - 1), Cell(GapColumn + 1, WallRow + 1))
  {
    var w := [Cell(GapColumn, WallRow - 1), Cell(GapColumn, WallRow), Cell(GapColumn, WallRow + 1)];
    assert !IsObstacle(m, w[1]) && !IsObstacle(m, w[2]);
    assert WalkBetween(m, w, w[0], w[2]);
    var v := [Cell(GapColumn + 1, WallRow - 1), Cell(GapColumn + 1, WallRow), Cell(GapColumn + 1, WallRow + 1)];
    assert !IsObstacle(m, v[1]) && !IsObstacle(m, v[2]);
    assert WalkBetween(m, v, v[0], v[2]);
  }

  /** The wall does not reach the edges of the map: the cells left of its
      first column and right of its last column are walkable, so the two
      halves also connect around the wall's ends. */
  lemma WallEndsAreOpen(m: Map)
    requires WellFormed(m)
    requires forall c :: InBounds(c) ==> (IsObstacle(m, c) <==> IsWallCell(c))
    ensures Walkable(m, Cell(WallFrom - 1, WallRow)) && Walkable(m, Cell(WallTo, WallRow))
    ensures Reachable(m, Cell(WallFrom - 1, WallRow - 1), Cell(WallFrom - 1, WallRow + 1))
  {
    var w := [Cell(WallFrom - 1, WallRow - 1), Cell(WallFrom - 1, WallRow), Cell(WallFrom - 1, WallRow + 1)];
    assert !IsObstacle(m, w[1]) && !IsObstacle(m, w[2]);
    assert WalkBetween(m, w, w[0], w[2]);
    assert !IsObstacle(m, Cell(WallTo, WallRow));
  }
}
