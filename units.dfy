/** The units of the skirmish: plane vectors, the four factions and their
    configuration, and the per-tick decision rule of a unit. */
module Units {
  import opened Grid

  /** A point or displacement on the canvas, in pixels. */
  datatype Vec2 = Vec2(x: real, y: real)

  function Add(a: Vec2, b: Vec2): Vec2 { Vec2(a.x + b.x, a.y + b.y) }

  function Sub(a: Vec2, b: Vec2): Vec2 { Vec2(a.x - b.x, a.y - b.y) }

  function Scale(a: Vec2, s: real): Vec2 { Vec2(a.x * s, a.y * s) }

  /** The square of the length of v. */
  function LengthSq(v: Vec2): real { v.x * v.x + v.y * v.y }

  /** The square of the distance between a and b. */
  function DistSq(a: Vec2, b: Vec2): real { LengthSq(Sub(a, b)) }

  /** Distances are only ever compared with each other or with a non-negative
      bound, and comparing two non-negative numbers is the same as comparing
      their squares: this is what lets the model use DistSq in place of the
      square-rooted distance. */
  lemma CompareBySquares(d: real, r: real)
    requires d >= 0.0 && r >= 0.0
    ensures d <= r <==> d * d <= r * r
    ensures d < r <==> d * d < r * r
  {
    var dd, dr, rr := d * d, d * r, r * r;
    if d < r {
      assert dd <= dr;
      assert dr < rr;
    } else if r < d {
      assert rr <= dr;
      assert dr < dd;
    }
  }

  /** v scaled by 1/len, where len is the length of v (the caller supplies the
      square root); the zero vector stays zero. */
  function Normalize(v: Vec2, len: real): (r: Vec2)
    requires len >= 0.0 && len * len == LengthSq(v)
    ensures LengthSq(v) > 0.0 ==> LengthSq(r) == 1.0
    ensures LengthSq(v) == 0.0 ==> r == Vec2(0.0, 0.0)
  {
    if len > 0.0 then
      assert LengthSq(Scale(v, 1.0 / len)) == LengthSq(v) / (len * len);
      Scale(v, 1.0 / len)
    else
      assert v.x * v.x == 0.0 && v.y * v.y == 0.0;
      Vec2(0.0, 0.0)
  }

  /** The cell of the grid that holds the canvas point v. */
  function ToGrid(v: Vec2): (c: Cell)
    ensures (c.i * CellSize) as real <= v.x < ((c.i + 1) * CellSize) as real
    ensures (c.j * CellSize) as real <= v.y < ((c.j + 1) * CellSize) as real
  {
    Cell((v.x / CellSize as real).Floor, (v.y / CellSize as real).Floor)
  }

  /** The canvas point at the centre of grid cell c. */
  function CellCenter(c: Cell): (p: Vec2)
    ensures ToGrid(p) == c
  {
    Vec2((c.i * CellSize) as real + CellSize as real / 2.0,
         (c.j * CellSize) as real + CellSize as real / 2.0)
  }

  const CanvasWidth: real := (GridSize * CellSize) as real
  const CanvasHeight: real := (GridSize * CellSize) as real

  datatype Faction = Aethel | Borean | Cygnus | Drakon
  datatype Team = Player | Enemy

  /** The factions in the order of their configuration table. */
  const Factions: seq<Faction> := [Aethel, Borean, Cygnus, Drakon]

  const PlayerFaction: Faction := Aethel

  function MaxHealth(f: Faction): real {
    match f
    case Aethel => 80.0
    case Borean => 120.0
    case Cygnus => 100.0
    case Drakon => 70.0
  }

  function Damage(f: Faction): real {
    match f
    case Aethel => 0.6
    case Borean => 0.4
    case Cygnus => 0.5
    case Drakon => 0.7
  }

  function Speed(f: Faction): real {
    match f
    case Aethel => 2.5
    case Borean => 1.5
    case Cygnus => 2.0
    case Drakon => 2.2
  }

  function TeamOf(f: Faction): (t: Team)
    ensures t == Player <==> f == PlayerFaction
  {
    if f == Aethel then Player else Enemy
  }

  const AttackRange: real := 70.0
  const UnitRadius: real := 8.0
  const SeparationForce: real := 0.05

  function Clamp(lo: real, hi: real, x: real): (r: real)
    requires lo <= hi
    ensures lo <= r <= hi
    ensures lo <= x <= hi ==> r == x
  {
    if x < lo then lo else if x > hi then hi else x
  }

  class Unit {
    var position: Vec2
    var velocity: Vec2
    const faction: Faction
    const team: Team
    const maxSpeed: real
    const radius: real
    var health: real
    const maxHealth: real
    const damage: real
    const attackRange: real
    var target: Unit?
    var path: seq<Cell>
    var pathIndex: int

    /** A fresh unit at (x, y) with its faction's configuration, full health,
        no target and no path. */
    constructor(x: real, y: real, f: Faction)
      ensures position == Vec2(x, y) && velocity == Vec2(0.0, 0.0)
      ensures faction == f && team == TeamOf(f) && maxSpeed == Speed(f)
      ensures radius == UnitRadius && attackRange == AttackRange
      ensures health == MaxHealth(f) && maxHealth == MaxHealth(f) && damage == Damage(f)
      ensures target == null && path == [] && pathIndex == 0
      ensures Valid()
    {
      position := Vec2(x, y);
      velocity := Vec2(0.0, 0.0);
      faction := f;
      team := TeamOf(f);
      maxSpeed := Speed(f);
      radius := UnitRadius;
      health := MaxHealth(f);
      maxHealth := MaxHealth(f);
      damage := Damage(f);
      attackRange := AttackRange;
      target := null;
      path := [];
      pathIndex := 0;
    }

    /** The waypoint index invariant: a path being followed always has a
        current waypoint. */
    predicate Valid()
      reads this
    {
      && pathIndex >= 0 && (path == [] || pathIndex < |path|)
      && radius == UnitRadius && attackRange == AttackRange
      && target != this
    }

    /** u is an enemy this unit may fight: another faction, still alive. */
    predicate IsEnemy(u: Unit)
      reads this, u
    {
      u.faction != faction && u.health > 0.0
    }

    /** n is what the nearest-enemy search must give over allUnits: null when
        no enemy is alive, otherwise an enemy at the least distance, the first
        such one in roster order. */
    ghost predicate NearestEnemy(allUnits: seq<Unit>, n: Unit?)
      reads this, allUnits
    {
      && (n == null <==> forall k :: 0 <= k < |allUnits| ==> !IsEnemy(allUnits[k]))
      && (n != null ==>
            exists idx :: 0 <= idx < |allUnits| && allUnits[idx] == n && IsEnemy(n) &&
              (forall k :: 0 <= k < |allUnits| && IsEnemy(allUnits[k]) ==>
                 DistSq(position, n.position) <= DistSq(position, allUnits[k].position)) &&
              (forall k :: 0 <= k < idx && IsEnemy(allUnits[k]) ==>
                 DistSq(position, n.position) < DistSq(position, allUnits[k].position)))
    }

    /** Scans the roster keeping the enemy seen at the strictly smallest
        distance so far. */
    method FindNearestEnemy(allUnits: seq<Unit>) returns (nearest: Unit?)
      ensures NearestEnemy(allUnits, nearest)
    {
      nearest := null;
      var minDistance: real := 0.0;
      ghost var idx := 0;
      for k := 0 to |allUnits|
        invariant nearest == null <==> forall n :: 0 <= n < k ==> !IsEnemy(allUnits[n])
        invariant nearest != null ==> 0 <= idx < k && allUnits[idx] == nearest && IsEnemy(nearest)
        invariant nearest != null ==> minDistance == DistSq(position, nearest.position)
        invariant nearest != null ==> forall n :: 0 <= n < k && IsEnemy(allUnits[n]) ==>
                    minDistance <= DistSq(position, allUnits[n].position)
        invariant nearest != null ==> forall n :: 0 <= n < idx && IsEnemy(allUnits[n]) ==>
                    minDistance < DistSq(position, allUnits[n].position)
      {
        var other := allUnits[k];
        if other.faction != faction && other.health > 0.0 {
          var distance := DistSq(position, other.position);
          if nearest == null || distance < minDistance {
            minDistance := distance;
            nearest := other;
            idx := k;
          }
        }
      }
    }

    /** One tick of the unit. The steering helpers that need a square root are
        supplied by the caller: seek(p) is the seek force toward p from the
        unit's current position and velocity, separation the summed
        separation vector, and rescale(v) the vector v brought to length
        maxSpeed. */
    method Update(allUnits: seq<Unit>, seek: Vec2 -> Vec2, separation: Vec2, rescale: Vec2 -> Vec2)
      requires Valid()
      requires target == null || target in allUnits
      modifies this, allUnits`health
      ensures Valid()
      ensures target == null || target in allUnits
      // a dead unit does nothing
      ensures old(health) <= 0.0 ==> unchanged(this) && forall u :: u in allUnits ==> u.health == old(u.health)
      // the target is kept while it is a live enemy, otherwise replaced by the nearest enemy
      ensures old(health) > 0.0 && old(target) != null && old(IsEnemy(target)) ==> target == old(target)
      ensures var t := target;
        old(health) > 0.0 && !(old(target) != null && old(IsEnemy(target))) ==> old(NearestEnemy(allUnits, t))
      ensures target != this
      // in attack range: stop, drop the path and drain the target by exactly damage
      ensures var t := target;
        old(health) > 0.0 && t != null && old(DistSq(position, t.position)) <= AttackRange * AttackRange ==>
          && path == [] && pathIndex == old(pathIndex)
          && t.health == old(t.health) - damage
          && velocity == Capped(Scale(separation, SeparationForce * 2.0), maxSpeed, rescale)
      // out of range: chase, and drop the path
      ensures var t := target;
        old(health) > 0.0 && t != null && old(DistSq(position, t.position)) > AttackRange * AttackRange ==>
          path == [] && pathIndex == old(pathIndex) && t.health == old(t.health)
      // no other unit's health changes
      ensures forall u :: u in allUnits && u != target ==> u.health == old(u.health)
      // with no enemy left the unit follows its path: the waypoint index moves
      // on by one when the unit is within half a cell of the waypoint's centre,
      // and the path is dropped once the index passes its end
      ensures old(health) > 0.0 && target == null && old(path) == [] ==> path == [] && pathIndex == old(pathIndex)
      ensures old(health) > 0.0 && target == null && old(path) != [] ==>
        var near := old(DistSq(position, CellCenter(path[pathIndex]))) < 100.0;
        && pathIndex == (if near then old(pathIndex) + 1 else old(pathIndex))
        && path == (if pathIndex >= |old(path)| then [] else old(path))
      // out of range the unit steers towards the target, following a path it
      // steers towards the waypoint centre, and otherwise only separation acts
      ensures var t := target;
        old(health) > 0.0 && t != null && old(DistSq(position, t.position)) > AttackRange * AttackRange ==>
          velocity == Capped(Add(old(velocity), Add(seek(t.position), Scale(separation, SeparationForce * 2.0))), maxSpeed, rescale)
      ensures old(health) > 0.0 && target == null && old(path) != [] ==>
        velocity == Capped(Add(old(velocity), Add(seek(CellCenter(old(path)[old(pathIndex)])),
                                                  Scale(separation, SeparationForce * 2.0))), maxSpeed, rescale)
      ensures old(health) > 0.0 && target == null && old(path) == [] ==>
        velocity == Capped(Add(old(velocity), Add(Vec2(0.0, 0.0), Scale(separation, SeparationForce * 2.0))), maxSpeed, rescale)
      // a live unit moves by its new velocity and stays on the canvas
      ensures old(health) > 0.0 ==> position == KeepOnCanvas(Add(old(position), velocity), radius)
      ensures old(health) > 0.0 ==>
        radius <= position.x <= CanvasWidth - radius && radius <= position.y <= CanvasHeight - radius
      // the unit's own health never changes
      ensures health == old(health)
    {
      if health <= 0.0 {
        return;
      }
      var targetViable := AcquireTarget(allUnits);
      var steering := Vec2(0.0, 0.0);
      if targetViable {
        steering := Engage(seek);
      } else if |path| > 0 {
        steering := FollowPath(seek);
      }
      Move(steering, separation, rescale);
    }

    /** Keeps the current target while it is a live enemy, otherwise takes the
        nearest enemy, or none. */
    method AcquireTarget(allUnits: seq<Unit>) returns (targetViable: bool)
      requires Valid() && (target == null || target in allUnits)
      modifies this`target
      ensures Valid() && (target == null || target in allUnits)
      ensures targetViable <==> target != null
      ensures target != null ==> IsEnemy(target)
      ensures old(target) != null && old(IsEnemy(target)) ==> target == old(target)
      ensures var t := target; !(old(target) != null && old(IsEnemy(target))) ==> old(NearestEnemy(allUnits, t))
    {
      targetViable := false;
      if target != null && target.health > 0.0 && target.faction != faction {
        targetViable := true;
      } else {
        var nearestEnemy := FindNearestEnemy(allUnits);
        if nearestEnemy != null {
          target := nearestEnemy;
          targetViable := true;
        } else {
          target := null;
        }
      }
    }

    /** Fights the target: within attack range stop, drop the path and drain
        the target by exactly damage; beyond it, chase the target and drop
        the path. Returns the steering force this asks for. */
    method Engage(seek: Vec2 -> Vec2) returns (steering: Vec2)
      requires Valid() && target != null
      modifies this`velocity, this`path, target`health
      ensures Valid()
      ensures DistSq(position, target.position) <= AttackRange * AttackRange ==>
        && velocity == Vec2(0.0, 0.0) && path == [] && steering == Vec2(0.0, 0.0)
        && target.health == old(target.health) - damage
      ensures DistSq(position, target.position) > AttackRange * AttackRange ==>
        && velocity == old(velocity) && path == [] && steering == seek(target.position)
        && target.health == old(target.health)
    {
      steering := Vec2(0.0, 0.0);
      if DistSq(position, target.position) <= attackRange * attackRange {
        velocity := Vec2(0.0, 0.0);
        path := [];
        target.health := target.health - damage;
      } else {
        steering := Add(steering, seek(target.position));
        path := [];
      }
    }

    /** Heads for the current waypoint, moving on to the next one within half
        a cell of its centre, and drops the path once past its end. Returns
        the steering force this asks for. */
    method FollowPath(seek: Vec2 -> Vec2) returns (steering: Vec2)
      requires Valid() && path != []
      modifies this`path, this`pathIndex
      ensures Valid()
      ensures var center := CellCenter(old(path)[old(pathIndex)]);
        var near := DistSq(position, center) < 100.0;
        && steering == seek(center)
        && pathIndex == (if near then old(pathIndex) + 1 else old(pathIndex))
        && path == (if pathIndex >= |old(path)| then [] else old(path))
    {
      steering := Vec2(0.0, 0.0);
      var center := CellCenter(path[pathIndex]);
      steering := Add(steering, seek(center));
      if DistSq(position, center) < (CellSize as real * 0.5) * (CellSize as real * 0.5) {
        pathIndex := pathIndex + 1;
        if pathIndex >= |path| {
          path := [];
        }
      }
    }

    /** Adds the weighted separation to the steering, applies it to the
        velocity under the speed cap, moves, and keeps the unit on the canvas. */
    method Move(steering: Vec2, separation: Vec2, rescale: Vec2 -> Vec2)
      requires Valid()
      modifies this`velocity, this`position
      ensures Valid()
      ensures velocity == Capped(Add(old(velocity), Add(steering, Scale(separation, SeparationForce * 2.0))), maxSpeed, rescale)
      ensures position == KeepOnCanvas(Add(old(position), velocity), radius)
    {
      var total := Add(steering, Scale(separation, SeparationForce * 2.0));
      velocity := Add(velocity, total);
      if LengthSq(velocity) > maxSpeed * maxSpeed {
        velocity := rescale(velocity);
      }
      position := Add(position, velocity);
      position := Vec2(Clamp(radius, CanvasWidth - radius, position.x),
                       Clamp(radius, CanvasHeight - radius, position.y));
    }

    /** p moved back onto the canvas, a margin r from every edge. */
    static function KeepOnCanvas(p: Vec2, r: real): (q: Vec2)
      requires 0.0 <= r <= CanvasWidth / 2.0 && r <= CanvasHeight / 2.0
      ensures r <= q.x <= CanvasWidth - r && r <= q.y <= CanvasHeight - r
      ensures r <= p.x <= CanvasWidth - r && r <= p.y <= CanvasHeight - r ==> q == p
    {
      Vec2(Clamp(r, CanvasWidth - r, p.x), Clamp(r, CanvasHeight - r, p.y))
    }

    /** The velocity after the speed cap: rescaled to maxSpeed when longer. */
    static function Capped(v: Vec2, maxSpeed: real, rescale: Vec2 -> Vec2): Vec2 {
      if LengthSq(v) > maxSpeed * maxSpeed then rescale(v) else v
    }
  }
}
