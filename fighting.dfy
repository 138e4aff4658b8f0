/** The stick-figure duel shared by the Dutch and the English fighting game:
    the falling step of a sprite, the attack/cooldown cycle of a fighter, the
    attack-box collision test, the computer opponent's pursuit rule and the
    verdict and score of a finished round. Both games run on a 750 x 400
    canvas whose bottom 50 pixels are the ground. */
module Fighting {

  const Gravity: real := 0.7
  const CanvasHeight: real := 400.0
  const GroundHeight: real := 50.0
  /** Every sprite is 50 wide and 150 tall. */
  const BodyWidth: real := 50.0
  const BodyHeight: real := 150.0
  const AttackWidth: real := 100.0
  const AttackHeight: real := 50.0
  /** A fighter left of this x strikes to the right, otherwise to the left. */
  const ArenaMiddle: real := 375.0
  const PursuitRange: real := 250.0
  const StrikeRange: real := 100.0
  const ApproachFactor: real := 0.7

  /** The y of a sprite standing on the ground. */
  const FloorY: real := CanvasHeight - GroundHeight - BodyHeight

  datatype Point = Point(x: real, y: real)

  /** The stats object a fighter is built from and that the computer
      opponent reads every frame. */
  datatype Stats = Stats(speed: real, jumpChance: real, attackCooldown: int, damage: int, health: int)

  datatype AttackBox = AttackBox(position: Point, damage: int)

  /** Where a sprite is and how fast it moves. */
  datatype Motion = Motion(position: Point, velocity: Point)

  /** The attack state of a fighter: whether a strike is live, and the number
      of frames until the next one may start. */
  datatype Weapon = Weapon(attacking: bool, cooldown: int)

  function AbsR(x: real): real { if x < 0.0 then -x else x }

  // ---------------------------------------------------------------- motion

  /** One frame of Sprite.update: move by the velocity; then, if the next
      frame's move would reach the ground, stop on it, and otherwise
      accelerate downwards by Gravity. */
  function Fall(m: Motion): (r: Motion)
    ensures r.position.x == m.position.x + m.velocity.x && r.velocity.x == m.velocity.x
    ensures m.position.y <= FloorY ==> r.position.y <= FloorY
    ensures (r.velocity.y == 0.0 && r.position.y == FloorY)
         || (r.velocity.y == m.velocity.y + Gravity && r.position.y == m.position.y + m.velocity.y < FloorY - m.velocity.y)
  {
    var p := Point(m.position.x + m.velocity.x, m.position.y + m.velocity.y);
    if p.y + BodyHeight + m.velocity.y >= CanvasHeight - GroundHeight then
      Motion(Point(p.x, FloorY), Point(m.velocity.x, 0.0))
    else
      Motion(p, Point(m.velocity.x, m.velocity.y + Gravity))
  }

  /** A sprite standing still on the ground stays there. */
  lemma RestingIsStable(m: Motion)
    requires m.position.y == FloorY && m.velocity.y == 0.0
    ensures Fall(m).position.y == FloorY && Fall(m).velocity.y == 0.0
  {
  }

  /** A sprite lands exactly when it is moving down far enough to reach the
      ground within two frames' worth of its current speed. */
  lemma LandingCondition(m: Motion)
    ensures Fall(m).position.y == FloorY && Fall(m).velocity.y == 0.0
        <== m.position.y + 2.0 * m.velocity.y >= FloorY
    ensures m.position.y + 2.0 * m.velocity.y < FloorY
        ==> Fall(m).velocity.y == m.velocity.y + Gravity
  {
  }

  /** Where the attack box of a sprite at p goes: from the body's centre line
      towards the middle of the arena, 50 below the sprite's top. */
  function AttackBoxAt(p: Point): (b: Point)
    ensures b.y == p.y + 50.0
    ensures p.x < ArenaMiddle ==> b.x == p.x + BodyWidth / 2.0
    ensures p.x >= ArenaMiddle ==> b.x + AttackWidth == p.x + BodyWidth / 2.0
  {
    if p.x < ArenaMiddle then Point(p.x + BodyWidth / 2.0, p.y + 50.0)
    else Point(p.x - AttackWidth + BodyWidth / 2.0, p.y + 50.0)
  }

  // ---------------------------------------------------------------- weapon

  /** Fighter.attack: a strike starts only when the fighter is ready. */
  function Trigger(w: Weapon, reload: int): (r: Weapon)
    ensures r != w ==> w.cooldown == 0
    ensures w.cooldown == 0 ==> r.attacking && r.cooldown == reload
  {
    if w.cooldown == 0 then Weapon(true, reload) else w
  }

  /** The cooldown part of Fighter.update: a positive cooldown counts down by
      one, and the live strike ends on the frame it reaches zero. */
  function Cool(w: Weapon): (r: Weapon)
    ensures w.cooldown > 0 ==> r.cooldown == w.cooldown - 1
    ensures w.cooldown <= 0 ==> r == w
    ensures w.cooldown >= 0 ==> r.cooldown >= 0
    ensures (w.attacking && !r.attacking) <==> (w.attacking && w.cooldown == 1)
    ensures r.attacking ==> w.attacking
  {
    if w.cooldown > 0 then
      var c := w.cooldown - 1;
      Weapon(w.attacking && c != 0, c)
    else w
  }

  /** The weapon after n frames of cooling. */
  function Cooled(w: Weapon, n: nat): Weapon
  {
    if n == 0 then w else Cool(Cooled(w, n - 1))
  }

  /** A cooldown never goes below zero: after n frames it is the old one less
      n, or zero. */
  lemma {:induction false} CooledCount(w: Weapon, n: nat)
    requires w.cooldown >= 0
    ensures Cooled(w, n).cooldown == if w.cooldown >= n then w.cooldown - n else 0
  {
    if n > 0 {
      CooledCount(w, n - 1);
    }
  }

  /** The whole cycle: a strike started with reload k > 0 stays live for k - 1
      frames, ends on the k-th, and the fighter is then ready again. */
  lemma {:induction false} AttackCycle(reload: int, n: nat)
    requires reload > 0 && n <= reload
    ensures Cooled(Trigger(Weapon(false, 0), reload), n) == Weapon(n < reload, reload - n)
  {
    if n > 0 {
      AttackCycle(reload, n - 1);
    }
  }

  // ------------------------------------------------------------- collision

  /** A closed axis-aligned rectangle. */
  datatype Rect = Rect(left: real, top: real, width: real, height: real)

  predicate Inside(p: Point, r: Rect) {
    r.left <= p.x <= r.left + r.width && r.top <= p.y <= r.top + r.height
  }

  /** Two closed rectangles with non-negative sides overlap exactly when their
      edges are not separated on either axis. */
  lemma OverlapWitness(a: Rect, b: Rect)
    requires a.width >= 0.0 && a.height >= 0.0 && b.width >= 0.0 && b.height >= 0.0
    ensures (a.left + a.width >= b.left && a.left <= b.left + b.width &&
             a.top + a.height >= b.top && a.top <= b.top + b.height)
        <==> exists p :: Inside(p, a) && Inside(p, b)
  {
    if a.left + a.width >= b.left && a.left <= b.left + b.width &&
       a.top + a.height >= b.top && a.top <= b.top + b.height {
      var x := if a.left < b.left then b.left else a.left;
      var y := if a.top < b.top then b.top else a.top;
      assert Inside(Point(x, y), a) && Inside(Point(x, y), b);
    }
  }

  // ---------------------------------------------------------------- fighter

  class Fighter {
    var position: Point
    var velocity: Point
    const maxHealth: int
    var health: int
    var isAttacking: bool
    const attackCooldown: int
    var currentCooldown: int
    var attackBox: AttackBox
    const isEnemy: bool
    var stats: Stats

    /** A zero (or absent) health, cooldown or damage in the stats falls back
        to 100, 30 and 15. */
    constructor (position: Point, velocity: Point, isEnemy: bool, stats: Stats)
      ensures this.position == position && this.velocity == velocity
      ensures maxHealth == (if stats.health != 0 then stats.health else 100) && health == maxHealth
      ensures attackCooldown == (if stats.attackCooldown != 0 then stats.attackCooldown else 30)
      ensures !isAttacking && currentCooldown == 0
      ensures attackBox == AttackBox(position, if stats.damage != 0 then stats.damage else 15)
      ensures this.isEnemy == isEnemy && this.stats == stats
    {
      this.position := position;
      this.velocity := velocity;
      maxHealth := if stats.health != 0 then stats.health else 100;
      health := if stats.health != 0 then stats.health else 100;
      isAttacking := false;
      attackCooldown := if stats.attackCooldown != 0 then stats.attackCooldown else 30;
      currentCooldown := 0;
      attackBox := AttackBox(position, if stats.damage != 0 then stats.damage else 15);
      this.isEnemy := isEnemy;
      this.stats := stats;
    }

    function MotionState(): Motion reads this { Motion(position, velocity) }

    function WeaponState(): Weapon reads this { Weapon(isAttacking, currentCooldown) }

    /** Sprite.update. */
    method SpriteUpdate()
      modifies this`position, this`velocity
      ensures MotionState() == Fall(old(MotionState()))
    {
      position := Point(position.x + velocity.x, position.y + velocity.y);
      if position.y + BodyHeight + velocity.y >= CanvasHeight - GroundHeight {
        velocity := velocity.(y := 0.0);
        position := position.(y := FloorY);
      } else {
        velocity := velocity.(y := velocity.y + Gravity);
      }
    }

    /** Fighter.update without the drawing: fall, re-anchor the attack box,
        count the cooldown down. */
    method Update()
      modifies this`position, this`velocity, this`attackBox, this`isAttacking, this`currentCooldown
      ensures MotionState() == Fall(old(MotionState()))
      ensures attackBox == AttackBox(AttackBoxAt(position), old(attackBox.damage))
      ensures WeaponState() == Cool(old(WeaponState()))
    {
      SpriteUpdate();
      if position.x < ArenaMiddle {
        attackBox := attackBox.(position := Point(position.x + BodyWidth / 2.0, attackBox.position.y));
      } else {
        attackBox := attackBox.(position := Point(position.x - AttackWidth + BodyWidth / 2.0, attackBox.position.y));
      }
      attackBox := attackBox.(position := attackBox.position.(y := position.y + 50.0));
      if currentCooldown > 0 {
        currentCooldown := currentCooldown - 1;
        if currentCooldown == 0 {
          isAttacking := false;
        }
      }
    }

    /** Fighter.attack: the reload comes from the current stats object. */
    method Attack()
      modifies this`isAttacking, this`currentCooldown
      ensures WeaponState() == Trigger(old(WeaponState()), stats.attackCooldown)
    {
      if currentCooldown == 0 {
        isAttacking := true;
        currentCooldown := stats.attackCooldown;
      }
    }
  }

  function AttackRect(f: Fighter): Rect reads f {
    Rect(f.attackBox.position.x, f.attackBox.position.y, AttackWidth, AttackHeight)
  }

  function BodyRect(f: Fighter): Rect reads f {
    Rect(f.position.x, f.position.y, BodyWidth, BodyHeight)
  }

  /** The attacker's attack box touches the target's body: some point lies in
      both closed rectangles. */
  function RectangularCollision(attacker: Fighter, target: Fighter): (hit: bool)
    reads attacker, target
    ensures hit <==> exists p :: Inside(p, AttackRect(attacker)) && Inside(p, BodyRect(target))
  {
    OverlapWitness(AttackRect(attacker), BodyRect(target));
    attacker.attackBox.position.x + AttackWidth >= target.position.x &&
    attacker.attackBox.position.x <= target.position.x + BodyWidth &&
    attacker.attackBox.position.y + AttackHeight >= target.position.y &&
    attacker.attackBox.position.y <= target.position.y + BodyHeight
  }

  /** The hit test of the frame loop: a live strike whose box touches the
      target costs the target the attack damage once and ends the strike. */
  method ResolveHit(attacker: Fighter, target: Fighter)
    requires attacker != target
    modifies attacker`isAttacking, target`health
    ensures var hit := old(attacker.isAttacking && attacker.currentCooldown > 0 && RectangularCollision(attacker, target));
      target.health == old(target.health) - (if hit then attacker.attackBox.damage else 0) &&
      attacker.isAttacking == (old(attacker.isAttacking) && !hit)
  {
    if attacker.isAttacking && attacker.currentCooldown > 0 {
      if RectangularCollision(attacker, target) {
        target.health := target.health - attacker.attackBox.damage;
        attacker.isAttacking := false;
      }
    }
  }

  // ------------------------------------------------------- computer opponent

  /** The horizontal speed the computer opponent takes towards a player
      `distance` away along x: full speed beyond the pursuit range, 0.7 of it
      down to the strike range, standing still within it. */
  function PursuitVelocity(distance: real, speed: real): (vx: real)
    ensures AbsR(distance) <= StrikeRange ==> vx == 0.0
    ensures speed >= 0.0 ==> AbsR(vx) <= speed && vx * distance >= 0.0
    ensures AbsR(distance) > PursuitRange ==> AbsR(vx) == AbsR(speed)
    ensures StrikeRange < AbsR(distance) <= PursuitRange ==> AbsR(vx) == ApproachFactor * AbsR(speed)
  {
    if AbsR(distance) > PursuitRange then (if distance < 0.0 then -speed else speed)
    else if AbsR(distance) > StrikeRange then (if distance < 0.0 then -speed * ApproachFactor else speed * ApproachFactor)
    else 0.0
  }

  /** The opponent closes in no faster when the player is nearer. */
  lemma PursuitSlowsWhenCloser(d1: real, d2: real, speed: real)
    requires speed >= 0.0 && AbsR(d1) <= AbsR(d2)
    ensures AbsR(PursuitVelocity(d1, speed)) <= AbsR(PursuitVelocity(d2, speed))
  {
  }

  /** Mirroring the player's side mirrors the opponent's move. */
  lemma PursuitIsSymmetric(d: real, speed: real)
    ensures PursuitVelocity(-d, speed) == -PursuitVelocity(d, speed)
  {
  }

  /** enemyAI: steer by PursuitVelocity, jump when the roll (the value of
      Math.random for this frame, in [0, 1)) falls under the jump chance while
      not moving vertically, and strike when within range and ready. */
  method EnemyAI(fighter: Fighter, player: Fighter, roll: real, jumpVelocity: real)
    modifies fighter`velocity, fighter`isAttacking, fighter`currentCooldown
    ensures var d := player.position.x - fighter.position.x;
      fighter.velocity.x == PursuitVelocity(d, fighter.stats.speed) &&
      fighter.WeaponState() == (if AbsR(d) <= StrikeRange && old(fighter.currentCooldown) == 0
                                then Trigger(old(fighter.WeaponState()), fighter.stats.attackCooldown)
                                else old(fighter.WeaponState()))
    ensures fighter.velocity.y == (if roll < fighter.stats.jumpChance && old(fighter.velocity.y) == 0.0
                                   then jumpVelocity else old(fighter.velocity.y))
  {
    var distance := player.position.x - fighter.position.x;
    fighter.velocity := fighter.velocity.(x := 0.0);
    if AbsR(distance) > PursuitRange {
      fighter.velocity := fighter.velocity.(x := if distance < 0.0 then -fighter.stats.speed else fighter.stats.speed);
    } else if AbsR(distance) > StrikeRange {
      fighter.velocity := fighter.velocity.(x := if distance < 0.0 then -fighter.stats.speed * ApproachFactor
                                                 else fighter.stats.speed * ApproachFactor);
    }
    if roll < fighter.stats.jumpChance && fighter.velocity.y == 0.0 {
      fighter.velocity := fighter.velocity.(y := jumpVelocity);
    }
    if AbsR(distance) <= StrikeRange && fighter.currentCooldown == 0 {
      fighter.Attack();
    }
  }

  // ------------------------------------------------------------- round end

  datatype Reason = TimeUp | PlayerDied | OpponentDied | OpponentDisconnected | SeriesEnded

  datatype Side = P1 | P2

  datatype Verdict = Draw | Defeat | Victory | NoVerdict

  datatype Score = Score(player1: nat, player2: nat)

  /** How a round ends for this side: a time-up or a double knock-out is a
      draw, otherwise the reason decides. */
  function Judge(reason: Reason, playerHealth: int, opponentHealth: int): (v: Verdict)
    ensures v == Draw <==> reason == TimeUp || (playerHealth <= 0 && opponentHealth <= 0)
    ensures v == Defeat <==> reason == PlayerDied && !(playerHealth <= 0 && opponentHealth <= 0)
    ensures v == Victory <==> reason == OpponentDied && !(playerHealth <= 0 && opponentHealth <= 0)
  {
    if reason == TimeUp || (playerHealth <= 0 && opponentHealth <= 0) then Draw
    else if reason == PlayerDied then Defeat
    else if reason == OpponentDied then Victory
    else NoVerdict
  }

  /** This side's score and the other side's. */
  function Own(s: Score, side: Side): nat { if side == P1 then s.player1 else s.player2 }
  function Rival(s: Score, side: Side): nat { if side == P1 then s.player2 else s.player1 }

  /** The score after a round: a defeat is a point for the other side, a
      victory one for this side, anything else changes nothing. */
  function Award(s: Score, side: Side, v: Verdict): (r: Score)
    ensures Own(r, side) == Own(s, side) + (if v == Victory then 1 else 0)
    ensures Rival(r, side) == Rival(s, side) + (if v == Defeat then 1 else 0)
  {
    match v
    case Defeat => if side == P1 then s.(player2 := s.player2 + 1) else s.(player1 := s.player1 + 1)
    case Victory => if side == P1 then s.(player1 := s.player1 + 1) else s.(player2 := s.player2 + 1)
    case _ => s
  }

  /** Math.ceil(n / 2) on a whole number of matches. */
  function HalfUp(n: nat): (h: nat)
    ensures n <= 2 * h <= n + 1
  {
    (n + 1) / 2
  }

  /** While no more rounds have been decided than the series has matches, at
      most one side can have reached the winning score of an odd-length
      series. */
  lemma SeriesWinnerUnique(n: nat, s: Score)
    requires n % 2 == 1 && s.player1 + s.player2 <= n
    ensures !(s.player1 >= HalfUp(n) && s.player2 >= HalfUp(n))
  {
  }

  function Other(side: Side): (o: Side)
    ensures o != side
  {
    if side == P1 then P2 else P1
  }

  /** The side of the player the series-end message names as the winner, on
      the client playing `side`. The message takes the first name slot when
      side 1 leads and the second otherwise (a tie names the second), and the
      first slot always shows this client's own name. */
  function NamedSide(s: Score, side: Side): (w: Side)
    ensures s.player1 > s.player2 ==> w == side
    ensures s.player1 <= s.player2 ==> w == Other(side)
  {
    if s.player1 > s.player2 then side else Other(side)
  }

  /** On a client playing side 1, an odd series won by reaching half the
      matches, rounded up, names exactly the side that reached it. */
  lemma SeriesWinnerNamed(n: nat, s: Score)
    requires n % 2 == 1 && s.player1 + s.player2 <= n
    requires s.player1 >= HalfUp(n) || s.player2 >= HalfUp(n)
    ensures Own(s, NamedSide(s, P1)) >= HalfUp(n) && Rival(s, NamedSide(s, P1)) < HalfUp(n)
  {
    SeriesWinnerUnique(n, s);
  }

  /** On a client playing side 2, the same message names the player who did
      not reach the winning score: the name slots follow the client, while
      the comparison follows the sides. */
  lemma SeriesLoserNamedOnSideTwo(n: nat, s: Score)
    requires n % 2 == 1 && s.player1 + s.player2 <= n
    requires s.player1 >= HalfUp(n) || s.player2 >= HalfUp(n)
    ensures Own(s, NamedSide(s, P2)) < HalfUp(n) && Rival(s, NamedSide(s, P2)) >= HalfUp(n)
  {
    SeriesWinnerUnique(n, s);
  }
}
