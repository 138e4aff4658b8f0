/** The Dutch duel game: the computer opponent's difficulty curve and the
    game record's score and level bookkeeping at the end of a round. */
module Om {
  import opened Fighting

  const InitialAISpeed: real := 3.5
  const MaxAISpeed: real := 7.0
  const InitialJumpChance: real := 0.005
  const MaxJumpChance: real := 0.03
  const BaseAttackDamage: real := 15.0
  const MaxAIAttackDamage: real := 25.0
  const AIDifficultyFactor: real := 0.05
  /** The computer opponent's jump in this game. */
  const JumpVelocity: real := -20.0

  /** Math.round: the nearest whole number, halves rounded up. */
  function Round(x: real): (n: int)
    ensures x - 0.5 < n as real <= x + 0.5
  {
    (x + 0.5).Floor
  }

  /** min(1, level * 0.05): difficulty grows with the level up to level 20. */
  function LevelFactor(level: nat): (f: real)
    ensures 0.0 <= f <= 1.0
    ensures level <= 20 ==> f == level as real / 20.0
    ensures level >= 20 ==> f == 1.0
  {
    var raw := level as real * AIDifficultyFactor;
    if 1.0 < raw then 1.0 else raw
  }

  /** calculateAIStats: every stat moves linearly from its level-0 value to
      its maximum as the level factor goes from 0 to 1. */
  function CalculateAIStats(level: nat): (s: Stats)
    ensures InitialAISpeed <= s.speed <= MaxAISpeed
    ensures InitialJumpChance <= s.jumpChance <= MaxJumpChance
    ensures 15 <= s.damage <= 25
    ensures 20 <= s.attackCooldown <= 60
    ensures s.health == 100
  {
    var f := LevelFactor(level);
    var damage := BaseAttackDamage + (MaxAIAttackDamage - BaseAttackDamage) * f;
    assert 15.0 <= damage <= 25.0;
    Stats(InitialAISpeed + (MaxAISpeed - InitialAISpeed) * f,
          InitialJumpChance + (MaxJumpChance - InitialJumpChance) * f,
          60 - (f * 40.0).Floor,
          Round(damage),
          100)
  }

  /** The whole-number stats in closed form: the damage grows by one every
      second level and the cooldown shrinks by two per level, both until
      level 20. */
  lemma AIStatsClosedForm(level: nat)
    ensures var l := if level < 20 then level else 20;
      CalculateAIStats(level).damage == 15 + (l + 1) / 2 &&
      CalculateAIStats(level).attackCooldown == 60 - 2 * l
  {
    var l := if level < 20 then level else 20;
    var f := LevelFactor(level);
    assert f * 40.0 == (2 * l) as real;
    var damage := BaseAttackDamage + (MaxAIAttackDamage - BaseAttackDamage) * f;
    assert damage + 0.5 == (31 + l) as real / 2.0;
    var k := (31 + l) / 2;
    if l % 2 == 0 {
      assert (31 + l) as real / 2.0 == k as real + 0.5;
    } else {
      assert (31 + l) as real / 2.0 == k as real;
    }
  }

  /** A higher level never gives a weaker opponent. */
  lemma AIStatsMonotone(l1: nat, l2: nat)
    requires l1 <= l2
    ensures CalculateAIStats(l1).speed <= CalculateAIStats(l2).speed
    ensures CalculateAIStats(l1).jumpChance <= CalculateAIStats(l2).jumpChance
    ensures CalculateAIStats(l1).damage <= CalculateAIStats(l2).damage
    ensures CalculateAIStats(l1).attackCooldown >= CalculateAIStats(l2).attackCooldown
  {
    AIStatsClosedForm(l1);
    AIStatsClosedForm(l2);
    var f1, f2 := LevelFactor(l1), LevelFactor(l2);
    assert f1 <= f2;
  }

  /** From level 20 on the opponent no longer improves. */
  lemma AIStatsSaturate(level: nat)
    requires level >= 20
    ensures CalculateAIStats(level) == CalculateAIStats(20)
  {
  }

  /** The Dutch game's round verdict as written, with its two extra
      time-up clauses, which the first branch already catches. */
  function RoundVerdict(reason: Reason, playerHealth: int, opponentHealth: int): (v: Verdict)
    ensures v == Judge(reason, playerHealth, opponentHealth)
  {
    if reason == TimeUp || (playerHealth <= 0 && opponentHealth <= 0) then Draw
    else if reason == PlayerDied || (reason == TimeUp && playerHealth <= opponentHealth) then Defeat
    else if reason == OpponentDied || (reason == TimeUp && playerHealth > opponentHealth) then Victory
    else NoVerdict
  }

  /** The part of the game record that a round's end changes. */
  datatype Standing = Standing(score: Score, currentLevel: int, matchesNeeded: int)

  /** The standing after a round, and whether a new match follows. */
  datatype Settlement = Settlement(standing: Standing, restart: bool)

  /** The solo game's "Game Over" test: a defeat, or running out of time
      without more health than the opponent. */
  predicate SoloLost(reason: Reason, playerHealth: int, opponentHealth: int) {
    reason == PlayerDied || (reason == TimeUp && playerHealth <= opponentHealth)
  }

  /** The series is decided: the server said so, or a side has won half the
      matches, rounded up. */
  predicate SeriesDecided(reason: Reason, s: Score, totalMatches: nat) {
    reason == SeriesEnded || s.player1 >= HalfUp(totalMatches) || s.player2 >= HalfUp(totalMatches)
  }

  /** The bookkeeping of endMatch. A draw or a victory asks for a new match.
      In a solo game a loss ends the run, and a new match after the player's
      win count has reached the matches needed first raises the level and
      the matches needed by one. Outside solo play a disconnect or a decided
      series ends the run. */
  function Settle(isSolo: bool, side: Side, totalMatches: nat, st: Standing,
                  reason: Reason, playerHealth: int, opponentHealth: int): Settlement
  {
    var v := RoundVerdict(reason, playerHealth, opponentHealth);
    var score := Award(st.score, side, v);
    var again := v == Draw || v == Victory;
    if isSolo then
      if SoloLost(reason, playerHealth, opponentHealth) then
        Settlement(st.(score := score), false)
      else if again && score.player1 >= st.matchesNeeded then
        Settlement(Standing(score, st.currentLevel + 1, st.matchesNeeded + 1), true)
      else
        Settlement(st.(score := score), again)
    else if reason == OpponentDisconnected then Settlement(st.(score := score), false)
    else if SeriesDecided(reason, score, totalMatches) then Settlement(st.(score := score), false)
    else Settlement(st.(score := score), again)
  }

  /** The score moves by the verdict alone, in every mode. */
  lemma SettleScores(isSolo: bool, side: Side, total: nat, st: Standing,
                     reason: Reason, ph: int, oh: int)
    ensures var r := Settle(isSolo, side, total, st, reason, ph, oh).standing.score;
      var v := Judge(reason, ph, oh);
      Own(r, side) == Own(st.score, side) + (if v == Victory then 1 else 0) &&
      Rival(r, side) == Rival(st.score, side) + (if v == Defeat then 1 else 0)
  {
  }

  /** Solo play starts with no wins at level 1, needing 1 win. Since the win
      count is never reset, the number needed stays one above it. */
  predicate LevelLadder(st: Standing) {
    st.score.player1 + 1 == st.matchesNeeded && st.matchesNeeded == st.currentLevel
  }

  /** For a solo player on side 1 (the side of a fresh page or of a host),
      every victory raises the level by exactly one and nothing else does;
      the ladder is kept. */
  lemma SoloEveryWinLevelsUp(total: nat, st: Standing, reason: Reason, ph: int, oh: int)
    requires LevelLadder(st)
    ensures var r := Settle(true, P1, total, st, reason, ph, oh);
      LevelLadder(r.standing) &&
      r.standing.currentLevel == st.currentLevel + (if Judge(reason, ph, oh) == Victory then 1 else 0)
  {
  }

  /** Solo play does not reset the side, so a player who last joined a match
      as side 2 plays solo on side 2. A win then scores for side 2, while the
      level test reads side 1's score, which only a defeat (ending the run)
      could raise. So while side 1 has fewer wins than needed, the level and
      the matches needed never move, and a run that goes on keeps side 1's
      score as it was. */
  lemma SoloOnSideTwoNeverLevelsUp(total: nat, st: Standing, reason: Reason, ph: int, oh: int)
    requires st.score.player1 < st.matchesNeeded
    ensures var r := Settle(true, P2, total, st, reason, ph, oh);
      r.standing.currentLevel == st.currentLevel &&
      r.standing.matchesNeeded == st.matchesNeeded &&
      (r.restart ==> r.standing.score.player1 == st.score.player1)
  {
  }

  /** A solo run goes on exactly after a draw or a victory that is not a
      time-up without a health lead, on either side. */
  lemma SoloRestart(side: Side, total: nat, st: Standing, reason: Reason, ph: int, oh: int)
    ensures var v := Judge(reason, ph, oh);
      Settle(true, side, total, st, reason, ph, oh).restart <==>
        (v == Draw || v == Victory) && !SoloLost(reason, ph, oh)
  {
  }

  /** Outside solo play the level never moves, and a new match follows only a
      draw or a victory that left the series undecided; a round lost before
      the series is decided ends this side's run as well. */
  lemma MultiplayerRestart(side: Side, total: nat, st: Standing, reason: Reason, ph: int, oh: int)
    ensures var r := Settle(false, side, total, st, reason, ph, oh);
      var v := Judge(reason, ph, oh);
      r.standing.currentLevel == st.currentLevel && r.standing.matchesNeeded == st.matchesNeeded &&
      (r.restart <==> (v == Draw || v == Victory) && reason != OpponentDisconnected &&
                      !SeriesDecided(reason, r.standing.score, total))
  {
  }

  /** The game record. */
  class Game {
    var isRunning: bool
    var isMultiplayer: bool
    var isSolo: bool
    var score: Score
    var totalMatches: nat
    var playerSide: Side
    var currentLevel: int
    var matchesNeeded: int

    constructor ()
      ensures !isRunning && !isMultiplayer && !isSolo && playerSide == P1 && totalMatches == 1
      ensures Record() == Standing(Score(0, 0), 1, 1) && LevelLadder(Record())
    {
      isRunning := false;
      isMultiplayer := false;
      isSolo := false;
      score := Score(0, 0);
      totalMatches := 1;
      playerSide := P1;
      currentLevel := 1;
      matchesNeeded := 1;
    }

    function Record(): Standing reads this {
      Standing(score, currentLevel, matchesNeeded)
    }

    /** endMatch without its messages, sockets and timers: the round stops,
        the standing moves and the result says whether a new match follows. */
    method EndMatch(reason: Reason, playerHealth: int, opponentHealth: int) returns (restartMatch: bool)
      modifies this`isRunning, this`score, this`currentLevel, this`matchesNeeded
      ensures !isRunning
      ensures Settlement(Record(), restartMatch)
           == Settle(isSolo, playerSide, totalMatches, old(Record()), reason, playerHealth, opponentHealth)
    {
      isRunning := false;
      restartMatch := false;
      var bothDown := playerHealth <= 0 && opponentHealth <= 0;
      if reason == TimeUp || bothDown {
        restartMatch := true;
      } else if reason == PlayerDied || (reason == TimeUp && playerHealth <= opponentHealth) {
        if playerSide == P1 {
          score := score.(player2 := score.player2 + 1);
        } else {
          score := score.(player1 := score.player1 + 1);
        }
      } else if reason == OpponentDied || (reason == TimeUp && playerHealth > opponentHealth) {
        if playerSide == P1 {
          score := score.(player1 := score.player1 + 1);
        } else {
          score := score.(player2 := score.player2 + 1);
        }
        restartMatch := true;
      }
      if isSolo {
        if reason == PlayerDied || (reason == TimeUp && playerHealth <= opponentHealth) {
          restartMatch := false;
        } else if restartMatch {
          if score.player1 >= matchesNeeded {
            currentLevel := currentLevel + 1;
            matchesNeeded := matchesNeeded + 1;
          }
        }
      } else if reason == OpponentDisconnected {
        restartMatch := false;
      } else if reason == SeriesEnded || score.player1 >= HalfUp(totalMatches) || score.player2 >= HalfUp(totalMatches) {
        restartMatch := false;
      }
    }
  }

  /** The solo opponent's frame in this game. */
  method SoloAI(ai: Fighter, player: Fighter, roll: real)
    modifies ai`velocity, ai`isAttacking, ai`currentCooldown
    ensures var d := player.position.x - ai.position.x;
      ai.velocity.x == PursuitVelocity(d, ai.stats.speed) &&
      ai.WeaponState() == (if AbsR(d) <= StrikeRange && old(ai.currentCooldown) == 0
                           then Trigger(old(ai.WeaponState()), ai.stats.attackCooldown)
                           else old(ai.WeaponState()))
    ensures ai.velocity.y == (if roll < ai.stats.jumpChance && old(ai.velocity.y) == 0.0
                              then JumpVelocity else old(ai.velocity.y))
  {
    EnemyAI(ai, player, roll, JumpVelocity);
  }
}
