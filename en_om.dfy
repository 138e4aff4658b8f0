/** The English duel game: the score bookkeeping and the series-end test at
    the end of a round, and the fixed stats of its computer opponent. */
module EnOm {
  import opened Fighting

  /** The computer opponent's jump in this game. */
  const JumpVelocity: real := -15.0

  /** The stats object the frame loop gives the computer opponent on every
      frame; it has no damage or health entry, and neither is read after a
      fighter is built, so both are 0 here. */
  const SoloAIStats: Stats := Stats(2.0, 0.005, 60, 0, 0)

  /** What follows a finished round. */
  datatype After = BackToMenu | SeriesOver | NextMatch

  datatype Settlement = Settlement(score: Score, after: After)

  /** The series is over: the opponent left, the server ended it, or a side
      has won half the matches, rounded up. */
  predicate SeriesOverFor(reason: Reason, s: Score, totalMatches: nat) {
    reason == OpponentDisconnected || reason == SeriesEnded ||
    s.player1 >= HalfUp(totalMatches) || s.player2 >= HalfUp(totalMatches)
  }

  /** The bookkeeping of endMatch: score the verdict, then a game against the
      computer goes back to the menu, and a multiplayer game either ends the
      series or waits for the next match. */
  function Settle(isMultiplayer: bool, side: Side, totalMatches: nat, s: Score,
                  reason: Reason, playerHealth: int, opponentHealth: int): Settlement
  {
    var score := Award(s, side, Judge(reason, playerHealth, opponentHealth));
    if !isMultiplayer then Settlement(score, BackToMenu)
    else if SeriesOverFor(reason, score, totalMatches) then Settlement(score, SeriesOver)
    else Settlement(score, NextMatch)
  }

  /** A time-up or a double knock-out leaves the score alone; otherwise a
      death is exactly one point for the survivor's side, and a disconnect or
      a server-side series end scores nothing. */
  lemma SettleScores(isMultiplayer: bool, side: Side, total: nat, s: Score,
                     reason: Reason, ph: int, oh: int)
    ensures var r := Settle(isMultiplayer, side, total, s, reason, ph, oh).score;
      (reason == TimeUp || (ph <= 0 && oh <= 0) ==> r == s) &&
      (reason == PlayerDied && !(ph <= 0 && oh <= 0) ==>
         Rival(r, side) == Rival(s, side) + 1 && Own(r, side) == Own(s, side)) &&
      (reason == OpponentDied && !(ph <= 0 && oh <= 0) ==>
         Own(r, side) == Own(s, side) + 1 && Rival(r, side) == Rival(s, side)) &&
      (reason == OpponentDisconnected || reason == SeriesEnded ==> r == s)
  {
  }

  /** In multiplayer the series is over exactly when the reason says so or the
      new score reaches the winning score; against the computer every round
      goes back to the menu. */
  lemma SeriesEndTest(isMultiplayer: bool, side: Side, total: nat, s: Score,
                      reason: Reason, ph: int, oh: int)
    ensures var st := Settle(isMultiplayer, side, total, s, reason, ph, oh);
      (!isMultiplayer ==> st.after == BackToMenu) &&
      (isMultiplayer ==> (st.after == SeriesOver <==> SeriesOverFor(reason, st.score, total)))
  {
  }

  /** The game record. */
  class Game {
    var isRunning: bool
    var isMultiplayer: bool
    var score: Score
    var totalMatches: nat
    var playerSide: Side

    constructor ()
      ensures !isRunning && !isMultiplayer && score == Score(0, 0) && totalMatches == 1 && playerSide == P1
    {
      isRunning := false;
      isMultiplayer := false;
      score := Score(0, 0);
      totalMatches := 1;
      playerSide := P1;
    }

    /** endMatch without its messages, sockets and timers. */
    method EndMatch(reason: Reason, playerHealth: int, opponentHealth: int) returns (after: After)
      modifies this`isRunning, this`score
      ensures !isRunning
      ensures Settlement(score, after)
           == Settle(isMultiplayer, playerSide, totalMatches, old(score), reason, playerHealth, opponentHealth)
    {
      isRunning := false;
      if reason == TimeUp || (playerHealth <= 0 && opponentHealth <= 0) {
      } else if reason == PlayerDied {
        if playerSide == P1 {
          score := score.(player2 := score.player2 + 1);
        } else {
          score := score.(player1 := score.player1 + 1);
        }
      } else if reason == OpponentDied {
        if playerSide == P1 {
          score := score.(player1 := score.player1 + 1);
        } else {
          score := score.(player2 := score.player2 + 1);
        }
      }
      var maxScoreNeeded := HalfUp(totalMatches);
      if !isMultiplayer {
        after := BackToMenu;
      } else if reason == OpponentDisconnected || reason == SeriesEnded ||
                score.player1 >= maxScoreNeeded || score.player2 >= maxScoreNeeded {
        after := SeriesOver;
      } else {
        after := NextMatch;
      }
    }
  }

  /** The computer opponent's frame outside multiplayer: its stats are reset
      to the fixed ones, then it moves by the shared pursuit rule. */
  method SoloAI(ai: Fighter, player: Fighter, roll: real)
    modifies ai`stats, ai`velocity, ai`isAttacking, ai`currentCooldown
    ensures ai.stats == SoloAIStats
    ensures var d := player.position.x - ai.position.x;
      ai.velocity.x == PursuitVelocity(d, 2.0) &&
      ai.WeaponState() == (if AbsR(d) <= StrikeRange && old(ai.currentCooldown) == 0
                           then Trigger(old(ai.WeaponState()), 60)
                           else old(ai.WeaponState()))
    ensures ai.velocity.y == (if roll < 0.005 && old(ai.velocity.y) == 0.0
                              then JumpVelocity else old(ai.velocity.y))
  {
    ai.stats := SoloAIStats;
    EnemyAI(ai, player, roll, JumpVelocity);
  }
}
