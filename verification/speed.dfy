/**
  `updateGameSpeed`: re-derive the timer delay from the score, but only when the
  score differs from the one the delay was last computed for.
*/
module Speed {

  import opened State
  import Difficulty

  /**
    After the call the cache holds the current score. On a cache miss the delay
    is the schedule's value for the score and the current boost flag; on a hit
    nothing changes, so a flag that changed since does not reach the delay.
  */
  function UpdateGameSpeed(g: Game): (r: Game)
    ensures r.lastScore == g.Score()
    ensures r == g.(lastScore := r.lastScore, currentDelay := r.currentDelay)
    ensures g.lastScore == g.Score() ==> r == g
    ensures g.lastScore != g.Score() ==> r.currentDelay == Difficulty.TickDelay(g.Score(), g.speedBoostActive)
  {
    var score := g.Score();
    if score != g.lastScore then
      var newDelay := Difficulty.TickDelay(score, g.speedBoostActive);
      // `setDelay` is only called when the delay differs; either way the timer ends up holding `newDelay`.
      g.(lastScore := score, currentDelay := newDelay)
    else
      g
  }

  /** A second call with no score change in between is a no-op. */
  lemma UpdateGameSpeedIdempotent(g: Game)
    ensures UpdateGameSpeed(UpdateGameSpeed(g)) == UpdateGameSpeed(g)
  {
  }

  /** Toggling the boost flag alone does not change the delay once the cache is current. */
  lemma FlagChangeIgnoredByCache(g: Game, flag: bool)
    requires g.lastScore == g.Score()
    ensures UpdateGameSpeed(g.(speedBoostActive := flag)).currentDelay == g.currentDelay
  {
  }

}
