/**
  The power-up lifecycle: a spawn after food is eaten (10% chance, on a cell
  that is neither the food nor the snake), consumption when the head is on it,
  expiry of the effect and despawn of an unconsumed power-up, both measured
  against a clock reading `now` in milliseconds.
*/
module PowerUps {

  import opened Grid
  import opened Optional
  import opened State
  import Speed
  import Difficulty

  /** Spawn chance in percent: a draw of `nextInt(100)` below this spawns. */
  const SpawnChancePercent: int := 10
  /** The multiplier a score-multiplier power-up sets. */
  const BoostedMultiplier: int := 2

  /** The spawn loop's exit condition: the cell is neither the food nor on the snake. */
  predicate SpawnFree(c: Cell, food: Cell, head: Cell, body: seq<Cell>)
  {
    !Collision(c, food) && !OnSnake(c, head, body)
  }

  /** No candidate among the first `n` of `cands` satisfies the exit condition. */
  predicate BlockedBefore(cands: seq<RawCell>, n: int, width: int, height: int, food: Cell, head: Cell, body: seq<Cell>)
    requires ValidBoardSize(width, height)
  {
    forall j :: 0 <= j < n && j < |cands| ==> !SpawnFree(DrawCell(cands[j], width, height), food, head, body)
  }

  /** No candidate in `cands` satisfies the exit condition. */
  predicate Blocked(cands: seq<RawCell>, width: int, height: int, food: Cell, head: Cell, body: seq<Cell>)
    requires ValidBoardSize(width, height)
  {
    BlockedBefore(cands, |cands|, width, height, food, head, body)
  }

  /**
    The spawn retry loop over a finite supply of candidates: the index of the
    first candidate that lands on a free cell, or `None` when every one is taken.
  */
  function FirstFreeIndex(cands: seq<RawCell>, width: int, height: int, food: Cell, head: Cell, body: seq<Cell>): (r: Option<nat>)
    requires ValidBoardSize(width, height)
    ensures r.Some? ==>
      && r.value < |cands|
      && SpawnFree(DrawCell(cands[r.value], width, height), food, head, body)
      && BlockedBefore(cands, r.value, width, height, food, head, body)
    ensures r.None? <==> Blocked(cands, width, height, food, head, body)
  {
    if |cands| == 0 then
      None
    else if SpawnFree(DrawCell(cands[0], width, height), food, head, body) then
      Some(0)
    else
      match FirstFreeIndex(cands[1..], width, height, food, head, body)
      case None => None
      case Some(i) => Some(i + 1)
  }

  /** The spawn roll succeeds. */
  predicate RollHits(d: Draws)
  {
    NextInt(d.spawnRoll, 100) < SpawnChancePercent
  }

  /**
    `spawnPowerUp`: on a successful roll, put a power-up on the first free
    candidate, stamp it with `now` and overwrite the kind flag with the drawn
    kind, whatever power-up or effect already exists.
  */
  function SpawnPowerUp(g: Game, now: int, d: Draws): (r: Game)
    requires ValidBoard(g)
    ensures !RollHits(d) ==> r == g
    ensures Blocked(d.spawnCells, g.boardWidth, g.boardHeight, g.food, g.head, g.body) ==> r == g
    ensures RollHits(d) && !Blocked(d.spawnCells, g.boardWidth, g.boardHeight, g.food, g.head, g.body) ==>
      && r.powerUp.Some?
      && InGrid(r.powerUp.value, g.boardWidth, g.boardHeight)
      && r.powerUp.value != g.food
      && !OnSnake(r.powerUp.value, g.head, g.body)
      && r == g.(powerUp := r.powerUp, powerUpSpawnTime := now, speedBoostActive := d.speedKind)
    ensures r == g.(powerUp := r.powerUp, powerUpSpawnTime := r.powerUpSpawnTime, speedBoostActive := r.speedBoostActive)
    ensures || r == g
            || (&& r.powerUp.Some? && InGrid(r.powerUp.value, g.boardWidth, g.boardHeight)
                && r.powerUp.value != g.food && !OnSnake(r.powerUp.value, g.head, g.body)
                && r.powerUpSpawnTime == now && r.speedBoostActive == d.speedKind)
  {
    if RollHits(d) then
      match FirstFreeIndex(d.spawnCells, g.boardWidth, g.boardHeight, g.food, g.head, g.body)
      case None => g
      case Some(i) =>
        var cell := DrawCell(d.spawnCells[i], g.boardWidth, g.boardHeight);
        g.(powerUp := Some(cell), powerUpSpawnTime := now, speedBoostActive := d.speedKind)
    else
      g
  }

  /** The head is on an unconsumed power-up while no effect runs. */
  predicate CanConsume(g: Game)
  {
    g.powerUp.Some? && !g.powerUpActive && Collision(g.head, g.powerUp.value)
  }

  /**
    Consuming a power-up: the effect starts at `now` and the cell is cleared. A
    score multiplier sets the multiplier to 2; a speed boost only asks
    `updateGameSpeed` to re-derive the delay, which the score cache usually
    turns into a no-op.
  */
  function EatPowerUp(g: Game, now: int): (r: Game)
    ensures !CanConsume(g) ==> r == g
    ensures SameSnake(g, r)
    ensures r.speedBoostActive == g.speedBoostActive && r.powerUpSpawnTime == g.powerUpSpawnTime
    ensures CanConsume(g) ==> r.powerUpActive && r.powerUp.None? && r.powerUpActivationTime == now
    ensures CanConsume(g) && !g.speedBoostActive ==>
      && r.scoreMultiplierActive && r.scoreMultiplier == BoostedMultiplier
      && r.currentDelay == g.currentDelay && r.lastScore == g.lastScore
    ensures CanConsume(g) && g.speedBoostActive ==>
      && r.scoreMultiplierActive == g.scoreMultiplierActive && r.scoreMultiplier == g.scoreMultiplier
      && r.lastScore == g.Score()
    ensures CanConsume(g) && g.speedBoostActive && g.lastScore == g.Score() ==> r.currentDelay == g.currentDelay
    ensures CanConsume(g) && g.speedBoostActive && g.lastScore != g.Score() ==>
      r.currentDelay == Difficulty.TickDelay(g.Score(), true)
  {
    if CanConsume(g) then
      var started := g.(powerUpActive := true, powerUpActivationTime := now);
      var applied :=
        if g.speedBoostActive then Speed.UpdateGameSpeed(started)
        else started.(scoreMultiplierActive := true, scoreMultiplier := BoostedMultiplier);
      applied.(powerUp := None)
    else
      g
  }

  /** An unconsumed power-up has been on the board strictly longer than the despawn time. */
  predicate Despawns(g: Game, now: int)
  {
    g.powerUp.Some? && !g.powerUpActive && now - g.powerUpSpawnTime > PowerUpDespawnTime
  }

  /** A running effect has lasted strictly longer than its duration. */
  predicate Expires(g: Game, now: int)
  {
    g.powerUpActive && now - g.powerUpActivationTime > PowerUpDuration
  }

  /**
    `updatePowerUp`: despawn a stale unconsumed power-up (clearing the kind
    flag), then end an effect that has run its course: every flag cleared, the
    multiplier back to 1, and the delay re-derived through the score cache.
  */
  function UpdatePowerUp(g: Game, now: int): (r: Game)
    ensures SameSnake(g, r)
    ensures r.powerUpSpawnTime == g.powerUpSpawnTime && r.powerUpActivationTime == g.powerUpActivationTime
    ensures Despawns(g, now) ==> r.powerUp.None? && !r.speedBoostActive
    ensures !Despawns(g, now) ==> r.powerUp == g.powerUp
    ensures Expires(g, now) ==>
      && !r.powerUpActive && !r.speedBoostActive && !r.scoreMultiplierActive
      && r.scoreMultiplier == 1 && r.lastScore == g.Score()
    ensures Expires(g, now) && g.lastScore == g.Score() ==> r.currentDelay == g.currentDelay
    ensures Expires(g, now) && g.lastScore != g.Score() ==> r.currentDelay == Difficulty.TickDelay(g.Score(), false)
    ensures !Expires(g, now) ==>
      && r.powerUpActive == g.powerUpActive && r.speedBoostActive == (g.speedBoostActive && !Despawns(g, now))
      && r.scoreMultiplierActive == g.scoreMultiplierActive && r.scoreMultiplier == g.scoreMultiplier
      && r.currentDelay == g.currentDelay && r.lastScore == g.lastScore
    ensures !Despawns(g, now) && !Expires(g, now) ==> r == g
  {
    var g1 :=
      if Despawns(g, now) then g.(powerUp := None, speedBoostActive := false)
      else g;
    if Expires(g1, now) then
      var ended := g1.(powerUpActive := false, speedBoostActive := false,
                       scoreMultiplierActive := false, scoreMultiplier := 1);
      Speed.UpdateGameSpeed(ended)
    else
      g1
  }

  /** An effect is still running exactly `PowerUpDuration` ms after activation and over one ms later. */
  lemma EffectEndsStrictlyAfterDuration(g: Game)
    requires g.powerUpActive
    ensures UpdatePowerUp(g, g.powerUpActivationTime + PowerUpDuration).powerUpActive
    ensures !UpdatePowerUp(g, g.powerUpActivationTime + PowerUpDuration + 1).powerUpActive
    ensures UpdatePowerUp(g, g.powerUpActivationTime + PowerUpDuration + 1).scoreMultiplier == 1
  {
  }

  /** An unconsumed power-up is still there `PowerUpDespawnTime` ms after spawning and gone one ms later. */
  lemma DespawnStrictlyAfterLifetime(g: Game)
    requires g.powerUp.Some? && !g.powerUpActive
    ensures UpdatePowerUp(g, g.powerUpSpawnTime + PowerUpDespawnTime).powerUp == g.powerUp
    ensures UpdatePowerUp(g, g.powerUpSpawnTime + PowerUpDespawnTime + 1).powerUp.None?
  {
  }

}
