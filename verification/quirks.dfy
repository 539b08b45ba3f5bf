/**
  Behaviours of the game that a tidier snake game would not have, stated as
  facts about the model rather than repaired.
*/
module Quirks {

  import opened Grid
  import opened Optional
  import opened State
  import Difficulty
  import PowerUps
  import Engine
  import Invariants

  /**
    The boundary test is strict: on a board whose width is a whole number of
    cells, the column just past the last grid column is not out of bounds,
    although no food or power-up can ever be drawn there; one column further is.
  */
  lemma BoundaryIsStrict(width: int, height: int, y: int)
    requires ValidBoardSize(width, height) && width % TileSize == 0
    requires 0 <= y < Rows(height)
    ensures !Engine.OutOfBounds(Cell(Columns(width), y), width, height)
    ensures !InGrid(Cell(Columns(width), y), width, height)
    ensures Engine.OutOfBounds(Cell(Columns(width) + 1, y), width, height)
  {
  }

  /**
    The same holds for rows: on a board whose height is a whole number of
    cells, the row just past the last grid row is not out of bounds, although
    nothing can be drawn there; one row further is.
  */
  lemma BoundaryIsStrictVertically(width: int, height: int, x: int)
    requires ValidBoardSize(width, height) && height % TileSize == 0
    requires 0 <= x < Columns(width)
    ensures !Engine.OutOfBounds(Cell(x, Rows(height)), width, height)
    ensures !InGrid(Cell(x, Rows(height)), width, height)
    ensures Engine.OutOfBounds(Cell(x, Rows(height) + 1), width, height)
  {
  }

  /** A lone head that steps onto the column whose pixel coordinate equals the board width survives the tick. */
  lemma HeadOnRightEdgeSurvives(g: Game, now: int, d: Draws)
    requires ValidBoard(g) && !g.gameOver && g.boardWidth % TileSize == 0
    requires g.body == [] && !Engine.OnFood(g)
    requires g.velocityX == 1 && g.velocityY == 0
    requires g.head.x == Columns(g.boardWidth) - 1 && 0 <= g.head.y < Rows(g.boardHeight)
    ensures Engine.Move(g, now, d).head.x * TileSize == g.boardWidth
    ensures !Engine.Move(g, now, d).gameOver
  {
  }

  /** A lone head that steps onto the row whose pixel coordinate equals the board height survives the tick. */
  lemma HeadOnBottomEdgeSurvives(g: Game, now: int, d: Draws)
    requires ValidBoard(g) && !g.gameOver && g.boardHeight % TileSize == 0
    requires g.body == [] && !Engine.OnFood(g)
    requires g.velocityX == 0 && g.velocityY == 1
    requires g.head.y == Rows(g.boardHeight) - 1 && 0 <= g.head.x < Columns(g.boardWidth)
    ensures Engine.Move(g, now, d).head.y * TileSize == g.boardHeight
    ensures !Engine.Move(g, now, d).gameOver
  {
  }

  /** Food placement ignores the snake: some draw puts the food under the head. */
  lemma FoodCanLandOnSnake(g: Game)
    requires ValidBoard(g) && InGrid(g.head, g.boardWidth, g.boardHeight)
    ensures exists raw :: OnSnake(PlaceFood(g, raw).food, g.head, g.body)
  {
    var raw := RawCell(g.head.x, g.head.y);
    assert PlaceFood(g, raw).food == g.head;
  }

  /**
    The kind flag is the speed-boost flag: a spawn of the speed kind sets
    `speedBoostActive` while no effect runs.
  */
  lemma KindFlagSetAtSpawn(g: Game, now: int, d: Draws)
    requires ValidBoard(g) && !g.powerUpActive && d.speedKind
    requires PowerUps.RollHits(d)
    requires !PowerUps.Blocked(d.spawnCells, g.boardWidth, g.boardHeight, g.food, g.head, g.body)
    ensures var r := PowerUps.SpawnPowerUp(g, now, d);
      r.speedBoostActive && !r.powerUpActive && r.powerUp.Some?
  {
  }

  /**
    A spawn replaces a power-up already on the board and overwrites the kind
    flag, even the flag of an effect that is running.
  */
  lemma SpawnOverwritesPowerUp(g: Game, now: int, d: Draws)
    requires ValidBoard(g) && g.powerUp.Some? && PowerUps.RollHits(d)
    requires |d.spawnCells| > 0
    requires var c := DrawCell(d.spawnCells[0], g.boardWidth, g.boardHeight);
      PowerUps.SpawnFree(c, g.food, g.head, g.body) && c != g.powerUp.value
    ensures var r := PowerUps.SpawnPowerUp(g, now, d);
      && r.powerUp == Some(DrawCell(d.spawnCells[0], g.boardWidth, g.boardHeight))
      && r.powerUp != g.powerUp
      && r.speedBoostActive == d.speedKind
      && r.powerUpActive == g.powerUpActive
  {
    assert PowerUps.FirstFreeIndex(d.spawnCells, g.boardWidth, g.boardHeight, g.food, g.head, g.body) == Some(0);
  }

  /**
    The speed boost is inert: in every reachable state a tick in which the head
    is not on the food leaves the delay unchanged, even when it consumes a
    speed-boost power-up or ends its effect.
  */
  lemma SpeedBoostDoesNotChangeDelay(g: Game, now: int, d: Draws)
    requires Invariants.Inv(g) && !Engine.OnFood(g)
    ensures Engine.Move(g, now, d).currentDelay == g.currentDelay
  {
    Invariants.MoveKeepsInv(g, now, d);
  }

  /**
    What does halve the delay is eating food while the kind flag is set, for
    instance while a speed-kind power-up merely lies on the board.
  */
  lemma EatingUnderKindFlagHalvesDelay(g: Game, now: int, d: Draws)
    requires Invariants.Inv(g) && Engine.OnFood(g) && g.speedBoostActive
    ensures Engine.Move(g, now, d).currentDelay == Difficulty.TickDelay(g.Score() + 1, true)
    ensures Engine.Move(g, now, d).currentDelay <= Difficulty.MinDelay
  {
    Invariants.MoveKeepsInv(g, now, d);
  }

  /** The score multiplier never reaches the score: the body grows by the same amount whatever it is. */
  lemma MultiplierDoesNotAffectScore(g: Game, now: int, d: Draws, multiplier: int, active: bool)
    requires ValidBoard(g)
    ensures var h := g.(scoreMultiplier := multiplier, scoreMultiplierActive := active);
      Engine.Move(h, now, d).Score() == Engine.Move(g, now, d).Score()
      && Engine.Move(g, now, d).Score() == g.Score() + (if Engine.OnFood(g) then 1 else 0)
  {
  }

}
