/**
  The whole game as one immutable record: the fields of `SnakeGame` that the
  game logic reads or writes. The Swing timer is reduced to the delay it was
  last given (`currentDelay`); the clock and the random generator are not
  state but parameters of the operations that use them.
*/
module State {

  import opened Grid
  import opened Optional

  /** How long a consumed power-up's effect lasts, in milliseconds. */
  const PowerUpDuration: int := 5000
  /** How long an unconsumed power-up stays on the board, in milliseconds. */
  const PowerUpDespawnTime: int := 10000
  /** Where the head starts, at construction and after a restart. */
  const StartHead: Cell := Cell(5, 5)

  datatype Game = Game(
    boardWidth: int,
    boardHeight: int,
    head: Cell,
    /** Segment 0 is nearest the head. */
    body: seq<Cell>,
    food: Cell,
    velocityX: int,
    velocityY: int,
    gameOver: bool,
    paused: bool,
    /** The delay last handed to the game-loop timer. */
    currentDelay: int,
    /** The score `currentDelay` was last computed for; -1 when none. */
    lastScore: int,
    powerUp: Option<Cell>,
    powerUpActive: bool,
    /** Set at spawn to the kind of the power-up on the board, and kept while its effect runs. */
    speedBoostActive: bool,
    scoreMultiplierActive: bool,
    powerUpSpawnTime: int,
    powerUpActivationTime: int,
    scoreMultiplier: int,
    highScore: int)
  {
    /** The score is the body length; nothing else contributes to it. */
    function Score(): nat
    {
      |body|
    }
  }

  /** The random draws one tick may consume, in place of `java.util.Random`. */
  datatype Draws = Draws(
    /** `placeFood`'s two draws. */
    food: RawCell,
    /** The draw compared against the 10% spawn chance. */
    spawnRoll: nat,
    /** Successive candidate cells of the spawn retry loop. */
    spawnCells: seq<RawCell>,
    /** `random.nextBoolean()`: true picks the speed-boost kind. */
    speedKind: bool)

  /** A game whose board dimensions allow a cell to be drawn. */
  predicate ValidBoard(g: Game)
  {
    ValidBoardSize(g.boardWidth, g.boardHeight)
  }

  /** The four directions a snake can move in. */
  predicate IsUnit(vx: int, vy: int)
  {
    (vx == 1 && vy == 0) || (vx == -1 && vy == 0) || (vx == 0 && vy == 1) || (vx == 0 && vy == -1)
  }

  /** The parts of the state the power-up and speed logic never touch. */
  predicate SameSnake(a: Game, b: Game)
  {
    && a.boardWidth == b.boardWidth && a.boardHeight == b.boardHeight
    && a.head == b.head && a.body == b.body && a.food == b.food
    && a.velocityX == b.velocityX && a.velocityY == b.velocityY
    && a.gameOver == b.gameOver && a.paused == b.paused && a.highScore == b.highScore
  }

  /** `placeFood`: a fresh cell drawn over the whole grid, with no regard for the snake. */
  function PlaceFood(g: Game, raw: RawCell): (r: Game)
    requires ValidBoard(g)
    ensures InGrid(r.food, g.boardWidth, g.boardHeight)
    ensures r == g.(food := r.food)
  {
    g.(food := DrawCell(raw, g.boardWidth, g.boardHeight))
  }

}
