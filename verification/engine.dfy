/**
  One tick of the game (`move`): eat food, consume a power-up, shift the body,
  advance the head, detect self-collision and leaving the board, then run the
  power-up timers.
*/
module Engine {

  import opened Grid
  import opened State
  import Speed
  import PowerUps
  import Difficulty

  /** The head is on the food at the start of the tick. */
  predicate OnFood(g: Game)
  {
    Collision(g.head, g.food)
  }

  /**
    The body after the head moves: segment 0 takes the old head and every other
    segment its predecessor's place; the last segment's old place is vacated.
  */
  function ShiftBody(head: Cell, body: seq<Cell>): (r: seq<Cell>)
    ensures |r| == |body|
    ensures |body| > 0 ==> r[0] == head
    ensures forall i :: 1 <= i < |body| ==> r[i] == body[i - 1]
  {
    if |body| == 0 then [] else [head] + body[..|body| - 1]
  }

  /**
    The source's in-place shift: walk from the tail to segment 0, copying each
    predecessor's position before it is overwritten. It computes `ShiftBody`.
  */
  method ShiftBodyInPlace(head: Cell, body: seq<Cell>) returns (r: seq<Cell>)
    ensures r == ShiftBody(head, body)
  {
    r := body;
    var i := |body| - 1;
    while i >= 0
      invariant -1 <= i < |body|
      invariant |r| == |body|
      invariant forall k :: 0 <= k <= i ==> r[k] == body[k]
      invariant forall k :: i < k < |body| ==> r[k] == (if k == 0 then head else body[k - 1])
    {
      if i == 0 {
        r := r[0 := head];
      } else {
        r := r[i := r[i - 1]];
      }
      i := i - 1;
    }
  }

  /**
    The boundary test on pixel coordinates. It is strict: a head whose pixel
    coordinate equals the board width or height is still on the board.
  */
  predicate OutOfBounds(c: Cell, width: int, height: int)
  {
    c.x * TileSize < 0 || c.x * TileSize > width || c.y * TileSize < 0 || c.y * TileSize > height
  }

  /**
    Eating the food before any spawn: the body gains a segment at the food's
    cell, the food is redrawn, and the speed is re-derived for the new score.
  */
  function Grow(g: Game, d: Draws): (r: Game)
    requires ValidBoard(g)
    ensures r == g.(body := g.body + [g.food], food := r.food, lastScore := g.Score() + 1, currentDelay := r.currentDelay)
    ensures r.food == DrawCell(d.food, g.boardWidth, g.boardHeight)
    ensures g.lastScore == g.Score() + 1 ==> r.currentDelay == g.currentDelay
    ensures g.lastScore != g.Score() + 1 ==> r.currentDelay == Difficulty.TickDelay(g.Score() + 1, g.speedBoostActive)
  {
    var grown := g.(body := g.body + [g.food]);
    var fed := PlaceFood(grown, d.food);
    Speed.UpdateGameSpeed(fed)
  }

  /**
    The food step: when the head is on the food, the body gains a segment at the
    food's cell, the food is redrawn anywhere on the grid, the speed is
    re-derived for the new score, and a power-up may spawn.
  */
  function EatFood(g: Game, now: int, d: Draws): (r: Game)
    requires ValidBoard(g)
    ensures !OnFood(g) ==> r == g
    ensures OnFood(g) ==> r.body == g.body + [g.food]
    ensures OnFood(g) ==> r.food == DrawCell(d.food, g.boardWidth, g.boardHeight)
    ensures OnFood(g) ==> r.lastScore == g.Score() + 1
    ensures OnFood(g) && g.lastScore != g.Score() + 1 ==>
      r.currentDelay == Difficulty.TickDelay(g.Score() + 1, g.speedBoostActive)
    ensures OnFood(g) && g.lastScore == g.Score() + 1 ==> r.currentDelay == g.currentDelay
    ensures OnFood(g) ==>
      || (r.powerUp == g.powerUp && r.speedBoostActive == g.speedBoostActive
          && r.powerUpSpawnTime == g.powerUpSpawnTime)
      || (&& r.powerUp.Some? && InGrid(r.powerUp.value, g.boardWidth, g.boardHeight)
          && r.powerUp.value != r.food && !OnSnake(r.powerUp.value, r.head, r.body)
          && r.powerUpSpawnTime == now && r.speedBoostActive == d.speedKind)
    ensures !PowerUps.RollHits(d) ==> r.powerUp == g.powerUp && r.speedBoostActive == g.speedBoostActive
    ensures r.head == g.head && r.velocityX == g.velocityX && r.velocityY == g.velocityY
    ensures r.boardWidth == g.boardWidth && r.boardHeight == g.boardHeight
    ensures r.gameOver == g.gameOver && r.paused == g.paused && r.highScore == g.highScore
    ensures r.powerUpActive == g.powerUpActive && r.powerUpActivationTime == g.powerUpActivationTime
    ensures r.scoreMultiplier == g.scoreMultiplier && r.scoreMultiplierActive == g.scoreMultiplierActive
  {
    if OnFood(g) then PowerUps.SpawnPowerUp(Grow(g, d), now, d) else
      g
  }

  /**
    The movement step: the body follows the head, the head advances by the
    velocity, and the game ends if the new head is on the body or off the board.
    Nothing else changes.
  */
  function Advance(g: Game): (r: Game)
    ensures r == g.(head := r.head, body := r.body, gameOver := r.gameOver)
    ensures r.head == Cell(g.head.x + g.velocityX, g.head.y + g.velocityY)
    ensures r.body == ShiftBody(g.head, g.body)
    ensures r.gameOver <==> g.gameOver || r.head in r.body || OutOfBounds(r.head, g.boardWidth, g.boardHeight)
  {
    var newBody := ShiftBody(g.head, g.body);
    var newHead := Cell(g.head.x + g.velocityX, g.head.y + g.velocityY);
    var collided := exists i :: 0 <= i < |newBody| && Collision(newHead, newBody[i]);
    var outside := OutOfBounds(newHead, g.boardWidth, g.boardHeight);
    g.(head := newHead, body := newBody, gameOver := g.gameOver || collided || outside)
  }

  /**
    `move`: one tick. The new head is the old head plus the velocity; the body
    follows it and grows by one exactly when the head started on the food; the
    game is over when it already was, when the new head lands on the shifted
    body, or when it leaves the board. The score multiplier plays no part.
  */
  function Move(g: Game, now: int, d: Draws): (r: Game)
    requires ValidBoard(g)
    ensures r.head == Cell(g.head.x + g.velocityX, g.head.y + g.velocityY)
    ensures |r.body| == |g.body| + (if OnFood(g) then 1 else 0)
    ensures |r.body| > 0 ==> r.body[0] == g.head
    ensures forall i :: 1 <= i < |r.body| ==> r.body[i] == g.body[i - 1]
    ensures OnFood(g) ==> InGrid(r.food, g.boardWidth, g.boardHeight)
    ensures !OnFood(g) ==> r.food == g.food
    ensures r.gameOver <==> g.gameOver || r.head in r.body || OutOfBounds(r.head, g.boardWidth, g.boardHeight)
    ensures r.boardWidth == g.boardWidth && r.boardHeight == g.boardHeight
    ensures r.velocityX == g.velocityX && r.velocityY == g.velocityY
    ensures r.paused == g.paused && r.highScore == g.highScore
  {
    var fed := EatFood(g, now, d);
    var powered := PowerUps.EatPowerUp(fed, now);
    var moved := Advance(powered);
    var r := PowerUps.UpdatePowerUp(moved, now);
    r
  }

}
