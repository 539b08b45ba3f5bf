/**
  The session controller: construction, restart with high-score bookkeeping,
  the timer callback that runs a tick only while the game runs, and the key
  handler for pause, restart and steering.
*/
module Session {

  import opened Grid
  import opened Optional
  import opened State
  import Difficulty
  import Engine

  /** The state the constructor builds: head at (5, 5), no body, moving right, food drawn, no power-up. */
  function Init(width: int, height: int, food: RawCell): (g: Game)
    requires ValidBoardSize(width, height)
    ensures ValidBoard(g) && g.boardWidth == width && g.boardHeight == height
    ensures g.head == StartHead && g.body == [] && InGrid(g.food, width, height)
    ensures g.velocityX == 1 && g.velocityY == 0
    ensures !g.gameOver && !g.paused && g.highScore == 0
    ensures g.currentDelay == Difficulty.InitialDelay && g.lastScore == -1
    ensures g.powerUp.None? && !g.powerUpActive && !g.speedBoostActive && !g.scoreMultiplierActive
    ensures g.scoreMultiplier == 1
  {
    var unplaced := Game(width, height, StartHead, [], Cell(10, 10), 1, 0, false, false,
                         Difficulty.InitialDelay, -1, None, false, false, false, 0, 0, 1, 0);
    PlaceFood(unplaced, food)
  }

  /**
    `restart`: the high score becomes the larger of itself and the final score;
    everything else returns to its construction value, the food is redrawn, and
    only the board and the two power-up timestamps survive.
  */
  function Restart(g: Game, food: RawCell): (r: Game)
    requires ValidBoard(g)
    ensures r.highScore >= g.highScore && r.highScore >= g.Score()
    ensures r.highScore == g.highScore || r.highScore == g.Score()
    ensures r.boardWidth == g.boardWidth && r.boardHeight == g.boardHeight
    ensures r.head == StartHead && r.body == [] && InGrid(r.food, g.boardWidth, g.boardHeight)
    ensures r.velocityX == 1 && r.velocityY == 0
    ensures !r.gameOver && !r.paused
    ensures r.lastScore == -1 && r.currentDelay == Difficulty.InitialDelay
    ensures r.powerUp.None? && !r.powerUpActive && !r.speedBoostActive && !r.scoreMultiplierActive
    ensures r.scoreMultiplier == 1
    ensures r.powerUpSpawnTime == g.powerUpSpawnTime && r.powerUpActivationTime == g.powerUpActivationTime
  {
    var finalScore := g.Score();
    var best := if finalScore > g.highScore then finalScore else g.highScore;
    var reset := g.(highScore := best, head := StartHead, body := []);
    var fed := PlaceFood(reset, food);
    fed.(velocityX := 1, velocityY := 0, gameOver := false, paused := false,
         lastScore := -1, currentDelay := Difficulty.InitialDelay,
         powerUp := None, powerUpActive := false, speedBoostActive := false,
         scoreMultiplierActive := false, scoreMultiplier := 1)
  }

  /** Apart from the high score and the timestamps, a restarted game is a freshly constructed one. */
  lemma RestartIsFreshGame(g: Game, food: RawCell)
    requires ValidBoard(g)
    ensures Restart(g, food) == Init(g.boardWidth, g.boardHeight, food).(
      highScore := Restart(g, food).highScore,
      powerUpSpawnTime := g.powerUpSpawnTime,
      powerUpActivationTime := g.powerUpActivationTime)
  {
  }

  /** `actionPerformed`: the timer runs a tick only while the game is neither over nor paused. */
  function ActionPerformed(g: Game, now: int, d: Draws): (r: Game)
    requires ValidBoard(g)
    ensures g.gameOver || g.paused ==> r == g
    ensures !g.gameOver && !g.paused ==> r == Engine.Move(g, now, d)
    ensures ValidBoard(r) && r.highScore == g.highScore && r.paused == g.paused
    ensures g.gameOver ==> r.gameOver
  {
    if !g.gameOver && !g.paused then Engine.Move(g, now, d) else g
  }

  /** The keys the handler distinguishes; `Other` is every other key code. */
  datatype Key = Up | Down | Left | Right | P | R | Other

  predicate IsArrow(k: Key)
  {
    k.Up? || k.Down? || k.Left? || k.Right?
  }

  /** The unit vector an arrow key asks for; screen y grows downwards. */
  function Heading(k: Key): Cell
    requires IsArrow(k)
  {
    match k
    case Up => Cell(0, -1)
    case Down => Cell(0, 1)
    case Left => Cell(-1, 0)
    case Right => Cell(1, 0)
  }

  /**
    Steering: an arrow key sets the velocity to its heading unless that is the
    exact reverse of the current velocity. For a unit velocity, a turn is
    accepted exactly when it is not a reversal, and the velocity stays a unit
    vector.
  */
  function Steer(g: Game, key: Key): (r: Game)
    ensures r == g.(velocityX := r.velocityX, velocityY := r.velocityY)
    ensures !IsArrow(key) ==> r == g
    ensures IsUnit(g.velocityX, g.velocityY) ==> IsUnit(r.velocityX, r.velocityY)
    ensures IsUnit(g.velocityX, g.velocityY) && IsArrow(key) ==>
      if Heading(key) == Cell(-g.velocityX, -g.velocityY) then r == g
      else r.velocityX == Heading(key).x && r.velocityY == Heading(key).y
  {
    if key == Up && g.velocityY != 1 then g.(velocityX := 0, velocityY := -1)
    else if key == Down && g.velocityY != -1 then g.(velocityX := 0, velocityY := 1)
    else if key == Left && g.velocityX != 1 then g.(velocityX := -1, velocityY := 0)
    else if key == Right && g.velocityX != -1 then g.(velocityX := 1, velocityY := 0)
    else g
  }

  /**
    `keyPressed`: R restarts only a finished game; P toggles the pause only in
    an unfinished game; arrows steer only a running game; anything else is
    ignored.
  */
  function KeyPressed(g: Game, key: Key, food: RawCell): (r: Game)
    requires ValidBoard(g)
    ensures g.gameOver && key == R ==> r == Restart(g, food)
    ensures g.gameOver && key != R ==> r == g
    ensures !g.gameOver && key == P ==> r == g.(paused := !g.paused)
    ensures !g.gameOver && g.paused && key != P ==> r == g
    ensures !g.gameOver && !g.paused && key != P ==> r == Steer(g, key)
    ensures ValidBoard(r) && r.highScore >= g.highScore
  {
    if g.gameOver && key == R then
      Restart(g, food)
    else if !g.gameOver then
      if key == P then g.(paused := !g.paused)
      else if !g.paused then Steer(g, key)
      else g
    else
      g
  }

  /** Moving right and pressing left keeps moving right. */
  lemma ReverseKeyIgnored(g: Game, food: RawCell)
    requires ValidBoard(g) && !g.gameOver && !g.paused
    requires g.velocityX == 1 && g.velocityY == 0
    ensures KeyPressed(g, Left, food).velocityX == 1 && KeyPressed(g, Left, food).velocityY == 0
  {
  }

  /** Pressing P twice in an unfinished game restores the state. */
  lemma PauseTwiceRestores(g: Game, food: RawCell)
    requires ValidBoard(g) && !g.gameOver
    ensures KeyPressed(KeyPressed(g, P, food), P, food) == g
  {
  }

  /** A paused game does not move on a tick; after P resumes it, the next tick advances the head. */
  lemma PauseFreezesResumeAdvances(g: Game, now: int, d: Draws, food: RawCell)
    requires ValidBoard(g) && !g.gameOver && g.paused
    ensures ActionPerformed(g, now, d) == g
    ensures var resumed := KeyPressed(g, P, food);
      ActionPerformed(resumed, now, d).head == Cell(g.head.x + g.velocityX, g.head.y + g.velocityY)
  {
  }

  /** A restart after a score of 7 with a previous best of 3. */
  lemma RestartExample(g: Game, food: RawCell)
    requires ValidBoard(g) && g.gameOver && g.Score() == 7 && g.highScore == 3
    ensures var r := KeyPressed(g, R, food);
      r.highScore == 7 && r.Score() == 0 && !r.paused && !r.gameOver
  {
  }

}
