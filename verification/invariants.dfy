/**
  What holds in every state the game can reach from construction through any
  sequence of timer ticks and key presses.
*/
module Invariants {

  import opened Grid
  import opened State
  import PowerUps
  import Engine
  import Session

  /**
    The score cache: it is either current or unset on an empty snake, and it is
    current whenever a power-up is on the board or its effect is running.
  */
  ghost predicate CacheInv(g: Game)
  {
    && (g.lastScore == g.Score() || (g.lastScore == -1 && g.Score() == 0))
    && (g.powerUp.Some? || g.powerUpActive ==> g.lastScore == g.Score())
  }

  /**
    The effect state: the multiplier is 2 exactly while a multiplier effect
    runs, the delay stays inside the schedule's range, and a power-up lies in
    the grid.
  */
  ghost predicate EffectInv(g: Game)
  {
    && g.scoreMultiplier == (if g.scoreMultiplierActive then PowerUps.BoostedMultiplier else 1)
    && (g.scoreMultiplierActive ==> g.powerUpActive)
    && 27 <= g.currentDelay <= 100  // MaxLevelDelay / 2 and InitialDelay of the schedule
    && (g.powerUp.Some? ==> InGrid(g.powerUp.value, g.boardWidth, g.boardHeight))
  }

  /** The invariant of reachable states. */
  ghost predicate Inv(g: Game)
  {
    && ValidBoard(g)
    && IsUnit(g.velocityX, g.velocityY)
    && InGrid(g.food, g.boardWidth, g.boardHeight)
    && g.highScore >= 0
    && (!g.gameOver ==> g.head !in g.body)
    && CacheInv(g)
    && EffectInv(g)
  }

  /** The constructed game satisfies the invariant. */
  lemma InitEstablishesInv(width: int, height: int, food: RawCell)
    requires ValidBoardSize(width, height)
    ensures Inv(Session.Init(width, height, food))
  {
  }

  /** The food step keeps the cache and effect invariants. */
  lemma EatFoodKeepsInv(g: Game, now: int, d: Draws)
    requires Inv(g)
    ensures var fed := Engine.EatFood(g, now, d);
      CacheInv(fed) && EffectInv(fed) && InGrid(fed.food, g.boardWidth, g.boardHeight)
      && fed.Score() == g.Score() + (if Engine.OnFood(g) then 1 else 0)
  {
  }

  /** Consuming a power-up keeps the cache and effect invariants and leaves the delay alone. */
  lemma EatPowerUpKeepsInv(g: Game, now: int)
    requires CacheInv(g) && EffectInv(g)
    ensures var r := PowerUps.EatPowerUp(g, now);
      CacheInv(r) && EffectInv(r) && r.currentDelay == g.currentDelay
  {
  }

  /** The timers keep the cache and effect invariants and leave the delay alone. */
  lemma UpdatePowerUpKeepsInv(g: Game, now: int)
    requires CacheInv(g) && EffectInv(g)
    ensures var r := PowerUps.UpdatePowerUp(g, now);
      CacheInv(r) && EffectInv(r) && r.currentDelay == g.currentDelay
  {
  }

  /**
    A tick keeps the invariant, and in a reachable state only its food step can
    change the delay: consuming a power-up and ending an effect never do.
  */
  lemma MoveKeepsInv(g: Game, now: int, d: Draws)
    requires Inv(g)
    ensures Inv(Engine.Move(g, now, d))
    ensures Engine.Move(g, now, d).currentDelay == Engine.EatFood(g, now, d).currentDelay
  {
    var fed := Engine.EatFood(g, now, d);
    EatFoodKeepsInv(g, now, d);
    var powered := PowerUps.EatPowerUp(fed, now);
    EatPowerUpKeepsInv(fed, now);
    var moved := Engine.Advance(powered);
    UpdatePowerUpKeepsInv(moved, now);
  }

  /** Restarting keeps the invariant. */
  lemma RestartKeepsInv(g: Game, food: RawCell)
    requires Inv(g)
    ensures Inv(Session.Restart(g, food))
  {
  }

  /** A key press keeps the invariant. */
  lemma KeyPressedKeepsInv(g: Game, key: Session.Key, food: RawCell)
    requires Inv(g)
    ensures Inv(Session.KeyPressed(g, key, food))
  {
    if g.gameOver && key == Session.R {
      RestartKeepsInv(g, food);
    }
  }

  /** An input to the game: a timer tick with its clock reading and draws, or a key press. */
  datatype Event = Tick(now: int, draws: Draws) | Press(key: Session.Key, food: RawCell)

  function Apply(g: Game, e: Event): (r: Game)
    requires ValidBoard(g)
    ensures ValidBoard(r) && r.highScore >= g.highScore
  {
    match e
    case Tick(now, d) => Session.ActionPerformed(g, now, d)
    case Press(key, food) => Session.KeyPressed(g, key, food)
  }

  /** The state after a sequence of events; the board never changes and the high score never drops. */
  function Run(g: Game, events: seq<Event>): (r: Game)
    requires ValidBoard(g)
    ensures ValidBoard(r)
    ensures r.boardWidth == g.boardWidth && r.boardHeight == g.boardHeight
    ensures r.highScore >= g.highScore
    decreases |events|
  {
    if |events| == 0 then g else Run(Apply(g, events[0]), events[1..])
  }

  /** Every event keeps the invariant. */
  lemma ApplyKeepsInv(g: Game, e: Event)
    requires Inv(g)
    ensures Inv(Apply(g, e))
  {
    match e
    case Tick(now, d) =>
      if !g.gameOver && !g.paused {
        MoveKeepsInv(g, now, d);
      }
    case Press(key, food) =>
      KeyPressedKeepsInv(g, key, food);
  }

  /** Every sequence of events keeps the invariant. */
  lemma {:induction false} RunKeepsInv(g: Game, events: seq<Event>)
    requires Inv(g)
    ensures Inv(Run(g, events))
    decreases |events|
  {
    if |events| > 0 {
      ApplyKeepsInv(g, events[0]);
      RunKeepsInv(Apply(g, events[0]), events[1..]);
    }
  }

  /** Every state reachable from construction satisfies the invariant; in particular it always moves along a unit vector. */
  lemma ReachableStatesSatisfyInv(width: int, height: int, food: RawCell, events: seq<Event>)
    requires ValidBoardSize(width, height)
    ensures Inv(Run(Session.Init(width, height, food), events))
    ensures IsUnit(Run(Session.Init(width, height, food), events).velocityX,
                   Run(Session.Init(width, height, food), events).velocityY)
  {
    InitEstablishesInv(width, height, food);
    RunKeepsInv(Session.Init(width, height, food), events);
  }

}
