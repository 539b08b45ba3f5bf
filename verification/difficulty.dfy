/**
  The difficulty and speed schedule: a level derived from the score (the body
  length) and a tick delay in milliseconds derived from the level, halved while
  the speed-boost flag is set.
*/
module Difficulty {

  /** Tick delay at level 1 (`initialDelay`). */
  const InitialDelay: int := 100
  /** Lower bound the schedule clamps the delay to. */
  const MinDelay: int := 50
  /** Highest difficulty level. */
  const MaxLevel: int := 10
  /** Body segments per level. */
  const ScorePerLevel: int := 5
  /** Milliseconds taken off the delay per level above 1. */
  const DelayPerLevel: int := 5
  /** Tick delay at the highest level, the shortest the schedule gives. */
  const MaxLevelDelay: int := InitialDelay - (MaxLevel - 1) * DelayPerLevel

  /** `calculateDifficultyLevel`: one level per five segments, starting at 1 and capped at `MaxLevel`. */
  function DifficultyLevel(score: nat): (level: int)
    ensures 1 <= level <= MaxLevel
    ensures level < MaxLevel ==> ScorePerLevel * (level - 1) <= score < ScorePerLevel * level
    ensures level == MaxLevel <==> score >= ScorePerLevel * (MaxLevel - 1)
  {
    var level := score / ScorePerLevel + 1;
    if level < MaxLevel then level else MaxLevel
  }

  /**
    The delay for a level, `max(50, 100 - (level - 1) * 5)`. On the levels
    `DifficultyLevel` produces the floor of 50 is never reached.
  */
  function LevelDelay(level: int): (delay: int)
    ensures delay >= MinDelay
    ensures 1 <= level <= MaxLevel ==> delay == InitialDelay - (level - 1) * DelayPerLevel
    ensures 1 <= level <= MaxLevel ==> MaxLevelDelay <= delay <= InitialDelay
  {
    var d := InitialDelay - (level - 1) * DelayPerLevel;
    if d > MinDelay then d else MinDelay
  }

  /** The delay `updateGameSpeed` computes for a score, halved (rounding down) when `boost` is set. */
  function TickDelay(score: nat, boost: bool): (delay: int)
    ensures !boost ==> MaxLevelDelay <= delay <= InitialDelay
    ensures boost ==> MaxLevelDelay / 2 <= delay <= InitialDelay / 2
  {
    var d := LevelDelay(DifficultyLevel(score));
    if boost then d / 2 else d
  }

  /** A longer snake is never on a lower level. */
  lemma {:induction false} LevelMonotone(a: nat, b: nat)
    requires a <= b
    ensures DifficultyLevel(a) <= DifficultyLevel(b)
  {
  }

  /** A longer snake never ticks more slowly, with or without the boost flag. */
  lemma {:induction false} DelayMonotone(a: nat, b: nat, boost: bool)
    requires a <= b
    ensures TickDelay(b, boost) <= TickDelay(a, boost)
  {
    LevelMonotone(a, b);
  }

  /** The boost halves the unboosted delay, rounding down. */
  lemma BoostHalvesDelay(score: nat)
    ensures TickDelay(score, true) == TickDelay(score, false) / 2
  {
  }

  /** Sample points of the schedule. */
  lemma ScheduleExamples()
    ensures DifficultyLevel(0) == 1 && DifficultyLevel(4) == 1 && DifficultyLevel(5) == 2
    ensures DifficultyLevel(44) == 9 && DifficultyLevel(45) == 10 && DifficultyLevel(1000) == 10
    ensures TickDelay(0, false) == 100 && TickDelay(20, false) == 80 && TickDelay(45, false) == 55
    ensures TickDelay(0, true) == 50 && TickDelay(45, true) == 27
  {
  }

}
