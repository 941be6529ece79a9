/**
 * The difficulty table of game/main.py (`create_game_for_level`): which range,
 * attempt budget and starting score a round gets, either from the level in
 * progressive mode or from the easy/medium/hard choice in fixed mode.
 */
module Levels {
  import opened Prelude
  import GameCore

  /** The arguments the source passes to the `GuessingGame` constructor; the penalty is left unset. */
  datatype LevelConfig = LevelConfig(low: int, high: int, maxAttempts: Option<int>, startingScore: int)

  function CreateGameForLevel(level: int, mode: string := "progressive", fixedChoice: string := "2"): (c: LevelConfig)
    // Every configuration admits a target once the level is at least 1.
    ensures level >= 1 ==> c.low <= c.high
    // Progressive mode: the range grows by twenty values per level, from 1..20.
    ensures mode == "progressive" ==>
      && c.low == 1 && c.high == 20 * level
      && c.startingScore == 100 + (level - 1) * 20
      && c.maxAttempts.Some? && c.maxAttempts.value >= 10
      && (level <= 10 ==> c.maxAttempts.value == 20 - level)
      && (level >= 10 ==> c.maxAttempts.value == 10)
    // Fixed mode: easy, hard, and medium for every other choice.
    ensures mode != "progressive" && fixedChoice == "1" ==> c == LevelConfig(1, 50, None, 120)
    ensures mode != "progressive" && fixedChoice == "3" ==> c == LevelConfig(1, 500, Some(15), 80)
    ensures mode != "progressive" && fixedChoice != "1" && fixedChoice != "3" ==>
      c == LevelConfig(1, 100, Some(20), 100)
  {
    if mode == "progressive" then
      var base := 20;
      var high := base * level;
      var low := 1;
      var startingScore := 100 + (level - 1) * 20;
      var maxAttempts := Max(10, 20 - level);
      LevelConfig(low, high, Some(maxAttempts), startingScore)
    else if fixedChoice == "1" then
      LevelConfig(1, 50, None, 120)
    else if fixedChoice == "3" then
      LevelConfig(1, 500, Some(15), 80)
    else
      LevelConfig(1, 100, Some(20), 100)
  }

  /**
   * Climbing a level never makes the round easier: the range and the starting
   * score grow and the attempt budget does not.
   */
  lemma ProgressionHarder(level: int, next: int)
    requires 1 <= level <= next
    ensures var c, d := CreateGameForLevel(level), CreateGameForLevel(next);
      && c.high <= d.high
      && c.startingScore <= d.startingScore
      && d.maxAttempts.value <= c.maxAttempts.value
  {
    assert 20 * level <= 20 * next;
  }

  /**
   * In progressive mode no penalty is configured, so the game resolves it from
   * the range: exactly one point per level.
   */
  lemma ProgressivePenaltyIsLevel(level: int)
    requires level >= 1
    ensures var c := CreateGameForLevel(level);
      GameCore.DefaultPenalty(c.low, c.high) == level
  {
    var c := CreateGameForLevel(level);
    assert c.high - c.low + 1 == 20 * level;
    GameCore.FloorDivision(20 * level, 20, level - 1);
  }
}
