/** The records and round arithmetic of src/types/GameState.ts. */
module State {
  import opened Basics

  /** `GameState`: the director's view of the current game. */
  datatype GameState = GameState(
    currentLevel: int,
    currentRound: int,
    baseHealth: int,
    maxBaseHealth: int,
    points: int,
    isGameOver: bool,
    isPaused: bool,
    towerCount: int,
    gameSpeed: real)   // 1 = normal, 1.5 = fast, 2 = very fast

  /** `RoundState`: the counters of the round in progress. */
  datatype RoundState = RoundState(
    enemiesSpawned: nat,
    enemiesDefeated: nat,
    enemiesReachedBase: nat,
    totalEnemies: int,
    isComplete: bool)

  /** `LevelConfig`: authored data of one level. */
  datatype LevelConfig = LevelConfig(
    id: int,
    name: string,
    spawnPoints: seq<Vec3>,
    basePosition: Vec3,
    pathNodes: seq<seq<Vec3>>)

  /** `calculateRoundEnemies`: ten enemies per round number. */
  function CalculateRoundEnemies(round: int): (n: int)
    ensures round >= 1 ==> n >= 10
  {
    round * 10
  }

  /** `calculateBaseHealth`: 100 in round 1, ten more each later round. */
  function CalculateBaseHealth(round: int): (h: int)
    ensures round >= 1 ==> h >= 100
  {
    100 + (round - 1) * 10
  }

  /** Later rounds always bring strictly more enemies. */
  lemma RoundEnemiesIncreasing(r1: int, r2: int)
    requires r1 < r2
    ensures CalculateRoundEnemies(r1) < CalculateRoundEnemies(r2)
  {
  }

  /** The enemy count of round r is ten times r; the five rounds of a level bring
      10, 20, 30, 40 and 50 enemies. */
  lemma RoundEnemiesOfALevel(r: int)
    requires 1 <= r <= 5
    ensures CalculateRoundEnemies(r) == 10 * r
    ensures 10 <= CalculateRoundEnemies(r) <= 50
  {
  }

  /** Base health starts at 100 and rises by ten per round. */
  lemma BaseHealthSteps(r: int)
    ensures CalculateBaseHealth(1) == 100
    ensures CalculateBaseHealth(r + 1) == CalculateBaseHealth(r) + 10
  {
  }

  /** `INITIAL_GAME_STATE`. */
  const InitialGameState: GameState :=
    GameState(1, 1, 100, 100, 300, false, false, 0, 1.0)

  /** The initial state starts level 1, round 1 with 300 points, no towers, normal
      speed, not over and not paused, and a full base at round 1's base health. */
  lemma InitialGameStateFacts()
    ensures var s := InitialGameState;
      && s.currentLevel == 1 && s.currentRound == 1
      && s.points == 300 && s.towerCount == 0 && s.gameSpeed == 1.0
      && !s.isGameOver && !s.isPaused
      && s.baseHealth == s.maxBaseHealth == CalculateBaseHealth(1)
  {
  }

  /** The round state `resetRoundState` installs: nothing spawned or processed yet
      and `10 * round` enemies to come. */
  function FreshRound(round: int): (rs: RoundState)
    ensures rs.enemiesSpawned == rs.enemiesDefeated == rs.enemiesReachedBase == 0
    ensures !rs.isComplete
    ensures rs.totalEnemies == CalculateRoundEnemies(round)
  {
    RoundState(0, 0, 0, CalculateRoundEnemies(round), false)
  }
}
