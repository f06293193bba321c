/** The end-of-run statistics records of src/types/GameStats.ts and their empty
    constructors. The per-type records (`TowerStats`, `EnemyStats` in that file)
    are maps from the type tag to a count; they are renamed here so as not to
    clash with the stat tables of GameTypes.ts. */
module Stats {
  import opened Types

  type TowerCounts = map<TowerType, int>
  type EnemyCounts = map<EnemyType, int>

  datatype LevelStats = LevelStats(
    towersPlaced: TowerCounts,
    enemiesDefeated: EnemyCounts,
    baseHealthRemaining: int,
    pointsEarned: int,
    timeTaken: real,
    eliteEnemiesDefeated: int)

  datatype GameStats = GameStats(
    levelStats: seq<LevelStats>,
    totalTowersPlaced: TowerCounts,
    totalEnemiesDefeated: EnemyCounts,
    totalPointsEarned: int,
    totalEliteEnemiesDefeated: int)

  /** `createEmptyTowerStats`: every tower type is present, with count 0. */
  function CreateEmptyTowerStats(): (m: TowerCounts)
    ensures forall t: TowerType :: t in m && m[t] == 0
  {
    var m := map[LightTower := 0, NormalTower := 0, HeavyTower := 0];
    assert forall t: TowerType :: t in m by {
      forall t: TowerType ensures t in m {
        if t.LightTower? { } else if t.NormalTower? { } else { }
      }
    }
    m
  }

  /** `createEmptyEnemyStats`: every enemy type is present, with count 0. */
  function CreateEmptyEnemyStats(): (m: EnemyCounts)
    ensures forall t: EnemyType :: t in m && m[t] == 0
  {
    var m := map[LightEnemy := 0, NormalEnemy := 0, HeavyEnemy := 0];
    assert forall t: EnemyType :: t in m by {
      forall t: EnemyType ensures t in m {
        if t.LightEnemy? { } else if t.NormalEnemy? { } else { }
      }
    }
    m
  }

  /** `createEmptyLevelStats`: all counters zero, per-type maps all zero. */
  function CreateEmptyLevelStats(): (s: LevelStats)
    ensures forall t: TowerType :: t in s.towersPlaced && s.towersPlaced[t] == 0
    ensures forall t: EnemyType :: t in s.enemiesDefeated && s.enemiesDefeated[t] == 0
    ensures s.baseHealthRemaining == 0 && s.pointsEarned == 0
    ensures s.timeTaken == 0.0 && s.eliteEnemiesDefeated == 0
  {
    LevelStats(CreateEmptyTowerStats(), CreateEmptyEnemyStats(), 0, 0, 0.0, 0)
  }

  /** `createEmptyGameStats`: no level recorded yet and every total zero. */
  function CreateEmptyGameStats(): (s: GameStats)
    ensures s.levelStats == []
    ensures forall t: TowerType :: t in s.totalTowersPlaced && s.totalTowersPlaced[t] == 0
    ensures forall t: EnemyType :: t in s.totalEnemiesDefeated && s.totalEnemiesDefeated[t] == 0
    ensures s.totalPointsEarned == 0 && s.totalEliteEnemiesDefeated == 0
  {
    GameStats([], CreateEmptyTowerStats(), CreateEmptyEnemyStats(), 0, 0)
  }
}
