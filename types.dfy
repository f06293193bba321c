/** The per-type stat tables of src/types/GameTypes.ts and the elite derivation
    `createEnemyStats`. The tables are fixed configuration: functions from the
    type tag to its record. */
module Types {
  import opened Basics

  datatype TowerType = LightTower | NormalTower | HeavyTower

  datatype EnemyType = LightEnemy | NormalEnemy | HeavyEnemy

  /** `TowerStats`; `range` is optional in the source's interface. */
  datatype TowerStats = TowerStats(
    towerType: TowerType,
    fireRate: real,     // shots per second
    damage: real,
    cost: nat,
    range: Option<real>)

  /** An entry of `BASE_ENEMY_STATS`: `EnemyStats` without `isElite`. */
  datatype BaseEnemyStats = BaseEnemyStats(
    enemyType: EnemyType,
    health: nat,
    speed: real,
    pointsValue: nat)

  /** `EnemyStats` as produced by `createEnemyStats` (which always sets `isElite`). */
  datatype EnemyStats = EnemyStats(
    enemyType: EnemyType,
    health: nat,
    speed: real,
    pointsValue: nat,
    isElite: bool)

  /** `BASE_ENEMY_STATS` (exported unchanged as `ENEMY_STATS`). Every entry is
      keyed by its own type and has positive values. */
  function BaseEnemyStatsOf(t: EnemyType): (s: BaseEnemyStats)
    ensures s.enemyType == t
    ensures s.health > 0 && s.speed > 0.0 && s.pointsValue > 0
  {
    match t
    case LightEnemy => BaseEnemyStats(LightEnemy, 30, 2.0, 10)
    case NormalEnemy => BaseEnemyStats(NormalEnemy, 60, 1.5, 20)
    case HeavyEnemy => BaseEnemyStats(HeavyEnemy, 80, 1.0, 30)
  }

  /** `createEnemyStats(type, isElite)`: the base entry with health and points
      doubled for an elite; type and speed always come from the base entry. */
  function CreateEnemyStats(t: EnemyType, isElite: bool): (s: EnemyStats)
    ensures s.enemyType == t && s.isElite == isElite
    ensures s.speed == BaseEnemyStatsOf(t).speed
    ensures s.health >= BaseEnemyStatsOf(t).health > 0
    ensures s.pointsValue >= BaseEnemyStatsOf(t).pointsValue > 0
  {
    var base := BaseEnemyStatsOf(t);
    EnemyStats(
      base.enemyType,
      if isElite then base.health * 2 else base.health,
      base.speed,
      if isElite then base.pointsValue * 2 else base.pointsValue,
      isElite)
  }

  /** An elite is worth exactly twice the plain enemy of the same type in health
      and points, and moves at the same speed. */
  lemma EliteDoublesHealthAndPoints(t: EnemyType)
    ensures CreateEnemyStats(t, true).health == 2 * CreateEnemyStats(t, false).health
    ensures CreateEnemyStats(t, true).pointsValue == 2 * CreateEnemyStats(t, false).pointsValue
    ensures CreateEnemyStats(t, true).speed == CreateEnemyStats(t, false).speed
  {
  }

  /** A plain (non-elite) enemy has exactly the base table's values. */
  lemma PlainEnemyMatchesBase(t: EnemyType)
    ensures var s, b := CreateEnemyStats(t, false), BaseEnemyStatsOf(t);
      s.health == b.health && s.pointsValue == b.pointsValue && s.speed == b.speed
  {
  }

  /** `TOWER_STATS`. Every entry is keyed by its own type, every rate, damage and
      range is positive, and every entry defines its range. */
  function TowerStatsOf(t: TowerType): (s: TowerStats)
    ensures s.towerType == t
    ensures s.fireRate > 0.0 && s.damage > 0.0 && s.cost > 0
    ensures s.range.Some? && s.range.value > 0.0
  {
    match t
    case LightTower => TowerStats(LightTower, 4.0, 2.5, 50, Some(10.0))
    case NormalTower => TowerStats(NormalTower, 2.0, 5.0, 100, Some(15.0))
    case HeavyTower => TowerStats(HeavyTower, 0.5, 10.0, 150, Some(20.0))
  }

  /** Costs grow with the tower's weight: 50, 100 and 150 points. */
  lemma TowerCosts()
    ensures TowerStatsOf(LightTower).cost == 50
    ensures TowerStatsOf(NormalTower).cost == 100
    ensures TowerStatsOf(HeavyTower).cost == 150
  {
  }

  /** The range a tower uses, `stats.range || 10`: the fallback applies when the
      range is missing or zero. */
  function EffectiveRange(s: TowerStats): (r: real)
    ensures s.range.Some? && s.range.value != 0.0 ==> r == s.range.value
    ensures s.range.None? || s.range.value == 0.0 ==> r == 10.0
  {
    if s.range.Some? && s.range.value != 0.0 then s.range.value else 10.0
  }

  /** The fallback never fires for the table's towers: each uses its own range. */
  lemma RangeFallbackUnused(t: TowerType)
    ensures EffectiveRange(TowerStatsOf(t)) == TowerStatsOf(t).range.value > 0.0
  {
  }
}
