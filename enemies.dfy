/** class `Enemy` of src/entities/Enemy.ts, without its mesh. An enemy walks its
    path waypoint by waypoint, and latches `isDead` the first time damage brings
    its health to zero. */
module Enemies {
  import opened Basics
  import opened Types

  /** The arrival test of `update`: closer than 0.1 to the waypoint, that is a
      squared distance below 0.01. */
  predicate Arrived(position: Vec3, waypoint: Vec3)
  {
    SqDist3(position, waypoint) < 0.01
  }

  /** The position reached by moving from `from` towards `to` over `distance`.
      The source computes `from + normalize(to - from) * distance` in floating
      point; the model leaves that vector arithmetic to the caller. */
  type Mover = (Vec3, Vec3, real) -> Vec3

  /** An enemy's position, path index and health at one moment. */
  datatype Pose = Pose(position: Vec3, pathIndex: nat, health: real)

  class Enemy {
    const stats: EnemyStats
    const path: seq<Vec3>
    var position: Vec3
    var currentHealth: real
    var currentPathIndex: nat
    var isDead: bool

    /** Object invariant: the path index never passes the end of the path, health
        is never negative, and a live enemy has health left. */
    ghost predicate Valid()
      reads this
    {
      && currentPathIndex <= |path|
      && 0.0 <= currentHealth
      && (!isDead ==> currentHealth > 0.0)
    }

    /** A new enemy stands at its start position with full health, heading for
        the first waypoint of its path. */
    constructor (enemyType: EnemyType, startPosition: Vec3, path: seq<Vec3>, isElite: bool)
      ensures stats == CreateEnemyStats(enemyType, isElite)
      ensures this.path == path && position == startPosition
      ensures currentHealth == stats.health as real
      ensures currentPathIndex == 0 && !isDead
      ensures Valid()
    {
      stats := CreateEnemyStats(enemyType, isElite);
      this.path := path;
      position := startPosition;
      currentHealth := CreateEnemyStats(enemyType, isElite).health as real;
      currentPathIndex := 0;
      isDead := false;
    }

    /** The enemy's pose now. */
    ghost function Snapshot(): Pose
      reads this`position, this`currentPathIndex, this`currentHealth
    {
      Pose(position, currentPathIndex, currentHealth)
    }

    /** `isDefeated()`. */
    predicate IsDefeated()
      reads this
    {
      isDead
    }

    /** `update(deltaTime)`: a dead enemy, or one past the end of its path, does
        nothing and reports false. Otherwise it moves `speed * deltaTime` towards
        the current waypoint, advances the path index by one when it has arrived,
        and reports true exactly when that advance reaches the end of the path. */
    method Update(deltaTime: real, move: Mover) returns (reachedEnd: bool)
      requires Valid()
      modifies this`position, this`currentPathIndex
      ensures Valid()
      ensures old(isDead) || old(currentPathIndex) >= |path| ==>
        !reachedEnd && position == old(position) && currentPathIndex == old(currentPathIndex)
      ensures !old(isDead) && old(currentPathIndex) < |path| ==>
        && position == move(old(position), path[old(currentPathIndex)], stats.speed * deltaTime)
        && currentPathIndex == old(currentPathIndex) + (if Arrived(position, path[old(currentPathIndex)]) then 1 else 0)
      ensures currentPathIndex <= old(currentPathIndex) + 1
      ensures reachedEnd <==> old(currentPathIndex) < currentPathIndex == |path|
    {
      if isDead || currentPathIndex >= |path| {
        return false;
      }
      var target := path[currentPathIndex];
      position := move(position, target, stats.speed * deltaTime);
      reachedEnd := false;
      if Arrived(position, target) {
        currentPathIndex := currentPathIndex + 1;
        if currentPathIndex >= |path| {
          reachedEnd := true;
        }
      }
    }

    /** `takeDamage(amount)`: health drops to `max(0, health - amount)`. The call
        that first leaves a live enemy without health latches `isDead` and is the
        only call ever to report true. */
    method TakeDamage(amount: real) returns (justDefeated: bool)
      requires Valid()
      modifies this`currentHealth, this`isDead
      ensures Valid()
      ensures currentHealth == Max(0.0, old(currentHealth) - amount)
      ensures justDefeated <==> !old(isDead) && currentHealth == 0.0
      ensures isDead <==> old(isDead) || justDefeated
      ensures old(isDead) ==> !justDefeated
      ensures amount >= 0.0 ==> currentHealth <= old(currentHealth)
    {
      currentHealth := Max(0.0, currentHealth - amount);
      if currentHealth <= 0.0 && !isDead {
        isDead := true;
        return true;
      }
      return false;
    }
  }
}
