/** class `Tower` of src/entities/Tower.ts, without its mesh and laser effect.
    A tower fires at most once per `1000 / fireRate` milliseconds of wall-clock
    time, keeps its current target while that target stays alive and in range,
    and otherwise picks the nearest live enemy in range. */
module Towers {
  import opened Basics
  import opened Types
  import opened Enemies

  /** A tower's shot time and held target at one moment. */
  datatype Aim = Aim(lastFireTime: real, target: Enemy?)

  class Tower {
    const towerType: TowerType
    const stats: TowerStats
    var lastFireTime: real
    var position: Vec3
    var currentTarget: Enemy?

    /** Object invariant: the stats are the table entry of the tower's type. */
    ghost predicate Valid()
    {
      stats == TowerStatsOf(towerType)
    }

    constructor (towerType: TowerType, position: Vec3)
      ensures this.towerType == towerType && this.position == position
      ensures stats == TowerStatsOf(towerType)
      ensures lastFireTime == 0.0 && currentTarget == null
      ensures Valid()
    {
      this.towerType := towerType;
      stats := TowerStatsOf(towerType);
      this.position := position;
      lastFireTime := 0.0;
      currentTarget := null;
    }

    /** `stats.range || 10`. */
    function Range(): real
    {
      EffectiveRange(stats)
    }

    /** Squared planar distance from the tower to an enemy, ignoring height. */
    function DistanceTo(e: Enemy): real
      reads this`position, e`position
    {
      PlanarSqDist(position, e.position)
    }

    /** A point within the range on the ground plane (inclusive). */
    predicate Reaches(p: Vec3)
      reads this`position
    {
      PlanarSqDist(position, p) <= Range() * Range()
    }

    /** `isInRange(enemy)`: planar distance at most the range (inclusive). */
    predicate IsInRange(e: Enemy)
      reads this`position, e`position
    {
      Reaches(e.position)
    }

    /** An enemy the tower may pick: not defeated and in range. */
    predicate IsCandidate(e: Enemy)
      reads this`position, e
    {
      !e.IsDefeated() && IsInRange(e)
    }

    /** Position k holds a candidate at minimal distance among all candidates,
        strictly closer than every candidate before it (first wins ties). */
    ghost predicate IsFirstNearest(enemies: seq<Enemy>, k: int)
      reads this`position, enemies
    {
      && 0 <= k < |enemies|
      && IsCandidate(enemies[k])
      && (forall j :: 0 <= j < |enemies| && IsCandidate(enemies[j]) ==>
            DistanceTo(enemies[k]) <= DistanceTo(enemies[j]))
      && (forall j :: 0 <= j < k && IsCandidate(enemies[j]) ==>
            DistanceTo(enemies[k]) < DistanceTo(enemies[j]))
    }

    /** What `findTarget(enemies)` may return: null exactly when there is no
        candidate, otherwise the first nearest candidate. */
    ghost predicate IsTargetChoice(enemies: seq<Enemy>, target: Enemy?)
      reads this`position, enemies
    {
      && (target == null <==> forall j :: 0 <= j < |enemies| ==> !IsCandidate(enemies[j]))
      && (target != null ==> exists k :: IsFirstNearest(enemies, k) && enemies[k] == target)
    }

    /** `findTarget(enemies)`: a scan in list order keeping the closest candidate
        seen so far; only a strictly closer candidate replaces it. */
    method FindTarget(enemies: seq<Enemy>) returns (target: Enemy?)
      ensures IsTargetChoice(enemies, target)
      ensures target != null ==> target in enemies && IsCandidate(target)
    {
      target := null;
      var closest: real := 0.0;   // meaningful once a target is held (Infinity before)
      ghost var best: int := -1;
      var i := 0;
      while i < |enemies|
        invariant 0 <= i <= |enemies|
        invariant target == null <==> best == -1
        invariant target == null ==> forall j :: 0 <= j < i ==> !IsCandidate(enemies[j])
        invariant target != null ==> 0 <= best < i && enemies[best] == target
        invariant target != null ==> closest == DistanceTo(target) && IsCandidate(target)
        invariant target != null ==> forall j :: 0 <= j < i && IsCandidate(enemies[j]) ==>
          closest <= DistanceTo(enemies[j])
        invariant target != null ==> forall j :: 0 <= j < best && IsCandidate(enemies[j]) ==>
          closest < DistanceTo(enemies[j])
      {
        var e := enemies[i];
        if !e.IsDefeated() {
          var d := DistanceTo(e);
          if d <= Range() * Range() && (target == null || d < closest) {
            closest := d;
            target := e;
            best := i;
          }
        }
        i := i + 1;
      }
      if target != null {
        assert IsFirstNearest(enemies, best);
      }
    }

    /** The cooldown gate: at least `1000 / fireRate` milliseconds since the last
        shot. */
    predicate CooldownElapsed(now: real)
      requires Valid()
      reads this`lastFireTime
    {
      ReadyAfter(lastFireTime, now)
    }

    /** At `now`, at least `1000 / fireRate` milliseconds have passed since a
        shot at `fired`. */
    predicate ReadyAfter(fired: real, now: real)
      requires Valid()
    {
      now - fired >= 1000.0 / stats.fireRate
    }

    /** The shot time and target the tower holds now. */
    ghost function AimNow(): Aim
      reads this`lastFireTime, this`currentTarget
    {
      Aim(lastFireTime, currentTarget)
    }

    /** A held target the tower keeps: present, not defeated, still in range. */
    predicate KeepsTarget()
      reads this, currentTarget
    {
      currentTarget != null && !currentTarget.IsDefeated() && IsInRange(currentTarget)
    }

    /** `update(deltaTime, enemies)` as written. Before the cooldown has elapsed
        nothing changes and nothing is hit. Afterwards a target that is missing,
        defeated or out of range is replaced by `findTarget(enemies)`; a target
        that survives this is hit, and the shot time recorded. A kept target is
        not required to be among `enemies`. */
    method Update(now: real, enemies: seq<Enemy>) returns (hit: Enemy?)
      requires Valid()
      modifies this`currentTarget, this`lastFireTime
      ensures Valid()
      ensures !old(CooldownElapsed(now)) ==>
        hit == null && currentTarget == old(currentTarget) && lastFireTime == old(lastFireTime)
      ensures old(CooldownElapsed(now)) ==>
        && hit == currentTarget
        && (old(KeepsTarget()) ==> currentTarget == old(currentTarget))
        && (!old(KeepsTarget()) ==> IsTargetChoice(enemies, currentTarget))
        && lastFireTime == (if hit != null then now else old(lastFireTime))
      ensures hit != null ==> IsCandidate(hit) && (hit in enemies || hit == old(currentTarget))
    {
      hit := null;
      if now - lastFireTime >= 1000.0 / stats.fireRate {
        if !KeepsTarget() {
          currentTarget := FindTarget(enemies);
        }
        if currentTarget != null && IsInRange(currentTarget) {
          lastFireTime := now;
          hit := currentTarget;
        }
      }
    }

    /** What one call of the corrected update did, from the state before it:
        before the cooldown has elapsed nothing changed and nothing was hit.
        Afterwards a held target that is alive, in range and still among
        `enemies` was kept, and any other was replaced by the `findTarget`
        choice over `enemies`; the hit is the target then held, and the shot
        time is recorded exactly when there was one. */
    twostate predicate Shot(now: real, enemies: seq<Enemy>, hit: Enemy?)
      requires Valid()
      reads this
    {
      && (!old(CooldownElapsed(now)) ==>
            hit == null && currentTarget == old(currentTarget) && lastFireTime == old(lastFireTime))
      && (old(CooldownElapsed(now)) ==>
            && hit == currentTarget
            && (old(KeepsTarget()) && old(currentTarget) in enemies ==> currentTarget == old(currentTarget))
            && (!(old(KeepsTarget()) && old(currentTarget) in enemies) ==> old(IsTargetChoice(enemies, hit)))
            && lastFireTime == (if hit != null then now else old(lastFireTime)))
    }

    /** The corrected update: when the cooldown has elapsed, a held target that
        is no longer among `enemies` (it left the level's list after reaching the
        base) is dropped first, then the update proceeds as written (`Shot`).
        Every hit is then a live candidate of the list. */
    method UpdateLive(now: real, enemies: seq<Enemy>) returns (hit: Enemy?)
      requires Valid()
      modifies this`currentTarget, this`lastFireTime
      ensures Valid()
      ensures hit != null ==> hit in enemies && IsCandidate(hit)
      ensures Shot(now, enemies, hit)
    {
      if CooldownElapsed(now) && currentTarget != null && currentTarget !in enemies {
        currentTarget := null;
      }
      hit := Update(now, enemies);
    }

    /** A candidate of a turn already taken, judged from the enemies' poses
        `from` at that time and the set `down` of enemies defeated by then: an
        enemy not yet down whose position was in range. */
    ghost predicate WasCandidate(from: map<Enemy, Pose>, down: set<Enemy>, e: Enemy)
      reads this`position
    {
      e in from && e !in down && Reaches(from[e].position)
    }

    /** `IsFirstNearest` for a turn already taken, from `from` and `down`. */
    ghost predicate WasFirstNearest(enemies: seq<Enemy>, from: map<Enemy, Pose>, down: set<Enemy>, k: int)
      reads this`position
    {
      && 0 <= k < |enemies|
      && WasCandidate(from, down, enemies[k])
      && (forall j :: 0 <= j < |enemies| && WasCandidate(from, down, enemies[j]) ==>
            PlanarSqDist(position, from[enemies[k]].position) <= PlanarSqDist(position, from[enemies[j]].position))
      && (forall j :: 0 <= j < k && WasCandidate(from, down, enemies[j]) ==>
            PlanarSqDist(position, from[enemies[k]].position) < PlanarSqDist(position, from[enemies[j]].position))
    }

    /** `IsTargetChoice` for a turn already taken, from `from` and `down`. */
    ghost predicate WasTargetChoice(enemies: seq<Enemy>, from: map<Enemy, Pose>, down: set<Enemy>, target: Enemy?)
      reads this`position
    {
      && (target == null <==> forall j :: 0 <= j < |enemies| ==> !WasCandidate(from, down, enemies[j]))
      && (target != null ==> exists k :: WasFirstNearest(enemies, from, down, k) && enemies[k] == target)
    }

    /** One turn of the corrected update, recorded afterwards: `before` is the
        tower's shot time and target before the turn, `from` the enemies' poses
        and `down` the enemies already defeated then. Before the cooldown had
        elapsed nothing changed and nothing was hit. Afterwards a held target
        still in the list, not down and in range was kept, and otherwise the
        first nearest candidate was chosen, or none; the hit is the target then
        held, and the shot time is recorded exactly when there was one. */
    ghost predicate TookTurn(before: Aim, now: real, enemies: seq<Enemy>, from: map<Enemy, Pose>, down: set<Enemy>, hit: Enemy?)
      requires Valid()
      reads this`lastFireTime, this`currentTarget, this`position
    {
      var keeps := before.target != null && before.target in enemies && WasCandidate(from, down, before.target);
      && (!ReadyAfter(before.lastFireTime, now) ==> hit == null && AimNow() == before)
      && (ReadyAfter(before.lastFireTime, now) ==>
            && hit == currentTarget
            && (keeps ==> hit == before.target)
            && (!keeps ==> WasTargetChoice(enemies, from, down, hit))
            && lastFireTime == (if hit != null then now else before.lastFireTime))
    }

    /** While `from` holds the enemies' positions and `down` exactly the
        defeated ones, the candidates are the recorded candidates, a held target
        is kept exactly when the record says so, and every `findTarget` choice
        is the recorded choice. */
    lemma ChoiceRecorded(enemies: seq<Enemy>, from: map<Enemy, Pose>, down: set<Enemy>)
      requires forall e :: e in enemies ==> e in from && from[e].position == e.position && (e.isDead <==> e in down)
      ensures forall j :: 0 <= j < |enemies| ==> (IsCandidate(enemies[j]) <==> WasCandidate(from, down, enemies[j]))
      ensures KeepsTarget() && currentTarget in enemies <==>
        currentTarget != null && currentTarget in enemies && WasCandidate(from, down, currentTarget)
      ensures forall target :: IsTargetChoice(enemies, target) ==> WasTargetChoice(enemies, from, down, target)
    {
      forall target | IsTargetChoice(enemies, target)
        ensures WasTargetChoice(enemies, from, down, target)
      {
        if target != null {
          var k :| IsFirstNearest(enemies, k) && enemies[k] == target;
          assert WasFirstNearest(enemies, from, down, k);
        }
      }
    }

    /** `moveTo(newPosition)`: only the position changes. */
    method MoveTo(newPosition: Vec3)
      modifies this`position
      ensures position == newPosition
      ensures currentTarget == old(currentTarget) && lastFireTime == old(lastFireTime)
    {
      position := newPosition;
    }

    /** `getStats()`: the table entry of the tower's type. */
    function GetStats(): (s: TowerStats)
      requires Valid()
      reads this
      ensures s == TowerStatsOf(towerType) && s.towerType == towerType
    {
      stats
    }
  }

  /** With a single enemy in the list, a candidate, the choice is that enemy. */
  lemma OnlyCandidateChosen(t: Tower, e: Enemy, target: Enemy?)
    requires t.IsTargetChoice([e], target) && t.IsCandidate(e)
    ensures target == e
  {
    assert [e][0] == e;
    var k :| t.IsFirstNearest([e], k) && [e][k] == target;
  }

  /** The mover that lands exactly on the waypoint. */
  function JumpTo(from: Vec3, to: Vec3, distance: real): Vec3
  {
    to
  }

  /** The opening shot of the scenario below: a heavy tower at the origin hits
      a light enemy standing at (1,0,0), at the start of its one-waypoint path
      to (2,0,0), at 2000 ms and keeps it as its target. */
  method StaleTargetFirstHit() returns (e: Enemy, t: Tower)
    ensures fresh(e) && fresh(t) && e.Valid() && t.Valid()
    ensures t.towerType == HeavyTower && t.currentTarget == e && t.lastFireTime == 2000.0
    ensures t.position == Vec3(0.0, 0.0, 0.0)
    ensures e.position == Vec3(1.0, 0.0, 0.0) && e.path == [Vec3(2.0, 0.0, 0.0)] && e.currentPathIndex == 0
    ensures e.currentHealth == 20.0 && !e.isDead
  {
    e := new Enemy(LightEnemy, Vec3(1.0, 0.0, 0.0), [Vec3(2.0, 0.0, 0.0)], false);
    t := new Tower(HeavyTower, Vec3(0.0, 0.0, 0.0));
    assert t.Range() == 20.0 && t.DistanceTo(e) == 1.0;
    assert 1000.0 / t.stats.fireRate == 2000.0 && t.stats.damage == 10.0 && e.currentHealth == 30.0;
    assert t.IsCandidate(e) && !t.KeepsTarget() && t.CooldownElapsed(2000.0);
    var h1 := t.Update(2000.0, [e]);
    OnlyCandidateChosen(t, e, h1);
    assert h1 == e && t.currentTarget == e;
    var d1 := e.TakeDamage(t.stats.damage);
  }

  /** The first half of the scenario below: after the opening shot the enemy
      reaches the end of its path at (2,0,0), alive, with the tower still
      holding it as its target. */
  method StaleTargetSetUp() returns (e: Enemy, t: Tower, reached: bool)
    ensures fresh(e) && fresh(t) && e.Valid() && t.Valid()
    ensures reached
    ensures t.towerType == HeavyTower && t.currentTarget == e && t.lastFireTime == 2000.0
    ensures e.currentHealth == 20.0 && !e.isDead && t.DistanceTo(e) == 4.0
  {
    e, t := StaleTargetFirstHit();
    reached := e.Update(0.1, JumpTo);
    assert e.position == Vec3(2.0, 0.0, 0.0);
  }

  /** The source's tower keeps firing at an enemy that has already reached the
      base and left the level's list. After `StaleTargetSetUp` the level
      reports the enemy as having reached the base and drops it, so the list is
      empty. Two further updates against the empty list still return the enemy
      as their hit, and the second hit defeats it, so the same enemy is reported
      both as reaching the base and as defeated. A hit enemy takes damage only
      when the update returns it, as in the level. */
  method StaleTargetScenario() returns (e: Enemy, reached: bool, h2: Enemy?, h3: Enemy?, defeatedLater: bool)
    ensures reached
    ensures h2 == e && h3 == e
    ensures defeatedLater
  {
    var t;
    e, t, reached := StaleTargetSetUp();
    assert t.KeepsTarget() && 1000.0 / t.stats.fireRate == 2000.0 && t.stats.damage == 10.0;
    h2 := t.Update(4000.0, []);
    if h2 != null {
      var d2 := h2.TakeDamage(t.stats.damage);
    }
    assert e.currentHealth == 10.0 && !e.isDead && t.KeepsTarget() && t.lastFireTime == 4000.0;
    h3 := t.Update(6000.0, []);
    defeatedLater := false;
    if h3 != null {
      defeatedLater := h3.TakeDamage(t.stats.damage);
    }
  }

  /** The corrected update over the same situation: once the enemy has left the
      list, the tower that was aiming at it hits nothing. */
  method LiveTargetScenario() returns (hitAfterRemoval: Enemy?)
    ensures hitAfterRemoval == null
  {
    var e := new Enemy(LightEnemy, Vec3(1.0, 0.0, 0.0), [Vec3(2.0, 0.0, 0.0)], false);
    var t := new Tower(HeavyTower, Vec3(0.0, 0.0, 0.0));
    assert t.Range() == 20.0 && t.DistanceTo(e) == 1.0;
    var h1 := t.UpdateLive(2000.0, [e]);
    OnlyCandidateChosen(t, e, h1);
    var d1 := e.TakeDamage(t.stats.damage);
    var reached := e.Update(0.1, JumpTo);
    hitAfterRemoval := t.UpdateLive(4000.0, []);
  }
}
