/** class `Level` of src/core/Level.ts, without its scene objects. A level owns
    the list of towers and the list of live enemies. Each update lets every
    tower act, in list order, and then moves every enemy, dropping those that
    reached the base or were defeated. The level's callbacks are returned as an
    ordered list of events for the director to apply. */
module Levels {
  import opened Basics
  import opened Types
  import opened State
  import opened Enemies
  import opened Towers

  /** `onEnemyDefeated(pointsValue)` and `onEnemyReachBase()`. */
  datatype LevelEvent = EnemyDefeated(pointsValue: nat) | EnemyReachedBase

  /** A path vertex blocks building closer than 1 to its ground point. */
  predicate NearVertex(position: Vec3, node: Vec3)
  {
    SqDist3(position, Vec3(node.x, 0.0, node.z)) < 1.0
  }

  /** Some path has a vertex, other than its last one, that blocks `position`. */
  ghost predicate Blocked(paths: seq<seq<Vec3>>, position: Vec3)
  {
    exists p, k :: 0 <= p < |paths| && 0 <= k < |paths[p]| - 1 && NearVertex(position, paths[p][k])
  }

  /** The health an enemy of `health` is left with when the towers `ts` fire
      in list order and tower `i` hits `hits[i]` (or nothing, when null): each
      hit on `e` takes off that tower's damage, and health never drops below 0. */
  ghost function Damaged(health: real, ts: seq<Tower>, hits: seq<Enemy?>, e: Enemy): real
    requires |ts| == |hits|
  {
    if ts == [] then health
    else
      var n := |ts| - 1;
      var before := Damaged(health, ts[..n], hits[..n], e);
      if hits[n] == e then Max(0.0, before - ts[n].stats.damage) else before
  }

  lemma DamagedSnoc(health: real, ts: seq<Tower>, hits: seq<Enemy?>, t: Tower, hit: Enemy?, e: Enemy)
    requires |ts| == |hits|
    ensures Damaged(health, ts + [t], hits + [hit], e) ==
      (var before := Damaged(health, ts, hits, e);
       if hit == e then Max(0.0, before - t.stats.damage) else before)
  {
    assert (ts + [t])[..|ts|] == ts;
    assert (hits + [hit])[..|hits|] == hits;
  }

  /** An enemy no tower hits keeps its health. */
  lemma {:induction false} DamagedUnhit(health: real, ts: seq<Tower>, hits: seq<Enemy?>, e: Enemy)
    requires |ts| == |hits| && e !in hits
    ensures Damaged(health, ts, hits, e) == health
  {
    if ts != [] {
      var n := |ts| - 1;
      assert hits[n] != e;
      DamagedUnhit(health, ts[..n], hits[..n], e);
    }
  }

  /** Towers with non-negative damage never heal and never leave negative
      health; an enemy with health left that is hit by a tower whose damage is at
      least that health is left with none. */
  lemma {:induction false} DamagedBounds(health: real, ts: seq<Tower>, hits: seq<Enemy?>, e: Enemy)
    requires |ts| == |hits| && health >= 0.0
    requires forall i :: 0 <= i < |ts| ==> ts[i].stats.damage >= 0.0
    ensures 0.0 <= Damaged(health, ts, hits, e) <= health
    ensures forall i :: 0 <= i < |ts| && hits[i] == e && ts[i].stats.damage >= health ==>
      Damaged(health, ts, hits, e) == 0.0
  {
    if ts != [] {
      var n := |ts| - 1;
      DamagedBounds(health, ts[..n], hits[..n], e);
      forall i | 0 <= i < |ts| && hits[i] == e && ts[i].stats.damage >= health
        ensures Damaged(health, ts, hits, e) == 0.0
      {
        if i < n {
          assert hits[..n][i] == e && ts[..n][i].stats.damage >= health;
        }
      }
    }
  }

  /** `killed` flags exactly the enemies of the list that are dead. */
  ghost predicate KilledFlags(enemies: seq<Enemy>, killed: seq<bool>)
    reads enemies
  {
    |killed| == |enemies| && forall k :: 0 <= k < |enemies| ==> (killed[k] <==> enemies[k].isDead)
  }

  /** One defeat event per flagged enemy: event `j` is for the enemy at
      position `victims[j]`, which is flagged, and carries its points; no enemy
      is reported twice. */
  ghost predicate KillsReported(enemies: seq<Enemy>, killed: seq<bool>, events: seq<LevelEvent>, victims: seq<nat>)
  {
    && |killed| == |enemies| && |events| == CountTrue(killed) && |victims| == |events|
    && (forall j :: 0 <= j < |events| ==>
          victims[j] < |enemies| && killed[victims[j]] && events[j] == EnemyDefeated(enemies[victims[j]].stats.pointsValue))
    && (forall j, k :: 0 <= j < k < |victims| ==> victims[j] != victims[k])
  }

  /** Reporting the defeat of an enemy not flagged yet keeps the report
      complete. */
  lemma KillReported(enemies: seq<Enemy>, killed: seq<bool>, events: seq<LevelEvent>, victims: seq<nat>, v: nat)
    requires KillsReported(enemies, killed, events, victims) && v < |enemies| && !killed[v]
    ensures KillsReported(enemies, killed[v := true], events + [EnemyDefeated(enemies[v].stats.pointsValue)], victims + [v])
  {
    CountTrueSet(killed, v);
  }

  /** What one `update` did, besides its events: `list` is the enemy list it
      started from, `from` the poses of those enemies and `aims` the towers'
      shot times and targets at that moment; `hits[i]` is the enemy tower `i`
      hit, or null; `down[i]` the enemies already defeated when tower `i`
      acted; `killed` flags the enemies of the list defeated in this update and
      `victims` gives, per defeat event, the enemy's position in the list;
      `reached` flags the enemies that reached the base, and `kept` those that
      stay. */
  datatype Tick = Tick(list: seq<Enemy>, from: map<Enemy, Pose>, aims: map<Tower, Aim>,
                       hits: seq<Enemy?>, down: seq<set<Enemy>>, killed: seq<bool>, victims: seq<nat>,
                       reached: seq<bool>, kept: seq<bool>)

  /** Tower `i` took its turn (`Tower.TookTurn`) from its aim in `aims`,
      against the list `list` with the poses `from` and the enemies `down[i]`
      defeated before it, and hit `hits[i]`: a listed enemy, or null. */
  ghost predicate TurnsTaken(towers: seq<Tower>, aims: map<Tower, Aim>, now: real, list: seq<Enemy>,
                             from: map<Enemy, Pose>, hits: seq<Enemy?>, down: seq<set<Enemy>>)
    reads towers
  {
    && |hits| == |towers| && |down| == |towers|
    && (forall t :: t in towers ==> t in aims && t.Valid())
    && (forall i :: 0 <= i < |towers| && hits[i] != null ==> hits[i] in list)
    && (forall i :: 0 <= i < |towers| ==> towers[i].TookTurn(aims[towers[i]], now, list, from, down[i], hits[i]))
  }

  /** Extending the record of turns by one tower. */
  lemma TurnsTakenSnoc(towers: seq<Tower>, aims: map<Tower, Aim>, now: real, list: seq<Enemy>,
                       from: map<Enemy, Pose>, hits: seq<Enemy?>, down: seq<set<Enemy>>,
                       t: Tower, hit: Enemy?, d: set<Enemy>)
    requires TurnsTaken(towers, aims, now, list, from, hits, down)
    requires t in aims && t.Valid() && (hit != null ==> hit in list)
    requires t.TookTurn(aims[t], now, list, from, d, hit)
    ensures TurnsTaken(towers + [t], aims, now, list, from, hits + [hit], down + [d])
  {
  }

  /** The towers `ts` have not acted yet: each still has its aim in `aims`. */
  ghost predicate AimsKept(ts: seq<Tower>, aims: map<Tower, Aim>)
    reads ts
  {
    forall t :: t in ts ==> t in aims && t.AimNow() == aims[t]
  }

  /** `down[i]` holds exactly the enemies of `list` that the hits of the towers
      before tower `i` left without health, starting from their health in
      `from`. */
  ghost predicate DownBefore(towers: seq<Tower>, list: seq<Enemy>, from: map<Enemy, Pose>, hits: seq<Enemy?>,
                             down: seq<set<Enemy>>)
  {
    && |hits| == |towers| && |down| == |towers|
    && (forall e :: e in list ==> e in from)
    && (forall i :: 0 <= i < |towers| ==>
          down[i] == set e | e in list && Damaged(from[e].health, towers[..i], hits[..i], e) == 0.0)
  }

  /** Extending the down sets by those the hits so far left without health. */
  lemma DownBeforeSnoc(towers: seq<Tower>, list: seq<Enemy>, from: map<Enemy, Pose>, hits: seq<Enemy?>,
                       down: seq<set<Enemy>>, t: Tower, hit: Enemy?, d: set<Enemy>)
    requires DownBefore(towers, list, from, hits, down)
    requires d == set e | e in list && Damaged(from[e].health, towers, hits, e) == 0.0
    ensures DownBefore(towers + [t], list, from, hits + [hit], down + [d])
  {
    forall k | 0 <= k <= |towers|
      ensures (towers + [t])[..k] == towers[..k] && (hits + [hit])[..k] == hits[..k]
    {
    }
  }

  /** Every enemy of `list` has the health that the hits leave it from its
      health in `from`, and is dead exactly when it has none left. */
  ghost predicate HealthAfter(towers: seq<Tower>, list: seq<Enemy>, from: map<Enemy, Pose>, hits: seq<Enemy?>)
    reads list`currentHealth, list`isDead
  {
    && |hits| == |towers|
    && (forall e :: e in list ==> e in from && e.currentHealth == Damaged(from[e].health, towers, hits, e))
    && (forall e :: e in list ==> (e.isDead <==> e.currentHealth == 0.0))
  }

  /** The second half of an update, from the list `list` with the poses
      `from`: every enemy moved (`Moved`) and left the list for exactly one
      reason, with exactly one event: it was defeated (`killed`) or it reached
      the base (`reached`); the others stay, in order (`kept`), and form
      `remaining`. The defeat events come first, one per distinct victim, then
      the arrivals. */
  ghost predicate Advanced(list: seq<Enemy>, from: map<Enemy, Pose>, deltaTime: real, move: Mover,
                           remaining: seq<Enemy>, events: seq<LevelEvent>, killed: seq<bool>, victims: seq<nat>,
                           reached: seq<bool>, kept: seq<bool>)
    reads list
  {
    && (forall e :: e in list ==> e in from)
    && KilledFlags(list, killed)
    && |reached| == |list| && |kept| == |list|
    && remaining == Select(list, kept)
    && (forall i :: 0 <= i < |list| ==>
          Moved(list[i], from[list[i]].position, from[list[i]].pathIndex, deltaTime, move, reached[i], kept[i]))
    && (forall i :: 0 <= i < |list| ==> !(killed[i] && reached[i]))
    && (forall i :: 0 <= i < |list| ==> (kept[i] <==> !killed[i] && !reached[i]))
    && |remaining| + CountTrue(killed) + CountTrue(reached) == |list|
    && |events| == CountTrue(killed) + CountTrue(reached) && |victims| <= |events|
    && KillsReported(list, killed, events[..|victims|], victims)
    && (forall j :: |victims| <= j < |events| ==> events[j] == EnemyReachedBase)
  }

  /** The arrival events appended after the reported defeats: every enemy is
      counted once, by the defeat report, by an arrival, or among those kept,
      and the events after the defeats are all arrivals. */
  lemma ArrivalsAfterDefeats(list: seq<Enemy>, killed: seq<bool>, defeats: seq<LevelEvent>, victims: seq<nat>,
                             arrivals: seq<LevelEvent>, reached: seq<bool>, kept: seq<bool>)
    requires KillsReported(list, killed, defeats, victims)
    requires |reached| == |list| && |kept| == |list|
    requires forall i :: 0 <= i < |list| ==> !(killed[i] && reached[i])
    requires forall i :: 0 <= i < |list| ==> (kept[i] <==> !killed[i] && !reached[i])
    requires |arrivals| == CountTrue(reached) && forall ev :: ev in arrivals ==> ev == EnemyReachedBase
    ensures CountTrue(kept) + CountTrue(killed) + CountTrue(reached) == |list|
    ensures |defeats + arrivals| == CountTrue(killed) + CountTrue(reached) && |victims| <= |defeats + arrivals|
    ensures KillsReported(list, killed, (defeats + arrivals)[..|victims|], victims)
    ensures forall j :: |victims| <= j < |defeats + arrivals| ==> (defeats + arrivals)[j] == EnemyReachedBase
  {
    assert (defeats + arrivals)[..|victims|] == defeats;
    forall j | |victims| <= j < |defeats + arrivals|
      ensures (defeats + arrivals)[j] == EnemyReachedBase
    {
      assert (defeats + arrivals)[j] == arrivals[j - |defeats|] && arrivals[j - |defeats|] in arrivals;
    }
    CountTruePartition(killed, reached, kept);
  }

  class Level {
    const config: LevelConfig
    var towers: seq<Tower>
    var enemies: seq<Enemy>
    var selectedTower: Tower?

    /** Every tower and enemy keeps its own invariant, and no tower or enemy
        is listed twice. */
    ghost predicate EntitiesValid()
      reads this, towers, enemies
    {
      && (forall t :: t in towers ==> t.Valid())
      && (forall e :: e in enemies ==> e.Valid())
      && Distinct(towers)
      && Distinct(enemies)
    }

    /** Between updates, the enemy list holds only enemies still alive. */
    ghost predicate Valid()
      reads this, towers, enemies
    {
      EntitiesValid() && forall e :: e in enemies ==> !e.isDead
    }

    /** The poses of the listed enemies now. */
    ghost function Poses(): map<Enemy, Pose>
      reads this`enemies, enemies`position, enemies`currentPathIndex, enemies`currentHealth
    {
      map e | e in enemies :: e.Snapshot()
    }

    /** The shot times and targets of the listed towers now. */
    ghost function Aims(): map<Tower, Aim>
      reads this`towers, towers`lastFireTime, towers`currentTarget
    {
      map t | t in towers :: t.AimNow()
    }

    constructor (config: LevelConfig)
      ensures this.config == config
      ensures towers == [] && enemies == [] && selectedTower == null
      ensures Valid()
    {
      this.config := config;
      towers := [];
      enemies := [];
      selectedTower := null;
    }

    /** `addTower(tower)`: appended at the end of the tower list. */
    method AddTower(tower: Tower)
      modifies this`towers
      ensures towers == old(towers) + [tower]
      ensures old(Valid()) && tower.Valid() && tower !in old(towers) ==> Valid()
    {
      towers := towers + [tower];
    }

    /** `addEnemy(enemy)`: appended at the end of the enemy list. */
    method AddEnemy(enemy: Enemy)
      modifies this`enemies
      ensures enemies == old(enemies) + [enemy]
      ensures old(Valid()) && enemy.Valid() && !enemy.isDead && enemy !in old(enemies) ==> Valid()
    {
      enemies := enemies + [enemy];
    }

    /** The tower's update against the enemy list (`Tower.UpdateLive`),
        recorded (`Tower.TookTurn`) against the poses `from` and the enemies
        `down` defeated before it, after the turns of the towers `done`. Of the
        towers `rest` still to act this tower is the first, and the others keep
        their aims. */
    method TakeAim(tower: Tower, now: real, ghost from: map<Enemy, Pose>, ghost aims: map<Tower, Aim>,
                   ghost done: seq<Tower>, ghost rest: seq<Tower>, ghost hitsBefore: seq<Enemy?>,
                   ghost downs: seq<set<Enemy>>)
      returns (hit: Enemy?, ghost down: set<Enemy>)
      requires tower.Valid() && rest != [] && rest[0] == tower && tower !in done && tower !in rest[1..]
      requires forall e :: e in enemies ==> e in from && from[e].position == e.position
      requires TurnsTaken(done, aims, now, enemies, from, hitsBefore, downs)
      requires AimsKept(rest, aims)
      requires DownBefore(done, enemies, from, hitsBefore, downs)
      requires HealthAfter(done, enemies, from, hitsBefore)
      modifies tower`currentTarget, tower`lastFireTime
      ensures down == set e | e in enemies && e.isDead
      ensures hit != null ==> hit in enemies && tower.IsCandidate(hit)
      ensures tower.Shot(now, enemies, hit)
      ensures TurnsTaken(done + [tower], aims, now, enemies, from, hitsBefore + [hit], downs + [down])
      ensures AimsKept(rest[1..], aims)
      ensures DownBefore(done + [tower], enemies, from, hitsBefore + [hit], downs + [down])
    {
      down := set e | e in enemies && e.isDead;
      tower.ChoiceRecorded(enemies, from, down);
      hit := tower.UpdateLive(now, enemies);
      TurnsTakenSnoc(done, aims, now, enemies, from, hitsBefore, downs, tower, hit, down);
      DownBeforeSnoc(done, enemies, from, hitsBefore, downs, tower, hit, down);
    }

    /** The damage half of a tower's turn: when the tower hits an enemy, that
        enemy's health drops by the tower's damage, never below 0, and no other
        enemy changes. An enemy is dead afterwards exactly when it was before or
        has no health left, and the strike yields an event exactly when it
        defeats the enemy, which was alive before. The health record of the
        towers `done` that struck before (`HealthAfter`) is extended by this
        strike. */
    method Strike(tower: Tower, hit: Enemy?, ghost killed: seq<bool>, ghost from: map<Enemy, Pose>,
                  ghost done: seq<Tower>, ghost hitsBefore: seq<Enemy?>)
      returns (event: Option<LevelEvent>, ghost killedAfter: seq<bool>, ghost victim: nat)
      requires tower.Valid() && EntitiesValid()
      requires hit != null ==> hit in enemies
      requires KilledFlags(enemies, killed)
      requires HealthAfter(done, enemies, from, hitsBefore)
      modifies enemies`currentHealth, enemies`isDead
      ensures EntitiesValid()
      ensures hit != null ==> hit.currentHealth == Max(0.0, old(hit.currentHealth) - tower.stats.damage)
      ensures forall e :: e in enemies && e != hit ==> e.currentHealth == old(e.currentHealth) && e.isDead == old(e.isDead)
      ensures forall e :: e in enemies ==>
        e.currentHealth <= old(e.currentHealth) && (e.isDead <==> old(e.isDead) || e.currentHealth == 0.0)
      ensures HealthAfter(done + [tower], enemies, from, hitsBefore + [hit])
      ensures KilledFlags(enemies, killedAfter)
      ensures event.None? ==> killedAfter == killed
      ensures event.Some? ==>
        && hit != null && victim < |enemies| && enemies[victim] == hit
        && !killed[victim] && killedAfter == killed[victim := true]
        && event.value == EnemyDefeated(hit.stats.pointsValue)
    {
      event, killedAfter, victim := None, killed, 0;
      if hit != null {
        victim := IndexOf(enemies, hit);
        var defeated := hit.TakeDamage(tower.GetStats().damage);
        if defeated {
          killedAfter := killed[victim := true];
          event := Some(EnemyDefeated(hit.stats.pointsValue));
        }
      }
      forall e | e in enemies
        ensures e.currentHealth == Damaged(from[e].health, done + [tower], hitsBefore + [hit], e)
      {
        DamagedSnoc(from[e].health, done, hitsBefore, tower, hit, e);
      }
    }

    /** One tower's turn in `update`: the tower updates against the enemy list
        (`TakeAim`) and, when it hits an enemy, that enemy's health drops by the
        tower's damage, never below 0; no other enemy changes. An enemy is dead
        afterwards exactly when it was before or has no health left, and the
        turn yields an event exactly when the hit defeats the enemy, which was
        alive before. The record of the towers `done` that acted before it
        (`TurnsTaken`, `DownBefore`, `HealthAfter`) is extended by this turn:
        its aim, the enemies `down` defeated before it, and its hit. */
    method TowerTurn(tower: Tower, now: real, ghost killed: seq<bool>, ghost from: map<Enemy, Pose>,
                     ghost aims: map<Tower, Aim>, ghost done: seq<Tower>, ghost rest: seq<Tower>,
                     ghost hitsBefore: seq<Enemy?>, ghost downs: seq<set<Enemy>>)
      returns (hit: Enemy?, event: Option<LevelEvent>, ghost down: set<Enemy>, ghost killedAfter: seq<bool>,
               ghost victim: nat)
      requires tower in towers && EntitiesValid()
      requires rest != [] && rest[0] == tower && tower !in done && tower !in rest[1..]
      requires KilledFlags(enemies, killed)
      requires forall e :: e in enemies ==> e in from && from[e].position == e.position
      requires TurnsTaken(done, aims, now, enemies, from, hitsBefore, downs)
      requires AimsKept(rest, aims)
      requires DownBefore(done, enemies, from, hitsBefore, downs)
      requires HealthAfter(done, enemies, from, hitsBefore)
      modifies tower`currentTarget, tower`lastFireTime, enemies`currentHealth, enemies`isDead
      ensures EntitiesValid()
      ensures hit != null ==> hit in enemies && hit.currentHealth == Max(0.0, old(hit.currentHealth) - tower.stats.damage)
      ensures tower.Shot(now, enemies, hit)
      ensures forall e :: e in enemies && e != hit ==> e.currentHealth == old(e.currentHealth) && e.isDead == old(e.isDead)
      ensures forall e :: e in enemies ==>
        e.currentHealth <= old(e.currentHealth) && (e.isDead <==> old(e.isDead) || e.currentHealth == 0.0)
      ensures forall e :: e in enemies ==> e in from && from[e].position == e.position
      ensures TurnsTaken(done + [tower], aims, now, enemies, from, hitsBefore + [hit], downs + [down])
      ensures AimsKept(rest[1..], aims)
      ensures DownBefore(done + [tower], enemies, from, hitsBefore + [hit], downs + [down])
      ensures HealthAfter(done + [tower], enemies, from, hitsBefore + [hit])
      ensures KilledFlags(enemies, killedAfter)
      ensures event.None? ==> killedAfter == killed
      ensures event.Some? ==>
        && hit != null && victim < |enemies| && enemies[victim] == hit
        && !killed[victim] && killedAfter == killed[victim := true]
        && event.value == EnemyDefeated(hit.stats.pointsValue)
    {
      hit, down := TakeAim(tower, now, from, aims, done, rest, hitsBefore, downs);
      event, killedAfter, victim := Strike(tower, hit, killed, from, done, hitsBefore);
    }

    /** The first half of `update`: every tower, in list order, takes its turn
        (`TowerTurn`). Tower `i`'s turn is recorded against the poses and aims
        before the update and the enemies `down[i]` defeated by the towers
        before it (`TurnsTaken`), which are exactly those the hits of those
        towers left without health (`DownBefore`). The enemy tower `i` hits,
        `hits[i]`, takes that tower's damage, so each enemy ends with the health
        `Damaged` computes, and it is dead exactly when it has none left
        (`HealthAfter`). A defeat is reported exactly when `takeDamage` reports
        a fresh kill, so `killed` flags the enemies defeated in this phase and
        there is one event for each of them, for distinct victims, in the order
        of the kills. Enemies do not move in this phase. */
    method ApplyTowerHits(now: real)
      returns (events: seq<LevelEvent>, ghost hits: seq<Enemy?>, ghost down: seq<set<Enemy>>,
               ghost killed: seq<bool>, ghost victims: seq<nat>)
      requires Valid()
      modifies towers`currentTarget, towers`lastFireTime, enemies`currentHealth, enemies`isDead
      ensures EntitiesValid()
      ensures TurnsTaken(towers, old(Aims()), now, enemies, old(Poses()), hits, down)
      ensures DownBefore(towers, enemies, old(Poses()), hits, down)
      ensures HealthAfter(towers, enemies, old(Poses()), hits)
      ensures KilledFlags(enemies, killed)
      ensures KillsReported(enemies, killed, events, victims)
      ensures forall e :: e in enemies ==>
        e.position == old(e.position) && e.currentPathIndex == old(e.currentPathIndex)
    {
      events := [];
      hits := [];
      down := [];
      killed := seq(|enemies|, _ => false);
      CountTrueAllFalse(|enemies|);
      victims := [];
      ghost var from, aims := Poses(), Aims();
      assert towers[0..] == towers;
      var i := 0;
      while i < |towers|
        invariant 0 <= i <= |towers|
        invariant EntitiesValid()
        invariant forall e :: e in enemies ==> e in from && from[e].position == e.position
        invariant TurnsTaken(towers[..i], aims, now, enemies, from, hits, down)
        invariant AimsKept(towers[i..], aims)
        invariant DownBefore(towers[..i], enemies, from, hits, down)
        invariant HealthAfter(towers[..i], enemies, from, hits)
        invariant KilledFlags(enemies, killed)
        invariant KillsReported(enemies, killed, events, victims)
      {
        var hit, event;
        ghost var downNow, victim;
        ghost var before := killed;
        DistinctAt(towers, i);
        SliceStep(towers, i);
        hit, event, downNow, killed, victim :=
          TowerTurn(towers[i], now, killed, from, aims, towers[..i], towers[i..], hits, down);
        if event.Some? {
          KillReported(enemies, before, events, victims, victim);
          events := events + [event.value];
          victims := victims + [victim];
        }
        hits := hits + [hit];
        down := down + [downNow];
        i := i + 1;
      }
      assert towers[..i] == towers;
    }

    /** The second half of `update`, the filter over the enemy list, after the
        towers' phase that left the flags `killed` and reported `defeats` for
        the enemies at `victims`: every enemy moves from its pose in `from`
        (`Moved`), those that reached the base are reported after the defeats
        and dropped, those defeated are dropped silently, and the rest stay in
        their order (`Advanced`); no health changes. Between updates the list
        again holds only live enemies. */
    method AdvanceEnemies(deltaTime: real, move: Mover, ghost from: map<Enemy, Pose>, ghost killed: seq<bool>,
                          ghost defeats: seq<LevelEvent>, ghost victims: seq<nat>, ghost hits: seq<Enemy?>)
      returns (events: seq<LevelEvent>, ghost reached: seq<bool>, kept: seq<bool>)
      requires EntitiesValid()
      requires forall e :: e in enemies ==>
        e in from && from[e].position == e.position && from[e].pathIndex == e.currentPathIndex
      requires KilledFlags(enemies, killed) && KillsReported(enemies, killed, defeats, victims)
      requires HealthAfter(towers, enemies, from, hits)
      modifies this`enemies, enemies
      ensures Valid()
      ensures Advanced(old(enemies), from, deltaTime, move, enemies, defeats + events, killed, victims, reached, kept)
      ensures HealthAfter(towers, old(enemies), from, hits)
      ensures forall ev :: ev in events ==> ev == EnemyReachedBase
    {
      var list := enemies;
      events, reached, kept := MoveEnemies(list, deltaTime, move);
      enemies := Select(list, kept);
      SelectKeptOnly(list, kept);
      SelectDistinct(list, kept);
      ArrivalsAfterDefeats(list, killed, defeats, victims, events, reached, kept);
    }

    /** What one `update` from the enemy list `tick.list`, with the enemies'
        poses `tick.from` and the towers' aims `tick.aims` before it, did (see
        `Update`). */
    ghost predicate Ticked(now: real, deltaTime: real, move: Mover, events: seq<LevelEvent>, tick: Tick)
      reads this`towers, this`enemies, towers, tick.list
    {
      match tick
      case Tick(list, from, aims, hits, down, killed, victims, reached, kept) =>
        && TurnsTaken(towers, aims, now, list, from, hits, down)
        && DownBefore(towers, list, from, hits, down)
        && HealthAfter(towers, list, from, hits)
        && Advanced(list, from, deltaTime, move, enemies, events, killed, victims, reached, kept)
    }

    /** `update(deltaTime)`: first every tower acts (`ApplyTowerHits`), then the
        enemy list is filtered (`AdvanceEnemies`); `Ticked` states the outcome
        against the list, poses and aims before the update. Tower `i`'s turn is
        recorded (`Tower.TookTurn`): it hit `hits[i]` only once its cooldown had
        elapsed, keeping a held target still listed, not down and in range, and
        otherwise choosing the first nearest candidate among the enemies not yet
        defeated by the towers before it (`down[i]`). Every enemy ends with the
        health `Damaged` computes from these hits in tower order, and is dead
        exactly when it has none left. Each enemy of the old list then moves
        (`Moved`) and leaves the list for exactly one reason, with exactly one
        event: it was defeated by a hit in this tick (`killed`), or it reached
        the base (`reached`); all others stay, in order (`kept`). All defeat
        events come first, one per distinct victim in the order of the kills,
        then the arrivals. The outcome is stated for every record equal to
        `tick`, which keeps `Ticked` folded for callers until they name it. */
    method Update(now: real, deltaTime: real, move: Mover) returns (events: seq<LevelEvent>, ghost tick: Tick)
      requires Valid()
      modifies this`enemies, towers`currentTarget, towers`lastFireTime, enemies
      ensures Valid()
      ensures towers == old(towers) && selectedTower == old(selectedTower)
      ensures tick.list == old(enemies) && tick.from == old(Poses()) && tick.aims == old(Aims())
      ensures forall t :: t == tick ==> Ticked(now, deltaTime, move, events, t)
      ensures |events| + |enemies| == |old(enemies)|
    {
      ghost var list, from, aims := enemies, Poses(), Aims();
      var defeats;
      ghost var hits, down, killed, victims;
      defeats, hits, down, killed, victims := ApplyTowerHits(now);
      var arrivals, kept;
      ghost var reached;
      arrivals, reached, kept := AdvanceEnemies(deltaTime, move, from, killed, defeats, victims, hits);
      events := defeats + arrivals;
      tick := Tick(list, from, aims, hits, down, killed, victims, reached, kept);
    }

    /** `getValidTowerPosition(position)`: a position is buildable unless some
        path has a vertex, other than its last one, within distance 1 of it.
        The scan stops at the first blocking vertex. */
    method GetValidTowerPosition(position: Vec3) returns (valid: bool)
      ensures valid <==> !Blocked(config.pathNodes, position)
    {
      var paths := config.pathNodes;
      var p := 0;
      while p < |paths|
        invariant 0 <= p <= |paths|
        invariant forall q, k :: 0 <= q < p && 0 <= k < |paths[q]| - 1 ==> !NearVertex(position, paths[q][k])
      {
        var points := paths[p];
        var k := 0;
        while k < |points| - 1
          invariant 0 <= k <= |points|
          invariant forall j :: 0 <= j < k && j < |points| - 1 ==> !NearVertex(position, points[j])
        {
          if NearVertex(position, points[k]) {
            return false;
          }
          k := k + 1;
        }
        p := p + 1;
      }
      return true;
    }

    /** Tower `k` is within distance 1 of `position`, no tower within that
        distance is nearer, and every one before it is strictly farther. */
    ghost predicate IsFirstNearestTower(position: Vec3, k: int)
      reads this, towers
    {
      && 0 <= k < |towers|
      && SqDist3(position, towers[k].position) < 1.0
      && (forall j :: 0 <= j < |towers| && SqDist3(position, towers[j].position) < 1.0 ==>
            SqDist3(position, towers[k].position) <= SqDist3(position, towers[j].position))
      && (forall j :: 0 <= j < k && SqDist3(position, towers[j].position) < 1.0 ==>
            SqDist3(position, towers[k].position) < SqDist3(position, towers[j].position))
    }

    /** `selectTowerAtPosition(position)`: the nearest tower closer than 1, the
        first in the list on ties, or null when there is none; the result
        becomes the selected tower. */
    method SelectTowerAtPosition(position: Vec3) returns (tower: Tower?)
      modifies this`selectedTower
      ensures selectedTower == tower
      ensures tower == null <==> forall j :: 0 <= j < |towers| ==> SqDist3(position, towers[j].position) >= 1.0
      ensures tower != null ==> exists k :: IsFirstNearestTower(position, k) && towers[k] == tower
    {
      tower := null;
      var closest := 1.0;
      ghost var best := -1;
      var i := 0;
      while i < |towers|
        invariant 0 <= i <= |towers|
        invariant tower == null <==> best == -1
        invariant tower == null ==> closest == 1.0
        invariant tower == null ==> forall j :: 0 <= j < i ==> SqDist3(position, towers[j].position) >= 1.0
        invariant tower != null ==> 0 <= best < i && towers[best] == tower
        invariant tower != null ==> closest == SqDist3(position, tower.position) < 1.0
        invariant tower != null ==> forall j :: 0 <= j < i && SqDist3(position, towers[j].position) < 1.0 ==>
          closest <= SqDist3(position, towers[j].position)
        invariant tower != null ==> forall j :: 0 <= j < best && SqDist3(position, towers[j].position) < 1.0 ==>
          closest < SqDist3(position, towers[j].position)
      {
        var d := SqDist3(position, towers[i].position);
        if d < closest {
          closest := d;
          tower := towers[i];
          best := i;
        }
        i := i + 1;
      }
      if tower != null {
        assert SqDist3(position, towers[best].position) < 1.0;
        assert IsFirstNearestTower(position, best);
      }
      selectedTower := tower;
    }

    /** `clearTowerSelection()`. */
    method ClearTowerSelection()
      modifies this`selectedTower
      ensures selectedTower == null
    {
      selectedTower := null;
    }

    /** `removeTower(tower)`: a listed tower is taken out at its first position,
        the others keep their order, and the selection is cleared exactly when
        it was that tower; an unlisted tower changes nothing. */
    method RemoveTower(tower: Tower)
      modifies this`towers, this`selectedTower
      ensures tower in old(towers) ==>
        && towers == RemoveAt(old(towers), IndexOf(old(towers), tower))
        && multiset(towers) == multiset(old(towers)) - multiset{tower}
        && selectedTower == (if old(selectedTower) == tower then null else old(selectedTower))
      ensures tower !in old(towers) ==> towers == old(towers) && selectedTower == old(selectedTower)
      ensures old(Valid()) ==> Valid()
    {
      var index := IndexOf(towers, tower);
      if index != -1 {
        RemoveAtMultiset(towers, index);
        if Distinct(towers) {
          DistinctRemoveAt(towers, index);
        }
        towers := RemoveAt(towers, index);
        if selectedTower == tower {
          selectedTower := null;
        }
      }
    }

    /** `moveTower(tower, newPosition)`: the tower moves, and the call reports
        true, exactly when the new position is buildable. */
    method MoveTower(tower: Tower, newPosition: Vec3) returns (moved: bool)
      modifies tower`position
      ensures moved <==> !Blocked(config.pathNodes, newPosition)
      ensures tower.position == (if moved then newPosition else old(tower.position))
    {
      moved := GetValidTowerPosition(newPosition);
      if moved {
        tower.MoveTo(newPosition);
      }
    }
  }


  /** The outcome recorded for one enemy of the list after its move, from the
      position `from` and path index `fromIndex` it had before. A dead enemy, or
      one past the end of its path, stays where it was; any other one takes the
      `move` step of `Enemy.Update` towards its current waypoint and advances its
      index by one exactly when it arrived. It reached the end of its path in this
      move exactly when `reached` is set, an enemy that reached the end is alive,
      and it stays in the list exactly when it neither reached the end nor is
      dead. */
  ghost predicate Moved(e: Enemy, from: Vec3, fromIndex: nat, deltaTime: real, move: Mover, reached: bool, kept: bool)
    reads e
  {
    && (if e.isDead || fromIndex >= |e.path|
        then e.position == from && e.currentPathIndex == fromIndex
        else
          && e.position == move(from, e.path[fromIndex], e.stats.speed * deltaTime)
          && e.currentPathIndex == fromIndex + (if Arrived(e.position, e.path[fromIndex]) then 1 else 0))
    && (reached <==> fromIndex < e.currentPathIndex == |e.path|)
    && (reached ==> !e.isDead)
    && (kept <==> !reached && !e.isDead)
  }

  /** The enemy-moving pass of `update`: every enemy of the list, in order,
      moves along its path (`Moved`); the pass reports one arrival event per
      enemy that reached the end of its path, and the flags of the enemies the
      filter keeps. Health and death are untouched. */
  method MoveEnemies(list: seq<Enemy>, deltaTime: real, move: Mover)
    returns (events: seq<LevelEvent>, ghost reached: seq<bool>, kept: seq<bool>)
    requires Distinct(list)
    requires forall j :: 0 <= j < |list| ==> list[j].Valid()
    modifies list
    ensures |reached| == |list| && |kept| == |list|
    ensures |events| == CountTrue(reached)
    ensures forall ev :: ev in events ==> ev == EnemyReachedBase
    ensures forall j :: 0 <= j < |list| ==>
      list[j].Valid() && list[j].isDead == old(list[j].isDead) && list[j].currentHealth == old(list[j].currentHealth)
    ensures forall j :: 0 <= j < |list| ==>
      Moved(list[j], old(list[j].position), old(list[j].currentPathIndex), deltaTime, move, reached[j], kept[j])
  {
    events := [];
    reached := [];
    kept := [];
    var i := 0;
    while i < |list|
      invariant 0 <= i <= |list|
      invariant |reached| == i && |kept| == i
      invariant |events| == CountTrue(reached)
      invariant forall ev :: ev in events ==> ev == EnemyReachedBase
      invariant forall j :: 0 <= j < |list| ==>
        list[j].Valid() && list[j].isDead == old(list[j].isDead) && list[j].currentHealth == old(list[j].currentHealth)
      invariant forall j :: i <= j < |list| ==>
        list[j].position == old(list[j].position) && list[j].currentPathIndex == old(list[j].currentPathIndex)
      invariant forall j :: 0 <= j < i ==>
        Moved(list[j], old(list[j].position), old(list[j].currentPathIndex), deltaTime, move, reached[j], kept[j])
    {
      var e := list[i];
      assert forall j :: 0 <= j < |list| && j != i ==> list[j] != e;
      var reachedEnd := e.Update(deltaTime, move);
      assert Moved(e, old(e.position), old(e.currentPathIndex), deltaTime, move, reachedEnd, !reachedEnd && !e.isDead);
      CountTrueSnoc(reached, reachedEnd);
      if reachedEnd {
        events := events + [EnemyReachedBase];
      }
      reached := reached + [reachedEnd];
      kept := kept + [!reachedEnd && !e.IsDefeated()];
      i := i + 1;
    }
  }

  /** One call of `Level.Update`: the level, its arguments and what it did,
      as one value for the two-state lemma below. */
  datatype UpdateCall = UpdateCall(level: Level, now: real, deltaTime: real, move: Mover,
                                   events: seq<LevelEvent>, tick: Tick)

  /** What an update did stays true while the level's own fields, its towers
      and the enemies it started from are left alone. */
  twostate lemma TickedKept(c: UpdateCall)
    requires old(forall t :: t == c.tick ==> c.level.Ticked(c.now, c.deltaTime, c.move, c.events, t))
    requires unchanged(c.level) && unchanged(old(c.level.towers)) && unchanged(c.tick.list)
    ensures forall t :: t == c.tick ==> c.level.Ticked(c.now, c.deltaTime, c.move, c.events, t)
  {
  }
}
