/** The game logic of class `Game` in src/main.ts, without rendering, camera,
    raycasting and DOM messages. The director owns the game and round records,
    the current level, the spawn clock and the pause clock. Its `setTimeout`
    continuations are kept in `pending` and run by `FirePending`; the clock
    readings and random draws it takes from the browser are parameters. */
module Director {
  import opened Basics
  import opened Types
  import opened State
  import opened LevelConfigs
  import opened Enemies
  import opened Towers
  import opened Levels

  /** A continuation the director schedules with `setTimeout`: the next round,
      the next level, or the restart after the game is over. */
  datatype Transition = AdvanceRound | AdvanceLevel | Restart

  /** Most towers the director lets the player hold at once. */
  const MaxTowers := 10

  /** `Math.floor(r * n)` for a draw `r` of `Math.random()`: an index into a
      list of `n` entries. */
  function PickIndex(r: real, n: nat): (k: nat)
    requires 0.0 <= r < 1.0 && n > 0
    ensures k < n
    ensures k as real <= r * n as real < k as real + 1.0
  {
    var m := n as real;
    assert 0.0 <= r * m < m by {
      assert (1.0 - r) * m > 0.0 by {
        assert 1.0 - r > 0.0 && m > 0.0;
      }
      assert r * m == m - (1.0 - r) * m;
    }
    (r * m).Floor
  }

  /** The enemy-type branch of `spawnEnemy`: rounds up to 3 send light enemies,
      rounds up to 7 a 70/30 mix of light and normal, later rounds a 50/30/20
      mix of light, normal and heavy. */
  function ChooseEnemyType(round: int, rand: real): (t: EnemyType)
    ensures t == LightEnemy <==> round <= 3 || (round <= 7 && rand < 0.7) || rand < 0.5
    ensures t == HeavyEnemy <==> round > 7 && rand >= 0.8
  {
    if round <= 3 then LightEnemy
    else if round <= 7 then (if rand < 0.7 then LightEnemy else NormalEnemy)
    else if rand < 0.5 then LightEnemy
    else if rand < 0.8 then NormalEnemy
    else HeavyEnemy
  }

  /** No heavy enemy is ever chosen in the five rounds a level has. */
  lemma NoHeavyEnemyInPlay(round: int, rand: real)
    requires 1 <= round <= 5
    ensures ChooseEnemyType(round, rand) != HeavyEnemy
  {
  }

  /** The test of `checkRoundCompletion`: every enemy of the round has been
      defeated or has reached the base. */
  predicate RoundDone(rs: RoundState)
  {
    rs.enemiesDefeated + rs.enemiesReachedBase >= rs.totalEnemies
  }

  /** The last round of the last level: completing it wins the game. */
  predicate IsFinalRound(gs: GameState)
  {
    gs.currentRound >= 5 && gs.currentLevel >= 3
  }

  /** What a completed round schedules: the next round before round 5, the
      next level after round 5 of levels 1 and 2, and otherwise the restart
      that follows victory. */
  function NextAfterRound(round: int, level: int): (t: Transition)
    ensures t == AdvanceRound <==> round < 5
    ensures t == AdvanceLevel <==> round >= 5 && level < 3
    ensures t == Restart <==> round >= 5 && level >= 3
  {
    if round >= 5 then (if level >= 3 then Restart else AdvanceLevel) else AdvanceRound
  }

  /** The scheduled transitions walk rounds 1..5 of levels 1..3 in order: from a
      round and level in range, the next round or level is again in range, and
      the restart is scheduled only after round 5 of level 3. */
  lemma ProgressionStaysInRange(round: int, level: int)
    requires 1 <= round <= 5 && 1 <= level <= 3
    ensures NextAfterRound(round, level) == AdvanceRound ==> 2 <= round + 1 <= 5
    ensures NextAfterRound(round, level) == AdvanceLevel ==> round == 5 && 2 <= level + 1 <= 3
    ensures NextAfterRound(round, level) == Restart ==> round == 5 && level == 3
  {
  }

  /** The part of the director the level's callbacks change: the game record,
      the round record, and the continuations scheduled. */
  datatype Ledger = Ledger(game: GameState, round: RoundState, pending: seq<Transition>)

  /** What `checkRoundCompletion` does to the ledger: once every enemy of the
      round is processed, the round is complete, the base heals by 10, the
      final round ends the game, and the follow-up is scheduled. */
  function CheckedCompletion(l: Ledger): Ledger
  {
    if RoundDone(l.round) then
      Ledger(l.game.(baseHealth := l.game.baseHealth + 10, isGameOver := l.game.isGameOver || IsFinalRound(l.game)),
             l.round.(isComplete := true),
             l.pending + [NextAfterRound(l.game.currentRound, l.game.currentLevel)])
    else l
  }

  /** What `onEnemyDefeated(pointsValue)` does to the ledger. */
  function AfterDefeat(l: Ledger, pointsValue: nat): Ledger
  {
    CheckedCompletion(Ledger(l.game.(points := l.game.points + pointsValue),
                             l.round.(enemiesDefeated := l.round.enemiesDefeated + 1),
                             l.pending))
  }

  /** What `onEnemyReachBase()` does to the ledger: a base left at 0 or below
      after the completion check ends the game and schedules the restart. */
  function AfterReachBase(l: Ledger): Ledger
  {
    var c := CheckedCompletion(Ledger(l.game.(baseHealth := l.game.baseHealth - 5),
                                      l.round.(enemiesReachedBase := l.round.enemiesReachedBase + 1),
                                      l.pending));
    if c.game.baseHealth <= 0 then Ledger(c.game.(isGameOver := true), c.round, c.pending + [Restart]) else c
  }

  /** The level's events applied to the ledger one after the other, in order. */
  function ApplyEvents(l: Ledger, events: seq<LevelEvent>): Ledger
  {
    if events == [] then l
    else
      var n := |events| - 1;
      var before := ApplyEvents(l, events[..n]);
      match events[n]
      case EnemyDefeated(pointsValue) => AfterDefeat(before, pointsValue)
      case EnemyReachedBase => AfterReachBase(before)
  }

  /** Number of defeat events. */
  function Defeats(events: seq<LevelEvent>): nat
  {
    if events == [] then 0 else Defeats(events[..|events| - 1]) + (if events[|events| - 1].EnemyDefeated? then 1 else 0)
  }

  /** Number of arrival events. */
  function Arrivals(events: seq<LevelEvent>): nat
  {
    if events == [] then 0 else Arrivals(events[..|events| - 1]) + (if events[|events| - 1].EnemyReachedBase? then 1 else 0)
  }

  /** Sum of the points the defeat events carry. */
  function PointsOf(events: seq<LevelEvent>): nat
  {
    if events == [] then 0
    else PointsOf(events[..|events| - 1]) + (match events[|events| - 1] case EnemyDefeated(p) => p case EnemyReachedBase => 0)
  }

  /** Of the first `n` events of a round that had `processed` enemies processed
      and expects `total`, the number after which the round counts as done: each
      of these heals the base. */
  function Heals(processed: int, total: int, n: nat): nat
  {
    if n == 0 then 0 else Heals(processed, total, n - 1) + (if processed + n >= total then 1 else 0)
  }

  /** Every event is a defeat or an arrival. */
  lemma {:induction false} DefeatsPlusArrivals(events: seq<LevelEvent>)
    ensures Defeats(events) + Arrivals(events) == |events|
  {
    if events != [] {
      DefeatsPlusArrivals(events[..|events| - 1]);
    }
  }

  /** While the round is not yet done after the events, none of them heals. */
  lemma {:induction false} NoHealsBeforeDone(processed: int, total: int, n: nat)
    requires processed + n < total
    ensures Heals(processed, total, n) == 0
  {
    if n > 0 {
      NoHealsBeforeDone(processed, total, n - 1);
    }
  }

  /** Applying a tick's events: each defeat is counted and pays its points, each
      arrival is counted and costs the base 5, and every event after which the
      round is done heals the base by 10. The level, round, tower count, speed,
      spawn counter and round total are untouched, a game once over stays over,
      and continuations are only ever appended. */
  lemma {:induction false} ApplyEventsTotals(l: Ledger, events: seq<LevelEvent>)
    ensures var r := ApplyEvents(l, events);
      && r.round.enemiesDefeated == l.round.enemiesDefeated + Defeats(events)
      && r.round.enemiesReachedBase == l.round.enemiesReachedBase + Arrivals(events)
      && r.round.enemiesSpawned == l.round.enemiesSpawned && r.round.totalEnemies == l.round.totalEnemies
      && r.game.points == l.game.points + PointsOf(events)
      && r.game.baseHealth == l.game.baseHealth - 5 * Arrivals(events)
           + 10 * Heals(l.round.enemiesDefeated + l.round.enemiesReachedBase, l.round.totalEnemies, |events|)
      && r.game == l.game.(points := r.game.points, baseHealth := r.game.baseHealth, isGameOver := r.game.isGameOver)
      && (l.game.isGameOver ==> r.game.isGameOver)
      && |l.pending| <= |r.pending| && r.pending[..|l.pending|] == l.pending
  {
    if events != [] {
      var n := |events| - 1;
      ApplyEventsTotals(l, events[..n]);
      DefeatsPlusArrivals(events[..n]);
      var before := ApplyEvents(l, events[..n]);
      assert before.pending[..|l.pending|] == l.pending;
    }
  }

  /** An arrival that leaves the base at 0 or below ends the game in the same
      tick: when the events held an arrival and the base ends at 0 or below, the
      game is over. (Only arrivals lower the base; after the last one, defeats
      can only heal it.) */
  lemma {:induction false} BaseDestroyedEndsGame(l: Ledger, events: seq<LevelEvent>)
    requires Arrivals(events) > 0
    requires ApplyEvents(l, events).game.baseHealth <= 0
    ensures ApplyEvents(l, events).game.isGameOver
  {
    var n := |events| - 1;
    if events[n].EnemyDefeated? {
      BaseDestroyedEndsGame(l, events[..n]);
    }
  }

  class Game {
    var level: Level
    var gameState: GameState
    var roundState: RoundState
    var lastTime: real
    var lastSpawnTime: real
    var isPaused: bool
    var lastPauseTime: real
    /** `setTimeout` continuations not yet run, in the order scheduled. */
    var pending: seq<Transition>
    /** The tower type chosen in the side panel, if any. */
    var selectedTowerType: Option<TowerType>

    /** Milliseconds between spawns at normal speed. */
    const spawnInterval: real

    /** The director's invariant: the level is the configured one for the
        current level number and is itself valid; the round record belongs to
        the current round, never spawns more than its total, and is complete
        only once enough enemies were processed; the speed is positive and the
        tower count within the cap. */
    ghost predicate Valid()
      reads this, level, level.towers, level.enemies
    {
      level.Valid() && Configured()
    }

    /** The director's own part of `Valid`, on its fields alone. */
    ghost predicate Configured()
      reads this
    {
      && spawnInterval == 1000.0
      && 1 <= gameState.currentLevel <= 3
      && level.config == Configs[gameState.currentLevel - 1]
      && gameState.currentRound >= 1
      && roundState.totalEnemies == CalculateRoundEnemies(gameState.currentRound)
      && roundState.enemiesSpawned <= roundState.totalEnemies
      && (roundState.isComplete ==> RoundDone(roundState))
      && gameState.gameSpeed > 0.0
      && gameState.towerCount <= MaxTowers
    }

    /** Every enemy spawned in this round is either defeated, arrived at the
        base, or still in the level's list, and no enemy is counted twice. */
    ghost predicate Accounted()
      reads this, level
    {
      roundState.enemiesDefeated + roundState.enemiesReachedBase + |level.enemies| == roundState.enemiesSpawned
    }

    /** The game record, round record and pending continuations as one value. */
    ghost function Books(): Ledger
      reads this
    {
      Ledger(gameState, roundState, pending)
    }

    /** The tower counter agrees with the level's tower list. */
    ghost predicate TowersCounted()
      reads this, level
    {
      gameState.towerCount == |level.towers|
    }

    /** `new Game()`: the initial game state, then `startLevel(1)`. */
    constructor (now: real)
      ensures Valid() && Accounted() && TowersCounted()
      ensures gameState == InitialGameState.(currentLevel := 1, currentRound := 1, towerCount := 0)
      ensures roundState == FreshRound(1)
      ensures level.config == Configs[0] && level.towers == [] && level.enemies == []
      ensures pending == [] && !isPaused && selectedTowerType.None? && lastSpawnTime == now
      ensures lastTime == 0.0 && lastPauseTime == 0.0 && level.selectedTower == null
    {
      level := new Level(Configs[0]);
      gameState := InitialGameState;
      roundState := FreshRound(1);
      lastTime := 0.0;
      lastSpawnTime := 0.0;
      isPaused := false;
      lastPauseTime := 0.0;
      pending := [];
      selectedTowerType := None;
      spawnInterval := 1000.0;
      new;
      StartLevel(1, now);
    }

    /** `resetRoundState()`: fresh counters for the current round, and the
        spawn clock restarts now. */
    method ResetRoundState(now: real)
      modifies this`roundState, this`lastSpawnTime
      ensures roundState == FreshRound(gameState.currentRound)
      ensures lastSpawnTime == now
    {
      roundState := FreshRound(gameState.currentRound);
      lastSpawnTime := now;
    }

    /** `startLevel(levelId)`: an unknown level changes nothing. A known one
        gets a fresh, empty level; the level number is set, the round goes back
        to 1 and the tower count to 0, and the round is reset. Points and base
        health carry over. */
    method StartLevel(levelId: int, now: real)
      requires gameState.gameSpeed > 0.0 && spawnInterval == 1000.0
      modifies this
      ensures ConfigFor(levelId).None? ==>
        && level == old(level) && gameState == old(gameState) && roundState == old(roundState)
        && lastSpawnTime == old(lastSpawnTime)
      ensures ConfigFor(levelId).Some? ==>
        && fresh(level) && level.config == Configs[levelId - 1]
        && level.towers == [] && level.enemies == [] && level.selectedTower == null
        && gameState == old(gameState).(currentLevel := levelId, currentRound := 1, towerCount := 0)
        && roundState == FreshRound(1) && lastSpawnTime == now
        && Valid() && Accounted() && TowersCounted()
      ensures pending == old(pending) && isPaused == old(isPaused) && lastTime == old(lastTime)
      ensures lastPauseTime == old(lastPauseTime) && selectedTowerType == old(selectedTowerType)
    {
      var config := ConfigFor(levelId);
      if config.None? {
        return;
      }
      level := new Level(config.value);
      gameState := gameState.(currentLevel := levelId, currentRound := 1, towerCount := 0);
      ResetRoundState(now);
    }

    /** `spawnEnemy()` with its four `Math.random()` draws as parameters. A
        completed round spawns nothing. Otherwise a new enemy, of the type the
        round and `drawType` choose and elite when `drawElite < 0.2`, starts at
        the spawn point `drawSpawn` picks and follows the path `drawPath` picks
        (the two picks are independent), with the full health of its stats, and
        is appended to the level; the spawn counter goes up by one. */
    method SpawnEnemy(drawSpawn: real, drawPath: real, drawElite: real, drawType: real)
      requires Valid()
      requires 0.0 <= drawSpawn < 1.0 && 0.0 <= drawPath < 1.0
      modifies this`roundState, level`enemies
      ensures old(roundState.isComplete) ==> roundState == old(roundState) && level.enemies == old(level.enemies)
      ensures !old(roundState.isComplete) ==>
        && roundState == old(roundState).(enemiesSpawned := old(roundState.enemiesSpawned) + 1)
        && |level.enemies| == |old(level.enemies)| + 1
        && level.enemies[..|old(level.enemies)|] == old(level.enemies)
        && var e := level.enemies[|old(level.enemies)|];
           var config := Configs[gameState.currentLevel - 1];
           && fresh(e)
           && e.stats == CreateEnemyStats(ChooseEnemyType(gameState.currentRound, drawType), drawElite < 0.2)
           && e.position == config.spawnPoints[PickIndex(drawSpawn, |config.spawnPoints|)]
           && e.path == config.pathNodes[PickIndex(drawPath, |config.pathNodes|)]
           && e.currentHealth == e.stats.health as real
           && e.currentPathIndex == 0 && !e.isDead
      ensures roundState.enemiesSpawned <= roundState.totalEnemies ==> Valid()
      ensures old(Accounted()) ==> Accounted()
    {
      if roundState.isComplete {
        return;
      }
      var config := Configs[gameState.currentLevel - 1];
      ConfigsWellFormed();
      var spawnPoint := config.spawnPoints[PickIndex(drawSpawn, |config.spawnPoints|)];
      var path := config.pathNodes[PickIndex(drawPath, |config.pathNodes|)];
      var isElite := drawElite < 0.2;
      var enemyType := ChooseEnemyType(gameState.currentRound, drawType);
      var enemy := new Enemy(enemyType, spawnPoint, path, isElite);
      level.AddEnemy(enemy);
      roundState := roundState.(enemiesSpawned := roundState.enemiesSpawned + 1);
    }

    /** `gameOver(victory)`: the game is flagged over and a restart scheduled;
        `victory` only chooses the message shown. */
    method GameOver(victory: bool)
      modifies this`gameState, this`pending
      ensures gameState == old(gameState).(isGameOver := true)
      ensures pending == old(pending) + [Restart]
    {
      gameState := gameState.(isGameOver := true);
      pending := pending + [Restart];
    }

    /** `checkRoundCompletion()`: once the round's enemies are all processed,
        the round is marked complete, the base heals by 10 with no upper
        bound, and the follow-up is scheduled (after the final round, through
        `gameOver(true)`). The check does not look at `isComplete`, so it fires
        again on every later call in the same round. */
    method CheckRoundCompletion()
      requires Valid()
      modifies this`gameState, this`roundState, this`pending
      ensures Valid()
      ensures roundState == old(roundState).(isComplete := old(roundState.isComplete) || RoundDone(old(roundState)))
      ensures gameState == (if RoundDone(old(roundState))
        then old(gameState).(baseHealth := old(gameState.baseHealth) + 10,
                             isGameOver := old(gameState.isGameOver) || IsFinalRound(old(gameState)))
        else old(gameState))
      ensures pending == old(pending) +
        (if RoundDone(old(roundState)) then [NextAfterRound(old(gameState.currentRound), old(gameState.currentLevel))] else [])
      ensures Books() == CheckedCompletion(old(Books()))
    {
      if roundState.enemiesDefeated + roundState.enemiesReachedBase >= roundState.totalEnemies {
        roundState := roundState.(isComplete := true);
        gameState := gameState.(baseHealth := gameState.baseHealth + 10);
        if gameState.currentRound >= 5 {
          if gameState.currentLevel >= 3 {
            GameOver(true);
          } else {
            pending := pending + [AdvanceLevel];
          }
        } else {
          pending := pending + [AdvanceRound];
        }
      }
    }

    /** The `onEnemyDefeated(pointsValue)` callback: the points are credited,
        the defeat counted, and completion checked. */
    method OnEnemyDefeated(pointsValue: nat)
      requires Valid()
      modifies this`gameState, this`roundState, this`pending
      ensures Valid()
      ensures var counted := old(roundState).(enemiesDefeated := old(roundState.enemiesDefeated) + 1);
        && roundState == counted.(isComplete := counted.isComplete || RoundDone(counted))
        && gameState == (if RoundDone(counted)
          then old(gameState).(points := old(gameState.points) + pointsValue,
                               baseHealth := old(gameState.baseHealth) + 10,
                               isGameOver := old(gameState.isGameOver) || IsFinalRound(old(gameState)))
          else old(gameState).(points := old(gameState.points) + pointsValue))
        && pending == old(pending) +
          (if RoundDone(counted) then [NextAfterRound(old(gameState.currentRound), old(gameState.currentLevel))] else [])
      ensures Books() == AfterDefeat(old(Books()), pointsValue)
    {
      gameState := gameState.(points := gameState.points + pointsValue);
      roundState := roundState.(enemiesDefeated := roundState.enemiesDefeated + 1);
      CheckRoundCompletion();
    }

    /** The `onEnemyReachBase` callback: the base loses 5 health, the arrival is
        counted and completion checked; a base at 0 health or below then ends
        the game (a restart is scheduled), on every arrival while it stays
        there. */
    method OnEnemyReachBase()
      requires Valid()
      modifies this`gameState, this`roundState, this`pending
      ensures Valid()
      ensures var counted := old(roundState).(enemiesReachedBase := old(roundState.enemiesReachedBase) + 1);
        var health := old(gameState.baseHealth) - 5 + (if RoundDone(counted) then 10 else 0);
        && roundState == counted.(isComplete := counted.isComplete || RoundDone(counted))
        && gameState.baseHealth == health
        && gameState.isGameOver == (old(gameState.isGameOver) || (RoundDone(counted) && IsFinalRound(old(gameState))) || health <= 0)
        && gameState == old(gameState).(baseHealth := health, isGameOver := gameState.isGameOver)
        && pending == old(pending) +
          (if RoundDone(counted) then [NextAfterRound(old(gameState.currentRound), old(gameState.currentLevel))] else []) +
          (if health <= 0 then [Restart] else [])
      ensures Books() == AfterReachBase(old(Books()))
    {
      gameState := gameState.(baseHealth := gameState.baseHealth - 5);
      roundState := roundState.(enemiesReachedBase := roundState.enemiesReachedBase + 1);
      CheckRoundCompletion();
      if gameState.baseHealth <= 0 {
        GameOver(false);
      }
    }

    /** The level's callbacks, run in the order the level raised them: the new
        game record, round record and pending continuations are those
        `ApplyEvents` computes (see `ApplyEventsTotals` for the points, the
        counters and the base, and `BaseDestroyedEndsGame` for the end of the
        game). Each event counts one enemy as processed, and no events change
        nothing. */
    method Dispatch(events: seq<LevelEvent>)
      requires Valid()
      modifies this`gameState, this`roundState, this`pending
      ensures Valid()
      ensures roundState.enemiesDefeated + roundState.enemiesReachedBase ==
        old(roundState.enemiesDefeated + roundState.enemiesReachedBase) + |events|
      ensures roundState.enemiesSpawned == old(roundState.enemiesSpawned)
      ensures gameState.currentLevel == old(gameState.currentLevel) && gameState.currentRound == old(gameState.currentRound)
      ensures gameState.towerCount == old(gameState.towerCount) && gameState.gameSpeed == old(gameState.gameSpeed)
      ensures Books() == ApplyEvents(old(Books()), events)
      ensures events == [] ==> gameState == old(gameState) && roundState == old(roundState) && pending == old(pending)
    {
      var i := 0;
      while i < |events|
        invariant 0 <= i <= |events|
        invariant Valid()
        invariant roundState.enemiesDefeated + roundState.enemiesReachedBase ==
          old(roundState.enemiesDefeated + roundState.enemiesReachedBase) + i
        invariant roundState.enemiesSpawned == old(roundState.enemiesSpawned)
        invariant gameState.currentLevel == old(gameState.currentLevel) && gameState.currentRound == old(gameState.currentRound)
        invariant gameState.towerCount == old(gameState.towerCount) && gameState.gameSpeed == old(gameState.gameSpeed)
        invariant Books() == ApplyEvents(old(Books()), events[..i])
        invariant i == 0 ==> gameState == old(gameState) && roundState == old(roundState) && pending == old(pending)
      {
        assert events[..i + 1][..i] == events[..i];
        match events[i] {
          case EnemyDefeated(pointsValue) => OnEnemyDefeated(pointsValue);
          case EnemyReachedBase => OnEnemyReachBase();
        }
        i := i + 1;
      }
      assert events[..i] == events;
    }

    /** The spawn gate of `animate`: the round is not complete, the spawn
        interval scaled by the game speed has passed, and the round still has
        enemies to send. */
    predicate SpawnDue(time: real)
      requires gameState.gameSpeed > 0.0
      reads this
    {
      && !roundState.isComplete
      && time - lastSpawnTime >= spawnInterval / gameState.gameSpeed
      && roundState.enemiesSpawned < roundState.totalEnemies
    }

    /** The simulated time of a frame of `animate`: the wall-clock time since
        the last frame in seconds, at most 0.1, scaled by the game speed. */
    function FrameDelta(time: real, lastTime: real, gameSpeed: real): (delta: real)
      ensures gameSpeed > 0.0 && time >= lastTime ==> 0.0 <= delta <= 0.1 * gameSpeed
    {
      Min((time - lastTime) / 1000.0, 0.1) * gameSpeed
    }

    /** One frame of `animate(time)`. A paused game does nothing. Otherwise the
        frame time becomes the last time, at most one enemy spawns (exactly when
        the spawn gate is open, which restarts the spawn clock at `time`), the
        level updates with the frame's scaled delta, and the `events` it raises
        are applied to the game (`ApplyEvents`). Towers read the wall clock
        `now`, not `time`. The level update (`Level.Ticked`, recorded in
        `tick`) starts from the enemy list before the frame plus the enemy that
        spawned, if any (`spawned`), with the poses and tower aims from before
        the frame.
        The accounting of the round is preserved, and a completed, accounted
        round stays as it is: no enemy is left to raise an event. */
    method Animate(time: real, now: real, drawSpawn: real, drawPath: real, drawElite: real, drawType: real,
                   move: Mover) returns (events: seq<LevelEvent>, ghost spawned: seq<Enemy>, ghost tick: Tick)
      requires Valid()
      requires 0.0 <= drawSpawn < 1.0 && 0.0 <= drawPath < 1.0
      modifies this`lastTime, this`lastSpawnTime, this`gameState, this`roundState, this`pending
      modifies level`enemies, level.towers`currentTarget, level.towers`lastFireTime, level.enemies
      ensures Valid()
      ensures level.towers == old(level.towers)
      ensures old(isPaused) ==>
        && events == [] && gameState == old(gameState) && roundState == old(roundState) && pending == old(pending)
        && lastTime == old(lastTime) && lastSpawnTime == old(lastSpawnTime) && level.enemies == old(level.enemies)
      ensures !old(isPaused) ==>
        && lastTime == time
        && lastSpawnTime == (if old(SpawnDue(time)) then time else old(lastSpawnTime))
        && Books() == ApplyEvents(old(Books()).(round := old(roundState).(enemiesSpawned :=
             old(roundState.enemiesSpawned) + (if old(SpawnDue(time)) then 1 else 0))), events)
      ensures !old(isPaused) ==>
        && |spawned| == (if old(SpawnDue(time)) then 1 else 0)
        && tick.list == old(level.enemies) + spawned && fresh(spawned)
        && (forall e :: e in old(level.Poses()) ==> e in tick.from && tick.from[e] == old(level.Poses())[e])
        && tick.aims == old(level.Aims())
        && forall t :: t == tick ==>
             level.Ticked(now, FrameDelta(time, old(lastTime), old(gameState.gameSpeed)), move, events, t)
      ensures old(Accounted()) ==> Accounted()
      ensures old(TowersCounted()) ==> TowersCounted()
      ensures old(roundState.isComplete) && old(Accounted()) ==>
        events == [] && gameState == old(gameState) && roundState == old(roundState) && pending == old(pending)
    {
      if isPaused {
        return [], [], Tick([], map[], map[], [], [], [], [], [], []);
      }
      events, spawned, tick := Frame(time, now, drawSpawn, drawPath, drawElite, drawType, move);
    }

    /** The part of `animate(time)` past the pause check (see `Animate`). */
    method Frame(time: real, now: real, drawSpawn: real, drawPath: real, drawElite: real, drawType: real,
                 move: Mover) returns (events: seq<LevelEvent>, ghost spawned: seq<Enemy>, ghost tick: Tick)
      requires Valid()
      requires 0.0 <= drawSpawn < 1.0 && 0.0 <= drawPath < 1.0
      modifies this`lastTime, this`lastSpawnTime, this`gameState, this`roundState, this`pending
      modifies level`enemies, level.towers`currentTarget, level.towers`lastFireTime, level.enemies
      ensures Valid()
      ensures level.towers == old(level.towers)
      ensures lastTime == time
      ensures lastSpawnTime == (if old(SpawnDue(time)) then time else old(lastSpawnTime))
      ensures Books() == ApplyEvents(old(Books()).(round := old(roundState).(enemiesSpawned :=
        old(roundState.enemiesSpawned) + (if old(SpawnDue(time)) then 1 else 0))), events)
      ensures |spawned| == (if old(SpawnDue(time)) then 1 else 0)
      ensures tick.list == old(level.enemies) + spawned && fresh(spawned)
      ensures forall e :: e in old(level.Poses()) ==> e in tick.from && tick.from[e] == old(level.Poses())[e]
      ensures tick.aims == old(level.Aims())
      ensures forall t :: t == tick ==>
        level.Ticked(now, FrameDelta(time, old(lastTime), old(gameState.gameSpeed)), move, events, t)
      ensures old(Accounted()) ==> Accounted()
      ensures old(TowersCounted()) ==> TowersCounted()
      ensures old(roundState.isComplete) && old(Accounted()) ==>
        events == [] && gameState == old(gameState) && roundState == old(roundState) && pending == old(pending)
    {
      var deltaTime := FrameDelta(time, lastTime, gameState.gameSpeed);
      lastTime := time;
      spawned := SpawnIfDue(time, drawSpawn, drawPath, drawElite, drawType);
      events, tick := UpdateLevel(now, deltaTime, move);
    }

    /** The spawn step of `animate`: when the spawn gate is open, one enemy
        spawns (`SpawnEnemy`), is appended to the level's list and returned in
        `spawned`, and the spawn clock restarts at `time`; otherwise nothing
        changes. Only the spawn counter of the ledger moves, and the listed
        enemies and the towers keep their poses and aims. */
    method SpawnIfDue(time: real, drawSpawn: real, drawPath: real, drawElite: real, drawType: real)
      returns (ghost spawned: seq<Enemy>)
      requires Valid()
      requires 0.0 <= drawSpawn < 1.0 && 0.0 <= drawPath < 1.0
      modifies this`roundState, this`lastSpawnTime, level`enemies
      ensures Valid()
      ensures Books() == old(Books()).(round := old(roundState).(enemiesSpawned :=
        old(roundState.enemiesSpawned) + (if old(SpawnDue(time)) then 1 else 0)))
      ensures lastSpawnTime == (if old(SpawnDue(time)) then time else old(lastSpawnTime))
      ensures level.towers == old(level.towers) && level.Aims() == old(level.Aims())
      ensures forall e :: e in old(level.Poses()) ==> e in level.Poses() && level.Poses()[e] == old(level.Poses())[e]
      ensures |spawned| == (if old(SpawnDue(time)) then 1 else 0)
      ensures level.enemies == old(level.enemies) + spawned && fresh(spawned)
      ensures old(Accounted()) ==> Accounted()
    {
      spawned := [];
      if SpawnDue(time) {
        SpawnEnemy(drawSpawn, drawPath, drawElite, drawType);
        spawned := level.enemies[|old(level.enemies)|..];
        assert level.enemies == old(level.enemies) + spawned;
        lastSpawnTime := time;
      }
    }

    /** The level update of `animate` with its callbacks: the level ticks
        (`Level.Ticked`, recording the towers' turns and the enemies' moves in
        `tick`) and its `events` are applied to the game (`ApplyEvents`), one
        event per enemy the level drops, so the accounting of the round is
        kept, and an empty level raises no event. */
    method UpdateLevel(now: real, deltaTime: real, move: Mover) returns (events: seq<LevelEvent>, ghost tick: Tick)
      requires Valid()
      modifies this`gameState, this`roundState, this`pending, level`enemies, level.towers`currentTarget, level.towers`lastFireTime, level.enemies
      ensures Valid()
      ensures level.towers == old(level.towers) && level.selectedTower == old(level.selectedTower)
      ensures tick.list == old(level.enemies) && tick.from == old(level.Poses()) && tick.aims == old(level.Aims())
      ensures forall t :: t == tick ==> level.Ticked(now, deltaTime, move, events, t)
      ensures Books() == ApplyEvents(old(Books()), events)
      ensures |events| + |level.enemies| == old(|level.enemies|)
      ensures roundState.enemiesDefeated + roundState.enemiesReachedBase + |level.enemies| ==
        old(roundState.enemiesDefeated + roundState.enemiesReachedBase + |level.enemies|)
      ensures roundState.enemiesSpawned == old(roundState.enemiesSpawned)
      ensures gameState.towerCount == old(gameState.towerCount)
      ensures old(|level.enemies|) == 0 ==>
        events == [] && gameState == old(gameState) && roundState == old(roundState) && pending == old(pending)
    {
      events, tick := level.Update(now, deltaTime, move);
      label ticked:
      Dispatch(events);
      TickedKept@ticked(UpdateCall(level, now, deltaTime, move, events, tick));
    }

    /** Runs the continuation scheduled at position `k` of `pending`, and
        removes it; the pause clock, the frame clock and the panel's tower type
        are untouched. The next round counts up the round, resets it and
        restarts the spawn clock. The next level does what `startLevel(level +
        1)` does: up to level 3 a fresh, empty level with round 1 and no towers,
        keeping points and base health; past level 3 nothing. The restart
        restores the initial game state and starts level 1. The new round
        record is accounted exactly when the level has no enemy left, which a
        completed, accounted round guarantees; a new level always is. */
    method FirePending(k: nat, now: real)
      requires Valid() && k < |pending|
      modifies this
      ensures Valid()
      ensures pending == RemoveAt(old(pending), k)
      ensures isPaused == old(isPaused) && lastTime == old(lastTime) && lastPauseTime == old(lastPauseTime)
      ensures selectedTowerType == old(selectedTowerType)
      ensures old(pending[k]) == AdvanceRound ==>
        && level == old(level)
        && gameState == old(gameState).(currentRound := old(gameState.currentRound) + 1)
        && roundState == FreshRound(gameState.currentRound) && lastSpawnTime == now
        && (Accounted() <==> |level.enemies| == 0)
      ensures old(pending[k]) == AdvanceLevel ==>
        if old(gameState.currentLevel) < 3 then
          && fresh(level) && level.config == Configs[old(gameState.currentLevel)]
          && level.towers == [] && level.enemies == [] && level.selectedTower == null
          && gameState == old(gameState).(currentLevel := old(gameState.currentLevel) + 1, currentRound := 1, towerCount := 0)
          && roundState == FreshRound(1) && lastSpawnTime == now
          && Accounted() && TowersCounted()
        else
          && level == old(level) && gameState == old(gameState) && roundState == old(roundState)
          && lastSpawnTime == old(lastSpawnTime)
      ensures old(pending[k]) == Restart ==>
        && fresh(level) && level.config == Configs[0]
        && level.towers == [] && level.enemies == [] && level.selectedTower == null
        && gameState == InitialGameState.(currentLevel := 1, currentRound := 1, towerCount := 0)
        && roundState == FreshRound(1) && lastSpawnTime == now
        && Accounted() && TowersCounted()
    {
      var transition := pending[k];
      pending := RemoveAt(pending, k);
      match transition
      case AdvanceRound =>
        gameState := gameState.(currentRound := gameState.currentRound + 1);
        ResetRoundState(now);
      case AdvanceLevel =>
        StartLevel(gameState.currentLevel + 1, now);
      case Restart =>
        gameState := InitialGameState;
        StartLevel(1, now);
    }

    /** `togglePause()`: pausing remembers when; resuming moves the animation
        clock forward by the paused time. */
    method TogglePause(now: real)
      modifies this`isPaused, this`lastPauseTime, this`lastTime
      ensures isPaused == !old(isPaused)
      ensures !old(isPaused) ==> lastPauseTime == now && lastTime == old(lastTime)
      ensures old(isPaused) ==> lastTime == old(lastTime) + (now - old(lastPauseTime)) && lastPauseTime == old(lastPauseTime)
    {
      if !isPaused {
        lastPauseTime := now;
      } else {
        lastTime := lastTime + (now - lastPauseTime);
      }
      isPaused := !isPaused;
    }

    /** `setGameSpeed(speed)`, with one of the panel's positive speeds. */
    method SetGameSpeed(speed: real)
      requires Valid() && speed > 0.0
      modifies this`gameState
      ensures Valid()
      ensures gameState == old(gameState).(gameSpeed := speed)
    {
      gameState := gameState.(gameSpeed := speed);
    }

    /** `handleTowerSelect(type)`: the type is taken up for placement, and any
        tower selection cleared, only when the player can afford it and is
        below the cap. */
    method HandleTowerSelect(towerType: TowerType)
      modifies this`selectedTowerType, level`selectedTower
      ensures var allowed := gameState.points >= TowerStatsOf(towerType).cost && gameState.towerCount < MaxTowers;
        && (allowed ==> selectedTowerType == Some(towerType) && level.selectedTower == null)
        && (!allowed ==> selectedTowerType == old(selectedTowerType) && level.selectedTower == old(level.selectedTower))
    {
      var cost := TowerStatsOf(towerType).cost;
      if gameState.points < cost {
        return;
      }
      if gameState.towerCount >= MaxTowers {
        return;
      }
      level.ClearTowerSelection();
      selectedTowerType := Some(towerType);
    }

    /** A click on the side panel's button for `towerType`. The panel first
        toggles its selected type (src/core/UI.ts:271-278): put down when it was
        this type, taken up otherwise; then `handleTowerSelect` runs. An
        affordable type below the cap therefore ends selected, even on a second
        click of the same button, and the tower selection is cleared. Otherwise
        the toggled value stays: a second click puts the type down, and a first
        click leaves an unaffordable type selected. */
    method ClickTowerButton(towerType: TowerType)
      modifies this`selectedTowerType, level`selectedTower
      ensures var allowed := gameState.points >= TowerStatsOf(towerType).cost && gameState.towerCount < MaxTowers;
        && (allowed ==> selectedTowerType == Some(towerType) && level.selectedTower == null)
        && (!allowed ==>
              && selectedTowerType == (if old(selectedTowerType) == Some(towerType) then None else Some(towerType))
              && level.selectedTower == old(level.selectedTower))
    {
      if selectedTowerType == Some(towerType) {
        selectedTowerType := None;
      } else {
        selectedTowerType := Some(towerType);
      }
      HandleTowerSelect(towerType);
    }

    /** `addTower(type, position)`: a tower of that type is built at the
        position exactly when the position is buildable. */
    method AddTower(towerType: TowerType, position: Vec3) returns (placed: bool)
      modifies level`towers
      ensures placed <==> !Blocked(level.config.pathNodes, position)
      ensures placed ==>
        && |level.towers| == |old(level.towers)| + 1
        && level.towers[..|old(level.towers)|] == old(level.towers)
        && var t := level.towers[|old(level.towers)|];
           fresh(t) && t.towerType == towerType && t.position == position && t.Valid()
      ensures !placed ==> level.towers == old(level.towers)
      ensures old(level.Valid()) ==> level.Valid()
    {
      placed := level.GetValidTowerPosition(position);
      if placed {
        var tower := new Tower(towerType, position);
        level.AddTower(tower);
      }
    }

    /** The effect of the placement branch of `onMouseClick` for the tower type
        selected before the click. With enough points, below the cap and on a
        buildable position, a fresh tower of that type is appended at the
        position, its cost is paid, the count goes up and the type is put down.
        Otherwise the game record and the tower list are untouched: at the cap
        the type is put down, and short of points or on a blocked position it
        stays selected. The tower selection never changes. */
    twostate predicate PlacementDone(position: Vec3)
      requires old(selectedTowerType).Some?
      reads this, level, level.towers
    {
      var towerType := old(selectedTowerType).value;
      var cost := TowerStatsOf(towerType).cost;
      var built := old(gameState.points) >= cost && old(gameState.towerCount) < MaxTowers
                   && !Blocked(level.config.pathNodes, position);
      && level == old(level) && level.selectedTower == old(level.selectedTower)
      && (built ==>
            && gameState == old(gameState).(points := old(gameState.points) - cost,
                                             towerCount := old(gameState.towerCount) + 1)
            && |level.towers| == |old(level.towers)| + 1
            && level.towers[..|old(level.towers)|] == old(level.towers)
            && selectedTowerType.None?
            && var t := level.towers[|old(level.towers)|];
               fresh(t) && t.towerType == towerType && t.position == position)
      && (!built ==> gameState == old(gameState) && level.towers == old(level.towers))
      && (!built && old(gameState.towerCount) >= MaxTowers ==> selectedTowerType.None?)
      && (!built && old(gameState.towerCount) < MaxTowers ==> selectedTowerType == old(selectedTowerType))
    }

    /** The placement branch of `onMouseClick`, taken while a tower type is
        selected (see `PlacementDone`). */
    method PlaceSelectedTower(position: Vec3)
      requires Valid() && selectedTowerType.Some?
      modifies this`gameState, this`selectedTowerType, level`towers
      ensures Valid()
      ensures PlacementDone(position)
      ensures old(TowersCounted()) ==> TowersCounted()
    {
      var towerType := selectedTowerType.value;
      var cost := TowerStatsOf(towerType).cost;
      if gameState.points >= cost && gameState.towerCount < MaxTowers {
        var placed := AddTower(towerType, position);
        if placed {
          gameState := gameState.(points := gameState.points - cost, towerCount := gameState.towerCount + 1);
          selectedTowerType := None;
        }
      } else if gameState.towerCount >= MaxTowers {
        selectedTowerType := None;
      }
    }

    /** The move branch of `onMouseClick`, taken while a placed tower is
        selected: on a buildable position the tower moves there and the
        selection is cleared; otherwise nothing changes. */
    method MoveSelectedTower(position: Vec3)
      requires Valid() && level.selectedTower != null
      modifies level.selectedTower`position, level`selectedTower
      ensures Valid()
      ensures var t := old(level.selectedTower);
        if !Blocked(level.config.pathNodes, position)
        then t.position == position && level.selectedTower == null
        else t.position == old(t.position) && level.selectedTower == t
    {
      var valid := level.GetValidTowerPosition(position);
      if valid {
        var moved := level.MoveTower(level.selectedTower, position);
        level.ClearTowerSelection();
      }
    }

    /** `onMouseClick` on the ground point `position`. While a tower type is
        selected, it places (`PlacementDone`). Otherwise, while a placed tower is
        selected, it moves that tower to a buildable position and clears the
        selection, or does nothing on a blocked one. Otherwise it selects the
        nearest tower closer than 1, the first on ties, or none. Only placement
        changes the game record or the tower list. */
    method OnMouseClick(position: Vec3)
      requires Valid()
      modifies this`gameState, this`selectedTowerType, level`towers, level`selectedTower, {level.selectedTower}`position
      ensures Valid()
      ensures old(TowersCounted()) ==> TowersCounted()
      ensures gameState.towerCount <= MaxTowers
      ensures old(selectedTowerType).Some? ==> PlacementDone(position)
      ensures old(selectedTowerType).Some? && old(level.selectedTower) != null ==>
        old(level.selectedTower).position == old(level.selectedTower.position)
      ensures old(selectedTowerType).None? ==>
        gameState == old(gameState) && level.towers == old(level.towers) && selectedTowerType.None?
      ensures old(selectedTowerType).None? && old(level.selectedTower) != null ==>
        var t := old(level.selectedTower);
        if !Blocked(level.config.pathNodes, position)
        then t.position == position && level.selectedTower == null
        else t.position == old(t.position) && level.selectedTower == t
      ensures old(selectedTowerType).None? && old(level.selectedTower) == null ==>
        && (level.selectedTower == null <==>
              forall j :: 0 <= j < |level.towers| ==> SqDist3(position, level.towers[j].position) >= 1.0)
        && (level.selectedTower != null ==>
              exists k :: level.IsFirstNearestTower(position, k) && level.towers[k] == level.selectedTower)
    {
      if selectedTowerType.Some? {
        PlaceSelectedTower(position);
      } else if level.selectedTower != null {
        MoveSelectedTower(position);
      } else {
        var tower := level.SelectTowerAtPosition(position);
      }
    }

    /** The remove button of a selected tower: half its cost, rounded down, is
        refunded and the count goes down, whether or not the tower is listed. A
        listed tower leaves the level at its first position, the others keep
        their order, and the selection is cleared when it was that tower; an
        unlisted tower leaves the level as it is. */
    method RemoveTower(tower: Tower)
      requires Valid()
      modifies this`gameState, level`towers, level`selectedTower
      ensures Valid()
      ensures gameState == old(gameState).(points := old(gameState.points) + TowerStatsOf(tower.towerType).cost / 2,
                                           towerCount := old(gameState.towerCount) - 1)
      ensures tower in old(level.towers) ==>
        && level.towers == RemoveAt(old(level.towers), IndexOf(old(level.towers), tower))
        && level.selectedTower == (if old(level.selectedTower) == tower then null else old(level.selectedTower))
      ensures tower !in old(level.towers) ==>
        level.towers == old(level.towers) && level.selectedTower == old(level.selectedTower)
      ensures tower in old(level.towers) && old(TowersCounted()) ==> TowersCounted()
    {
      var refund := TowerStatsOf(tower.towerType).cost / 2;
      level.RemoveTower(tower);
      gameState := gameState.(points := gameState.points + refund, towerCount := gameState.towerCount - 1);
    }
  }

  /** A completed round whose accounting holds has no enemy left in the level,
      so its scheduled next round starts accounted as well. */
  lemma CompletedRoundIsEmpty(g: Game)
    requires g.Valid() && g.Accounted() && g.roundState.isComplete
    ensures |g.level.enemies| == 0
  {
  }
}
