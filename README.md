# Tower defense: combat and round progression, modelled in Dafny

This project models the game logic of a browser tower-defense game written in
TypeScript: the stat tables of towers and enemies, the three authored levels,
enemies walking their paths, towers choosing and shooting targets, the level that
runs one tick of combat, and the game director (`class Game` in `src/main.ts`)
that keeps the economy, counts the enemies of each round and moves the game from
round to round and level to level. Rendering, input and timers are left out.

The modules follow the source files:

| module | file | source |
|---|---|---|
| `Basics` | basics.dfy | vectors, squared distances, and the JavaScript array operations used (`filter`, `indexOf`, `splice`) |
| `Types` | types.dfy | src/types/GameTypes.ts |
| `State` | state.dfy | src/types/GameState.ts |
| `Stats` | stats.dfy | src/types/GameStats.ts |
| `LevelConfigs` | level_configs.dfy | src/core/LevelConfigs.ts |
| `Enemies` | enemies.dfy | src/entities/Enemy.ts |
| `Towers` | towers.dfy | src/entities/Tower.ts |
| `Levels` | levels.dfy | src/core/Level.ts |
| `Director` | director.dfy | src/main.ts (class `Game`, logic only) |

Modelling choices:

- `Enemy`, `Tower`, `Level` and `Game` are classes. Their fields are updated in
  place, as in the source. Stat tables, configurations and the state records
  are datatypes and functions.
- Distances are compared as squares. The tower range test uses the squared
  distance on the ground plane. The other tests use the squared distance in
  three dimensions: tower selection, arrival at a waypoint and buildability.
  For non-negative numbers, `d < c` iff `d*d < c*c`, and the same holds for `<=`.
- The enemy's movement step (`normalize` and scale) is a parameter `move`.
  The "arrived within 0.1" test and the path-index logic are modelled exactly.
- The level's two callbacks become an ordered list of `LevelEvent`s returned by
  `Level.Update`. `Game.Dispatch` then applies them in that order. The callbacks
  only change the game and round records and schedule timers; they never touch
  the level. Applying them after the tick is therefore the same as applying them
  during it.
- Each `setTimeout` continuation is a `Transition` appended to `Game.pending`.
  `Game.FirePending(k, now)` runs any one of them. Nothing assumes the order in
  which timers fire.
- `performance.now()` and the animation frame time are parameters (`now`,
  `time`). The four `Math.random()` draws of `spawnEnemy` are parameters too.
- Numbers are `real`s, so damage 2.5 and speed 1.5 are exact.
- The level uses the corrected tower update `Tower.UpdateLive` (see
  "## Findings"). With it, the director proves an accounting invariant for every
  frame: the enemies defeated, plus those that reached the base, plus those
  still in the level, equal the enemies spawned in the round.

Behaviour of the code that a reader might not expect, which the model keeps:

- Starting a level keeps the points and the base health. It does not refill
  the base (src/main.ts:200-242).
- A completed round heals the base by 10 with no cap. Base health is never
  clamped at 0 (src/main.ts:221, src/main.ts:363).
- `maxBaseHealth` is never written after the initial state.
- The next round starts from a timer 2 seconds after completion
  (src/main.ts:375-378). Nothing else happens between rounds.
- The spawn point and the path of a new enemy are drawn independently
  (src/main.ts:262-264).
- The completion check runs again on every later event of a completed round
  (src/main.ts:356-381).
- The animation loop keeps running after the game is over, until the restart
  timer fires (src/main.ts:311-314, src/main.ts:392-395).
- The selected tower type is a field of the side panel (src/core/UI.ts:11). Its
  button first toggles the type and only then asks the game
  (src/core/UI.ts:271-278). So a type the player cannot afford stays selected,
  and placement checks the points again (src/main.ts:123).

## Model

| member | source | states |
|---|---|---|
| Types.BaseEnemyStatsOf | src/types/GameTypes.ts:30-49 | each base enemy entry is keyed by its own type and has positive health, speed and points |
| Types.CreateEnemyStats | src/types/GameTypes.ts:52-60 | the type, speed and elite flag come through unchanged; health and points are never below the base entry |
| Types.EliteDoublesHealthAndPoints | src/types/GameTypes.ts:56-57 | an elite has exactly twice the health and points of the plain enemy of its type, and the same speed |
| Types.PlainEnemyMatchesBase | src/types/GameTypes.ts:53-57 | a non-elite enemy has exactly the base table's health, points and speed |
| Types.TowerStatsOf | src/types/GameTypes.ts:66-88 | every tower entry is keyed by its own type; rate, damage and cost are positive; every range is defined and positive |
| Types.TowerCosts | src/types/GameTypes.ts:66-88 | the towers cost 50, 100 and 150 points |
| Types.EffectiveRange | src/entities/Tower.ts:88 | the tower's range when it is defined and non-zero, otherwise the fallback 10 |
| Types.RangeFallbackUnused | src/types/GameTypes.ts:66-88 | for every tower type the fallback range 10 is never used |
| State.CalculateRoundEnemies | src/types/GameState.ts:44-46 | at least 10 enemies from round 1 on |
| State.RoundEnemiesIncreasing | src/types/GameState.ts:44-46 | a later round always brings strictly more enemies |
| State.RoundEnemiesOfALevel | src/types/GameState.ts:44-46 | round r brings 10r enemies, between 10 and 50 for the five rounds of a level |
| State.CalculateBaseHealth | src/types/GameState.ts:49-51 | at least 100 from round 1 on |
| State.BaseHealthSteps | src/types/GameState.ts:49-51 | base health is 100 in round 1 and rises by 10 each round |
| State.InitialGameStateFacts | src/types/GameState.ts:31-41 | the game starts at level 1, round 1, with 300 points, no towers, normal speed, not over, not paused, and a full base at round 1's base health |
| State.FreshRound | src/main.ts:245-251 | a reset round has spawned and processed nothing, is not complete, and expects `10 * round` enemies |
| Stats.CreateEmptyTowerStats | src/types/GameStats.ts:32-36 | every tower type maps to 0 |
| Stats.CreateEmptyEnemyStats | src/types/GameStats.ts:38-42 | every enemy type maps to 0 |
| Stats.CreateEmptyLevelStats | src/types/GameStats.ts:44-51 | every counter and every per-type count is 0 |
| Stats.CreateEmptyGameStats | src/types/GameStats.ts:53-59 | no level recorded yet; every total is 0 |
| LevelConfigs.Level1WellFormed | src/core/LevelConfigs.ts:6-20 | level 1 is well formed: spawn points and paths exist, every path has at least 3 ground-level nodes with no repeated neighbours and ends under the base, and every spawn point starts a path |
| LevelConfigs.Level2WellFormed | src/core/LevelConfigs.ts:22-46 | level 2 is well formed in the same sense |
| LevelConfigs.Level3WellFormed | src/core/LevelConfigs.ts:48-76 | level 3 is well formed in the same sense |
| LevelConfigs.ConfigsWellFormed | src/core/LevelConfigs.ts:4-77 | exactly three levels; the one at index i has id i + 1 and is well formed |
| LevelConfigs.ConfigFor | src/main.ts:205-209 | `LEVEL_CONFIGS[levelId - 1]` exists exactly for ids 1 to 3, and the config found carries the requested id |
| Enemies.Enemy.constructor | src/entities/Enemy.ts:13-17 | a new enemy has the derived stats, full health, path index 0, and is alive |
| Enemies.Enemy.Update | src/entities/Enemy.ts:65-92 | a dead enemy, or one past its path, does nothing and reports false; otherwise it moves towards the current waypoint and advances the index by one only on arrival; it reports true exactly on the call that brings the index to the path's end |
| Enemies.Enemy.TakeDamage | src/entities/Enemy.ts:94-117 | health becomes `max(0, health - amount)`; the result is true exactly on the call that first leaves a live enemy without health; the dead flag latches |
| Towers.Tower.constructor | src/entities/Tower.ts:13-23 | a new tower has its type's stats, no target, and last fired at time 0 |
| Towers.Tower.FindTarget | src/entities/Tower.ts:91-112 | null exactly when no live enemy is in range; otherwise a live enemy in range at the least planar distance, the first in the list on ties |
| Towers.Tower.Update | src/entities/Tower.ts:58-79 | as written: before the cooldown, no hit and no change; after it, a missing, defeated or out-of-range target is replaced by `findTarget`, a surviving target is hit and the time recorded; a hit is live and in range, but may be a held target that is not in the list |
| Towers.Tower.UpdateLive | src/entities/Tower.ts:58-79 | corrected: the same as `Update` (`Shot`), except that a held target missing from the list is dropped first, so every hit is a live, in-range member of the list |
| Towers.Tower.MoveTo | src/entities/Tower.ts:150-153 | only the position changes; target and cooldown are untouched |
| Towers.Tower.GetStats | src/entities/Tower.ts:155-157 | the table entry of the tower's type |
| Towers.StaleTargetFirstHit | src/entities/Tower.ts:58-79 | a heavy tower at the origin, ready at 2000 ms, hits the one light enemy in range, at (1,0,0) on a one-waypoint path, holds it as its target and records the shot time; the enemy is left alive with 20 health |
| Towers.StaleTargetSetUp | src/entities/Enemy.ts:65-92 | after that first shot the enemy reaches the end of its one-waypoint path alive, still held as the tower's target |
| Towers.StaleTargetScenario | src/entities/Tower.ts:65-75 | after the enemy has reached the base and left the list, the as-written update returns that same enemy as its hit on both later calls against the empty list, and the second hit defeats it |
| Towers.LiveTargetScenario | src/entities/Tower.ts:65-75 | the corrected update hits nothing once that enemy has left the list |
| Levels.Level.constructor | src/core/Level.ts:21-28 | a new level has no towers, no enemies and no selection |
| Levels.Level.AddTower | src/core/Level.ts:77-80 | the tower is appended at the end; the level stays valid |
| Levels.Level.AddEnemy | src/core/Level.ts:82-85 | the enemy is appended at the end; a live, new enemy keeps the level valid |
| Levels.DamagedUnhit | src/core/Level.ts:89-97 | an enemy no tower hits keeps its health |
| Levels.DamagedBounds | src/core/Level.ts:89-97 | with non-negative damage, the towers never heal an enemy and never take its health below 0; a hit whose damage is at least the starting health leaves none |
| Levels.Level.TakeAim | src/core/Level.ts:90-91 | the tower's update against the list (`Tower.UpdateLive`, `Tower.Shot`): a hit is a live list member in range; the turn is recorded (`TookTurn`) against the poses, the aim before the update and the enemies down at that moment, and the towers still to act keep their aims |
| Levels.Level.Strike | src/core/Level.ts:91-95 | a hit enemy's health becomes `max(0, health - damage)`, no other enemy changes, and an enemy is dead exactly when it was before or has no health left; an event is raised exactly when the strike defeats an enemy alive before, with its points and its position in the list |
| Levels.Level.TowerTurn | src/core/Level.ts:90-96 | one tower's turn: the hit is the tower's own choice (`Tower.Shot`) and a list member, and the turn is recorded (`TookTurn`) against the aims and poses before the update and the enemies down before it; the hit's health becomes `max(0, health - damage)` and no other enemy changes; an enemy is dead afterwards exactly when it was before or has no health left; an event is raised exactly when the hit defeats an enemy that was alive, and it carries that enemy's points |
| Levels.Level.ApplyTowerHits | src/core/Level.ts:89-97 | towers act in list order; tower i's turn is recorded against the aims and poses before the update and the enemies the towers before it left without health (`TurnsTaken`, `DownBefore`): it hits only once its cooldown has elapsed, keeps a held target that is listed, alive and in range, or else hits the first nearest live enemy in range, or nothing when there is none, and records the shot time exactly when it hits; every enemy ends with the health `Damaged` computes by applying the hits in tower order, dead exactly at 0 (`HealthAfter`); one defeat event per enemy killed in this phase, with that enemy's points, no enemy reported twice; no enemy moves |
| Levels.MoveEnemies | src/core/Level.ts:100-115 | every enemy moves exactly as `Enemy.update` does from its position and path index before the pass (`Moved`); one arrival event per enemy that reached the end; an enemy is kept exactly when it neither reached the end nor is dead; health and death are untouched |
| Levels.Level.AdvanceEnemies | src/core/Level.ts:99-115 | every enemy of the old list moves (`Moved`); the new list is the old list filtered by the kept flags, in order, all alive and without repeats; one arrival event per enemy that reached the end |
| Levels.Level.Update | src/core/Level.ts:87-116 | the outcome (`Ticked`) is stated against the list, poses and aims before the update, which the record `tick` carries: the towers' turns, in order, as in `ApplyTowerHits`; each enemy then moves (`Moved`); every enemy of the old list is either killed in this tick, reached the base, or kept, and exactly one of these; the new list keeps the order; the events are one defeat per distinct victim, with its points, followed by the arrivals; events + live enemies = old list |
| Levels.Level.GetValidTowerPosition | src/core/Level.ts:126-138 | a position is buildable exactly when no path vertex other than a path's last one lies closer than 1 |
| Levels.Level.SelectTowerAtPosition | src/core/Level.ts:140-155 | null exactly when no tower lies closer than 1; otherwise the nearest such tower, the first on ties; the result becomes the selection |
| Levels.Level.ClearTowerSelection | src/core/Level.ts:161-163 | the selection is cleared |
| Levels.Level.RemoveTower | src/core/Level.ts:165-174 | a listed tower is removed at its first position, the others keep their order, and the selection is cleared exactly when it was that tower; an unlisted tower changes nothing |
| Levels.Level.MoveTower | src/core/Level.ts:176-183 | the tower moves, and the call reports true, exactly when the new position is buildable |
| Director.PickIndex | src/main.ts:262-264 | `floor(r * n)` for a draw in [0, 1) is a valid index into a list of n |
| Director.ChooseEnemyType | src/main.ts:268-280 | light exactly in rounds up to 3, or for draws below 0.7 up to round 7, or below 0.5 later; heavy exactly after round 7 for draws of 0.8 or more |
| Director.NoHeavyEnemyInPlay | src/main.ts:268-280 | rounds 1 to 5 never spawn a heavy enemy |
| Director.NextAfterRound | src/main.ts:366-379 | a completed round schedules the next round before round 5, the next level after round 5 of levels 1 and 2, and the restart after round 5 of level 3 |
| Director.ProgressionStaysInRange | src/main.ts:366-379 | from rounds 1 to 5 and levels 1 to 3, every scheduled step leads to a round and level within those ranges |
| Director.Game.constructor | src/main.ts:16-71 | the game starts from the initial state at level 1, round 1, with a fresh round, an empty level with no selection, both clocks (`lastTime`, `lastPauseTime`) at 0 and nothing pending |
| Director.Game.ResetRoundState | src/main.ts:244-256 | fresh counters for the current round; the spawn clock restarts |
| Director.Game.StartLevel | src/main.ts:200-242 | an unknown level changes nothing; a known one gets a fresh empty level, round 1, no towers and a reset round, and keeps points and base health |
| Director.Game.SpawnEnemy | src/main.ts:258-290 | a complete round spawns nothing; otherwise one fresh enemy of the chosen type, elite for a draw below 0.2, at a drawn spawn point on a drawn path, with full health, path index 0 and alive, is appended and counted |
| Director.Game.GameOver | src/main.ts:383-396 | the game is over and a restart is scheduled |
| Director.Game.CheckRoundCompletion | src/main.ts:356-381 | when the processed enemies reach the round total, the round is complete, the base heals by 10, and the next round, next level or victory restart is scheduled; otherwise nothing changes |
| Director.Game.OnEnemyDefeated | src/main.ts:230-234 | the points are credited, the defeat is counted, and completion is checked |
| Director.Game.OnEnemyReachBase | src/main.ts:220-229 | the base loses 5, the arrival is counted, completion is checked, and a base at 0 or below ends the game |
| Director.DefeatsPlusArrivals | src/core/Level.ts:93-104 | every event is a defeat or an arrival |
| Director.NoHealsBeforeDone | src/main.ts:356-363 | while the round is not done after the events, none of them heals the base |
| Director.ApplyEventsTotals | src/main.ts:219-235 | applying events counts each defeat and pays its points, counts each arrival and takes 5 from the base, heals 10 for each event after which the round is done, keeps level, round, towers and speed, keeps a game over, and only appends timers |
| Director.BaseDestroyedEndsGame | src/main.ts:220-228 | when the events hold an arrival and leave the base at 0 or below, the game is over by the end of the tick |
| Director.Game.Dispatch | src/main.ts:219-235 | the new game record, round record and pending timers are the events applied in order (`ApplyEvents`): each defeat pays its points, each arrival costs 5, completion heals and schedules; no events change nothing |
| Director.Game.Animate | src/main.ts:311-343 | a paused game does nothing; otherwise the frame time is recorded, at most one enemy spawns, exactly when the gate is open, and then the spawn clock is `time`; the level ticks (`Ticked`) with the frame's delta (`FrameDelta`) from the old list plus the spawned enemy, with the poses and aims from before the frame; its events are applied (`ApplyEvents`); the round's accounting is preserved; a completed, accounted round raises no event and changes nothing; no tower moves (only targets and shot times may change) |
| Director.Game.Frame | src/main.ts:316-330 | the frame past the pause check: the same outcome as `Animate` for a game that is not paused, with no tower moved |
| Director.Game.FrameDelta | src/main.ts:317 | for a positive speed and a frame time not before the last one, the simulated step lies between 0 and 0.1 seconds times the speed |
| Director.Game.SpawnIfDue | src/main.ts:320-326 | exactly when the spawn gate is open, one fresh enemy (`spawned`) is appended, the spawn counter rises by one and the spawn clock becomes `time`; otherwise nothing changes; the listed enemies keep their poses and the towers their aims |
| Director.Game.UpdateLevel | src/main.ts:328-330 | the level ticks (`Ticked`) from the list, poses and aims before the call, and that record still holds after the level's events are applied in order (`ApplyEvents`); one event per enemy the level drops, so processed + live stays constant; an empty level raises no event and changes nothing; no tower moves |
| Director.Game.FirePending | src/main.ts:366-379 | the fired timer is removed; the pause clock, frame clock and tower type are untouched; the next round keeps the level, resets the counters and the spawn clock, and is accounted exactly when no enemy is left; the next level, up to 3, and the restart start fresh, empty, accounted levels at round 1 with no towers and a reset spawn clock, the next level keeping points and base health; past level 3 nothing changes |
| Director.Game.TogglePause | src/main.ts:187-198 | pausing records the time; resuming shifts the animation clock by the paused time |
| Director.Game.SetGameSpeed | src/main.ts:398-401 | only the speed changes |
| Director.Game.HandleTowerSelect | src/main.ts:77-98 | the type is taken up, and the tower selection cleared, exactly when it is affordable and below the cap of 10 |
| Director.Game.ClickTowerButton | src/core/UI.ts:271-278 | the panel toggles the type, then the game's check runs: an affordable type below the cap ends selected with the tower selection cleared; otherwise the toggled value stays, put down if it was selected and selected if it was not |
| Director.Game.AddTower | src/main.ts:345-354 | a tower of the type is built at the position exactly when the position is buildable |
| Director.Game.PlaceSelectedTower | src/main.ts:120-142 | with enough points, below the cap and on a buildable position, a fresh tower of the selected type is appended at the position, the cost is paid, the count rises and the type is put down; otherwise points, count and towers are unchanged, the type is put down at the cap and stays selected below it |
| Director.Game.MoveSelectedTower | src/main.ts:143-150 | on a buildable position the selected tower moves and the selection clears; otherwise nothing changes |
| Director.Game.OnMouseClick | src/main.ts:105-179 | with a type selected it places as `PlacementDone` states and a selected tower keeps its position; otherwise, with a tower selected, it moves that tower to a buildable position and clears the selection, or does nothing; otherwise it selects the nearest tower closer than 1, the first on ties, or none; only placement changes points, count or towers |
| Director.Game.RemoveTower | src/main.ts:164-171 | half the cost, rounded down, is refunded and the count drops by one; a listed tower is removed at its first position with the others in order, and the selection is cleared if it was that tower; an unlisted tower leaves the level unchanged |
| Director.CompletedRoundIsEmpty | src/main.ts:356-363 | an accounted, completed round has no enemy left in the level |

## Left out

- src/core/HealthBar.ts is not part of this model. It only draws the base's
  health bar.
- src/core/UI.ts is not part of this model, except its tower-button handler
  (src/core/UI.ts:271-278), which `Director.Game.ClickTowerButton` models. The
  selected tower type that handler toggles is the director's
  `selectedTowerType` field. The rest of the file builds and styles DOM
  widgets and shows messages.
- Scene work is not modelled: meshes, materials, lights, path lines, the laser and
  hit flashes, raycasting and camera projection. A click arrives as a
  ground-plane point.
- `Level.cleanup` is not modelled. It only removes scene objects.
- Messages (`showMessage`) and `previousPoints` are not modelled. They only feed
  the UI.
- Window resize, mouse move, the Escape key and `requestAnimationFrame` are not
  modelled. The Escape key only calls `togglePause`.
- Enemies.Enemy.Update: the movement step is the parameter `move`, because
  `normalize` and `distanceTo` use square roots on floating point. The arrival
  test is exact on reals, on the squared distance.
- Timer delays are not modelled: 2000 ms between rounds and levels, 5000 ms
  before a restart. `FirePending` may run any pending continuation at any time.
- `currentRound` staying within 1..5 is not proved as an invariant of the game.
  A stale timer can advance a round after a restart has reset the game. The
  model proves only that each scheduling decision stays in range
  (`Director.ProgressionStaysInRange`).
- Director.Game.Animate: the accounting (defeated + arrived + live == spawned)
  is preserved by a frame, not required of every reachable state. A stale
  next-round timer that fires after a restart resets the counters while enemies
  are alive. `FirePending` re-establishes the accounting exactly when the level
  is empty.
- Director.Game.SetGameSpeed: requires a positive speed. The source does not
  check it, but every speed button offers 1, 1.5 or 2 (src/core/UI.ts:117-121).
- Director.Game.constructor: the first `animate(0)` call of the constructor is
  left to the caller, as a first `Animate` step.
- Before its first `startLevel`, the source's game has no level (`null`). The
  model always holds one, and the `!this.currentLevel` guards are never taken.
- `gameState.isPaused` is never written by the source's game. The director
  keeps its own `isPaused` field, as the source does.
- Getters that only copy a field are not separate members: `getPosition`,
  `getType`, `getMesh`, `getCurrentHealth`, `getSelectedTower`, and
  `Level.getTowerCount` (src/core/Level.ts:185-187), which nothing calls. `isDefeated`
  and `isInRange` are the predicates `Enemy.IsDefeated` and `Tower.IsInRange`.
- Floating-point rounding is not modelled: every number is an exact real.
- Towers.Tower.Update and Towers.Tower.UpdateLive: the tower's wall clock
  `now` is a parameter independent of the frame time. As in the source, towers
  do not slow down while the game is paused or speed up with the game speed.

## Findings

| source | as written | input that shows it | evidently intended | confidence | as-written member | corrected member |
|---|---|---|---|---|---|---|
| src/entities/Tower.ts:65-75 | a tower keeps its target while the target is alive and in range, and does not check that the target is still in the level's enemy list; an enemy that reached the base and was removed keeps getting hit, and its defeat is reported as well, so it is counted twice and pays out points | a heavy tower at (0,0,0) and a light enemy at (1,0,0) whose path is the single waypoint (2,0,0): the tower hits it at 2000 ms, the enemy reaches the base and leaves the list, then hits at 4000 and 6000 ms against the empty list defeat it | a tower only hits enemies that are still in the level's list | high; not executed | Towers.StaleTargetScenario | Towers.Tower.UpdateLive |
