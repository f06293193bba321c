/** `LEVEL_CONFIGS` of src/core/LevelConfigs.ts: the three authored levels, and
    the lookup `LEVEL_CONFIGS[levelId - 1]` the director performs. */
module LevelConfigs {
  import opened Basics
  import opened State

  function V(x: real, y: real, z: real): Vec3 { Vec3(x, y, z) }

  const Configs: seq<LevelConfig> := [
    LevelConfig(1, "The Beginning",
      [V(-20.0, 0.0, -20.0)],
      V(20.0, 1.0, 20.0),
      [ [V(-20.0, 0.0, -20.0), V(-10.0, 0.0, -10.0), V(20.0, 0.0, 20.0)] ]),
    LevelConfig(2, "Split Paths",
      [V(-20.0, 0.0, -20.0), V(-20.0, 0.0, 20.0)],
      V(20.0, 1.0, 0.0),
      [ [V(-20.0, 0.0, -20.0), V(-10.0, 0.0, -10.0), V(0.0, 0.0, 0.0), V(20.0, 0.0, 0.0)],
        [V(-20.0, 0.0, 20.0), V(-10.0, 0.0, 10.0), V(0.0, 0.0, 0.0), V(20.0, 0.0, 0.0)] ]),
    LevelConfig(3, "The Maze",
      [V(-20.0, 0.0, 0.0), V(0.0, 0.0, -20.0)],
      V(20.0, 1.0, 20.0),
      [ [V(-20.0, 0.0, 0.0), V(-10.0, 0.0, 0.0), V(-10.0, 0.0, 10.0),
         V(0.0, 0.0, 10.0), V(0.0, 0.0, 20.0), V(20.0, 0.0, 20.0)],
        [V(0.0, 0.0, -20.0), V(0.0, 0.0, -10.0), V(10.0, 0.0, -10.0),
         V(10.0, 0.0, 0.0), V(20.0, 0.0, 10.0), V(20.0, 0.0, 20.0)] ])
  ]

  /** A path enemies can follow: at least three nodes, all on the ground, no two
      consecutive nodes equal, ending under the base. */
  ghost predicate WellFormedPath(path: seq<Vec3>, base: Vec3)
  {
    && |path| >= 3
    && (forall i :: 0 <= i < |path| ==> path[i].y == 0.0)
    && (forall i :: 0 < i < |path| ==> path[i - 1] != path[i])
    && path[|path| - 1].x == base.x && path[|path| - 1].z == base.z
  }

  /** The shape every authored level has: spawn points and paths exist, every
      path is well formed, and every spawn point is where some path begins. */
  ghost predicate WellFormedConfig(c: LevelConfig)
  {
    && |c.spawnPoints| >= 1
    && |c.pathNodes| >= 1
    && (forall p :: p in c.pathNodes ==> WellFormedPath(p, c.basePosition))
    && (forall s :: s in c.spawnPoints ==> exists p :: p in c.pathNodes && p[0] == s)
  }

  lemma Level1WellFormed()
    ensures WellFormedConfig(Configs[0])
  {
    var c := Configs[0];
    assert c.spawnPoints[0] == c.pathNodes[0][0];
  }

  lemma Level2WellFormed()
    ensures WellFormedConfig(Configs[1])
  {
    var c := Configs[1];
    assert c.spawnPoints[0] == c.pathNodes[0][0];
    assert c.spawnPoints[1] == c.pathNodes[1][0];
  }

  lemma Level3WellFormed()
    ensures WellFormedConfig(Configs[2])
  {
    var c := Configs[2];
    assert c.spawnPoints[0] == c.pathNodes[0][0];
    assert c.spawnPoints[1] == c.pathNodes[1][0];
  }

  /** Exactly three levels; the level at index i has id i + 1 and is well formed. */
  lemma ConfigsWellFormed()
    ensures |Configs| == 3
    ensures forall i :: 0 <= i < |Configs| ==> Configs[i].id == i + 1
    ensures forall i :: 0 <= i < |Configs| ==> WellFormedConfig(Configs[i])
  {
    Level1WellFormed();
    Level2WellFormed();
    Level3WellFormed();
  }

  /** `LEVEL_CONFIGS[levelId - 1]`, which is `undefined` outside 1..3. The id
      stored in the found config is the requested one. */
  function ConfigFor(levelId: int): (r: Option<LevelConfig>)
    ensures r.Some? <==> 1 <= levelId <= 3
    ensures r.Some? ==> r.value.id == levelId && WellFormedConfig(r.value)
  {
    ConfigsWellFormed();
    if 1 <= levelId <= |Configs| then Some(Configs[levelId - 1]) else None
  }
}
