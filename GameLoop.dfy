/**
 * One call of the controller's `loop`, as a function on the gameplay state:
 * when running, the spawner, the enemy pass, and, unless the player died,
 * the projectile and particle passes. The lemmas state what a frame keeps:
 * the lifecycle, the difficulty ramp, the score and the creation order of
 * every list.
 */
module GameLoop {
  import opened Entities
  import opened EntityLists
  import opened Combat

  /** Everything the frame rules read and write, besides the player's position. */
  datatype GameState = GameState(running: bool, isGameOver: bool, spawnRate: int, lastSpawn: int,
                                 enemies: seq<Enemy>, projectiles: seq<Projectile>, particles: seq<Particle>,
                                 nextId: nat, hp: int, score: int)

  /** The state after the spawner, and how many random values it drew. */
  datatype Spawned = Spawned(state: GameState, draw: nat)

  /**
   * The spawner: once a spawn is due it appends one monster (type from the
   * first draw, bobbing phase from the second), restarts the wait and
   * steps the difficulty ramp.
   */
  function SpawnPhase(g: GameState, now: int, rand: nat -> real): (s: Spawned)
    requires 0.0 <= rand(0) < 1.0 && 0.0 <= rand(1) < 1.0
    ensures s.draw == 0 || s.draw == DrawsPerSpawn
    ensures s.state.projectiles == g.projectiles && s.state.particles == g.particles
    ensures s.state.hp == g.hp && s.state.score == g.score && s.state.running == g.running
  {
    if SpawnDue(now, g.lastSpawn, g.spawnRate) then
      var enemy := CreateMonster(g.nextId, SpawnKind(rand(0)), rand(1));
      Spawned(g.(enemies := g.enemies + [enemy], nextId := g.nextId + 1, lastSpawn := now,
                 spawnRate := NextSpawnRate(g.spawnRate)), DrawsPerSpawn)
    else Spawned(g, 0)
  }

  /** The enemy loop; a death ends the run. */
  function EnemyStage(g: GameState, touching: set<nat>): (h: GameState)
    ensures h.hp <= g.hp && |h.enemies| <= |g.enemies|
    ensures h.isGameOver != g.isGameOver ==> h.isGameOver && !h.running
    ensures h.projectiles == g.projectiles && h.particles == g.particles
    ensures h.score == g.score && h.nextId == g.nextId && h.spawnRate == g.spawnRate && h.lastSpawn == g.lastSpawn
  {
    EnemyPassCost(g.enemies, g.hp, touching);
    var o := EnemyPass(g.enemies, g.hp, touching);
    if o.dead then g.(enemies := o.enemies, hp := o.hp, running := false, isGameOver := true)
    else g.(enemies := o.enemies, hp := o.hp)
  }

  /** The projectile loop, drawing random values from `draw` on. */
  function ProjectileStage(g: GameState, draw: nat, prox: Proximity, rand: nat -> real): GameState
  {
    var v := ProjectilePass(g.projectiles, Arena(g.enemies, g.particles, g.score, g.nextId, draw),
                            prox.near, prox.outOfRange, rand);
    g.(projectiles := v.projectiles, enemies := v.arena.enemies, particles := v.arena.particles,
       score := v.arena.score, nextId := v.arena.nextId)
  }

  /** The particle loop. */
  function ParticleStage(g: GameState): GameState
  {
    g.(particles := ParticlePass(g.particles))
  }

  /** One frame at time `now`: nothing changes unless running; a death skips the last two passes. */
  function Frame(g: GameState, now: int, rand: nat -> real, prox: Proximity): (f: GameState)
    requires Uniform(rand)
    ensures !g.running ==> f == g
    ensures f.hp <= g.hp && f.nextId >= g.nextId
  {
    if !g.running then g
    else
      var s := SpawnPhase(g, now, rand);
      var h := EnemyStage(s.state, prox.touching);
      if !h.running && h.isGameOver then h
      else
        ProjectilePassScore(h.projectiles, Arena(h.enemies, h.particles, h.score, h.nextId, s.draw),
                            prox.near, prox.outOfRange, rand);
        ParticleStage(ProjectileStage(h, s.draw, prox, rand))
  }

  /**
   * The lifecycle: the spawn rate is one the ramp can reach, a running game
   * is not over, and a player whose game is not over is alive.
   */
  predicate Lifecycle(g: GameState)
  {
    SpawnRateOk(g.spawnRate) && (g.running ==> !g.isGameOver) && (!g.isGameOver ==> g.hp > 0)
  }

  /** Every list is in creation order, below the next identity to hand out. */
  predicate ListsOk(g: GameState)
  {
    Ordered(g.enemies, g.nextId) && Ordered(g.projectiles, g.nextId) && Ordered(g.particles, g.nextId)
  }

  /**
   * When a spawn is due the spawner keeps the old enemies, appends one
   * monster of one of the six types with the next identity, restarts the
   * wait at `now` and steps the ramp by exactly 15 above the minimum;
   * otherwise it changes nothing and draws nothing.
   */
  lemma SpawnPhasePacing(g: GameState, now: int, rand: nat -> real)
    requires 0.0 <= rand(0) < 1.0 && 0.0 <= rand(1) < 1.0 && SpawnRateOk(g.spawnRate)
    ensures var s := SpawnPhase(g, now, rand).state;
      SpawnRateOk(s.spawnRate) && s.spawnRate <= g.spawnRate
      && (s.spawnRate == g.spawnRate - SpawnRateStep <==> SpawnDue(now, g.lastSpawn, g.spawnRate) && g.spawnRate > MinSpawnRate)
      && |s.enemies| == |g.enemies| + (if SpawnDue(now, g.lastSpawn, g.spawnRate) then 1 else 0)
      && s.enemies[..|g.enemies|] == g.enemies
      && s.lastSpawn == (if SpawnDue(now, g.lastSpawn, g.spawnRate) then now else g.lastSpawn)
      && s.running == g.running && s.isGameOver == g.isGameOver && s.hp == g.hp && s.score == g.score
    ensures var s := SpawnPhase(g, now, rand).state;
      SpawnDue(now, g.lastSpawn, g.spawnRate) ==>
        s.enemies[|g.enemies|].id == g.nextId && s.enemies[|g.enemies|].color in SpawnTypes
        && s.enemies[|g.enemies|].hp == 1 && s.nextId == g.nextId + 1
    ensures !SpawnDue(now, g.lastSpawn, g.spawnRate) ==> SpawnPhase(g, now, rand) == Spawned(g, 0)
  {
    SpawnRateStaysOk(g.spawnRate);
  }

  /** After the enemy pass the player is alive, or the game is over and no longer running. */
  lemma EnemyStageLifecycle(g: GameState, touching: set<nat>)
    requires Lifecycle(g) && g.running
    ensures var h := EnemyStage(g, touching);
      Lifecycle(h) && h.spawnRate == g.spawnRate && h.score == g.score && h.hp <= g.hp
      && (h.isGameOver <==> g.hp - ContactDamage * Contacts(g.enemies, touching) <= 0)
  {
    EnemyPassDeath(g.enemies, g.hp, touching);
    EnemyPassCost(g.enemies, g.hp, touching);
  }

  /**
   * The difficulty only ramps up and the score only grows: a frame keeps the
   * lifecycle, and the spawn rate drops, by exactly 15, only in a running
   * frame whose spawn is due while the rate is above the minimum.
   */
  lemma FramePacing(g: GameState, now: int, rand: nat -> real, prox: Proximity)
    requires Lifecycle(g) && Uniform(rand)
    ensures var f := Frame(g, now, rand, prox);
      Lifecycle(f) && f.spawnRate <= g.spawnRate && f.score >= g.score
      && (f.spawnRate == g.spawnRate - SpawnRateStep
          <==> g.running && SpawnDue(now, g.lastSpawn, g.spawnRate) && g.spawnRate > MinSpawnRate)
  {
    if g.running {
      var s := SpawnPhase(g, now, rand);
      SpawnPhasePacing(g, now, rand);
      EnemyStageLifecycle(s.state, prox.touching);
      var h := EnemyStage(s.state, prox.touching);
      if !(!h.running && h.isGameOver) {
        var a := Arena(h.enemies, h.particles, h.score, h.nextId, s.draw);
        ProjectilePassScore(h.projectiles, a, prox.near, prox.outOfRange, rand);
      }
    }
  }

  /**
   * The frame in which the player dies ends with the game over and nothing
   * else of that frame happening: projectiles, particles and score stay as
   * they were and every later frame changes nothing.
   */
  lemma FrameDeath(g: GameState, now: int, rand: nat -> real, prox: Proximity, now2: int, rand2: nat -> real, prox2: Proximity)
    requires Lifecycle(g) && Uniform(rand) && Uniform(rand2) && g.running
    requires var s := SpawnPhase(g, now, rand).state;
      s.hp - ContactDamage * Contacts(s.enemies, prox.touching) <= 0
    ensures var f := Frame(g, now, rand, prox);
      f.isGameOver && !f.running && f.hp <= 0
      && f.projectiles == g.projectiles && f.particles == g.particles && f.score == g.score
      && Frame(f, now2, rand2, prox2) == f
  {
    var s := SpawnPhase(g, now, rand);
    SpawnPhasePacing(g, now, rand);
    EnemyStageLifecycle(s.state, prox.touching);
    EnemyPassDeath(s.state.enemies, s.state.hp, prox.touching);
  }

  /** The spawner appends with the next identity, which keeps the order. */
  lemma SpawnPhaseOrdered(g: GameState, now: int, rand: nat -> real)
    requires 0.0 <= rand(0) < 1.0 && 0.0 <= rand(1) < 1.0 && ListsOk(g)
    ensures ListsOk(SpawnPhase(g, now, rand).state)
  {
    if SpawnDue(now, g.lastSpawn, g.spawnRate) {
      var enemy := CreateMonster(g.nextId, SpawnKind(rand(0)), rand(1));
      OrderedAppend(g.enemies, [enemy], g.nextId);
      OrderedWeaken(g.projectiles, g.nextId, g.nextId + 1);
      OrderedWeaken(g.particles, g.nextId, g.nextId + 1);
    }
  }

  /** The projectile pass keeps every list in order. */
  lemma ProjectileStageOrdered(h: GameState, draw: nat, prox: Proximity, rand: nat -> real)
    requires ListsOk(h)
    ensures ListsOk(ProjectileStage(h, draw, prox, rand))
  {
    var a := Arena(h.enemies, h.particles, h.score, h.nextId, draw);
    var v := ProjectilePass(h.projectiles, a, prox.near, prox.outOfRange, rand);
    ProjectilePassOrdered(h.projectiles, a, prox.near, prox.outOfRange, rand);
    ProjectilePassKept(h.projectiles, a, prox.near, prox.outOfRange, rand, h.nextId);
    OrderedWeaken(v.projectiles, h.nextId, v.arena.nextId);
  }

  /** Every pass of a frame keeps the lists in creation order. */
  lemma FrameOrdered(g: GameState, now: int, rand: nat -> real, prox: Proximity)
    requires ListsOk(g) && Uniform(rand)
    ensures ListsOk(Frame(g, now, rand, prox))
  {
    if g.running {
      var s := SpawnPhase(g, now, rand);
      SpawnPhaseOrdered(g, now, rand);
      EnemyPassOrdered(s.state.enemies, s.state.hp, prox.touching, s.state.nextId);
      var h := EnemyStage(s.state, prox.touching);
      if !(!h.running && h.isGameOver) {
        ProjectileStageOrdered(h, s.draw, prox, rand);
        var p := ProjectileStage(h, s.draw, prox, rand);
        ParticlePassOrdered(p.particles, p.nextId);
      }
    }
  }
}
