/**
 * The game controller: the three entity lists, spawn pacing, the
 * lifecycle flags and the frame loop, updated in place. Every list is
 * walked from its end while entries are spliced out, which is why the
 * entries not yet visited never move.
 */
module Game {
  import opened Wrappers
  import opened Vectors
  import opened PlayerState
  import opened Entities
  import opened EntityLists
  import opened Combat
  import opened GameLoop

  class GameController {
    var running: bool
    var isGameOver: bool
    var enemies: seq<Enemy>
    var projectiles: seq<Projectile>
    var particles: seq<Particle>
    var spawnRate: int
    var lastSpawn: int
    /** The identity the next created object receives. */
    var nextId: nat
    const player: Player

    /** The gameplay state as a value. */
    function State(): GameState
      reads this, player
    {
      GameState(running, isGameOver, spawnRate, lastSpawn, enemies, projectiles, particles,
                nextId, player.hp, player.score)
    }

    /** The three lists are in creation order and hold only identities already handed out. */
    predicate ListsValid()
      reads this`enemies, this`projectiles, this`particles, this`nextId
    {
      Ordered(enemies, nextId) && Ordered(projectiles, nextId) && Ordered(particles, nextId)
    }

    predicate Valid()
      reads this, player
    {
      player.Valid() && Lifecycle(State()) && ListsValid()
    }

    constructor ()
      ensures Valid() && fresh(player) && player.AtStart()
      ensures State() == GameState(false, false, InitialSpawnRate, 0, [], [], [], 0, FullHp, 0)
    {
      running := false;
      isGameOver := false;
      enemies, projectiles, particles := [], [], [];
      spawnRate := InitialSpawnRate;
      lastSpawn := 0;
      nextId := 0;
      player := new Player();
    }

    /** Acquiring the pointer lock: ignored after game over. */
    method Start()
      requires Valid()
      modifies this`running
      ensures Valid()
      ensures running == if isGameOver then old(running) else true
    {
      if isGameOver {
        return;
      }
      running := true;
    }

    method Pause()
      requires Valid()
      modifies this`running
      ensures Valid() && !running
    {
      running := false;
    }

    method HandleGameOver()
      modifies this`running, this`isGameOver
      ensures !running && isGameOver
    {
      running := false;
      isGameOver := true;
    }

    /**
     * The restart button: empties every list, restores the pacing and the
     * player, clears game over and leaves `running` as it was.
     */
    method ResetGame(now: int)
      modifies this, player
      ensures Valid() && player.AtStart()
      ensures State() == GameState(old(running), false, InitialSpawnRate, now, [], [], [], old(nextId), FullHp, 0)
    {
      enemies, projectiles, particles := [], [], [];
      spawnRate := InitialSpawnRate;
      lastSpawn := now;
      isGameOver := false;
      player.Reset();
    }

    /** Appends one monster of the type picked by `typeRoll`. */
    method SpawnEnemy(typeRoll: real, floatRoll: real)
      requires 0.0 <= typeRoll < 1.0 && 0.0 <= floatRoll < 1.0 && ListsValid()
      modifies this`enemies, this`nextId
      ensures ListsValid()
      ensures enemies == old(enemies) + [CreateMonster(old(nextId), SpawnKind(typeRoll), floatRoll)]
      ensures nextId == old(nextId) + 1
    {
      var enemy := CreateMonster(nextId, SpawnKind(typeRoll), floatRoll);
      OrderedAppend(enemies, [enemy], nextId);
      OrderedWeaken(projectiles, nextId, nextId + 1);
      OrderedWeaken(particles, nextId, nextId + 1);
      enemies := enemies + [enemy];
      nextId := nextId + 1;
    }

    /**
     * Fires a projectile of the colour selected by `runes` along `dir`; does
     * nothing unless running and a colour is selected.
     */
    method Shoot(runes: Runes, dir: Vec3)
      requires Valid()
      modifies this`projectiles, this`nextId
      ensures Valid()
      ensures var col := GetColor(runes);
        if running && col.kind.Some? then
          projectiles == old(projectiles) + [CreateProjectile(old(nextId), dir, col)] && nextId == old(nextId) + 1
        else projectiles == old(projectiles) && nextId == old(nextId)
    {
      if !running {
        return;
      }
      var col := GetColor(runes);
      if col.kind.None? {
        return;
      }
      var proj := CreateProjectile(nextId, dir, col);
      OrderedAppend(projectiles, [proj], nextId);
      OrderedWeaken(enemies, nextId, nextId + 1);
      OrderedWeaken(particles, nextId, nextId + 1);
      projectiles := projectiles + [proj];
      nextId := nextId + 1;
    }

    /**
     * The spawner of a running frame: once strictly more than `spawnRate`
     * has passed since the last spawn, one monster is appended, the wait
     * restarts and the ramp steps down. Returns the random values drawn.
     */
    method RunSpawner(now: int, rand: nat -> real) returns (draw: nat)
      requires ListsValid() && 0.0 <= rand(0) < 1.0 && 0.0 <= rand(1) < 1.0
      modifies this`enemies, this`nextId, this`lastSpawn, this`spawnRate
      ensures ListsValid()
      ensures Spawned(State(), draw) == SpawnPhase(old(State()), now, rand)
    {
      ghost var g := State();
      draw := 0;
      if now - lastSpawn > spawnRate {
        SpawnEnemy(rand(0), rand(1));
        draw := DrawsPerSpawn;
        lastSpawn := now;
        if spawnRate > MinSpawnRate {
          spawnRate := spawnRate - SpawnRateStep;
        }
        ghost var s := SpawnPhase(g, now, rand).state;
        assert enemies == s.enemies && nextId == s.nextId;
        assert lastSpawn == s.lastSpawn && spawnRate == s.spawnRate;
      }
    }

    /** The inner scan of the projectile loop, from the last enemy down: the first one near `p`, or -1. */
    method FindTarget(p: Projectile, near: set<(nat, nat)>) returns (j: int)
      ensures j == LastNear(p, enemies, near)
    {
      j := |enemies| - 1;
      while j >= 0
        invariant -1 <= j < |enemies|
        invariant LastNear(p, enemies, near) == LastNear(p, enemies[..j + 1], near)
      {
        ghost var scanned := enemies[..j + 1];
        assert scanned[|scanned| - 1] == enemies[j] && scanned[..|scanned| - 1] == enemies[..j];
        if (p.id, enemies[j].id) in near {
          return;
        }
        j := j - 1;
      }
    }

    /**
     * One projectile against the enemies: the first enemy found near it is
     * killed, with an explosion drawing from `draw` on and 100 points, when
     * the colours match; `hit` says whether an enemy was found at all.
     */
    method StrikeEnemies(p: Projectile, near: set<(nat, nat)>, rand: nat -> real, draw: nat)
      returns (hit: bool, drawn: nat)
      modifies this`enemies, this`particles, this`nextId, player`score
      ensures Strike(Arena(old(enemies), old(particles), old(player.score), old(nextId), draw), p, near, rand)
           == Hit(Arena(enemies, particles, player.score, nextId, drawn), hit)
    {
      hit, drawn := false, draw;
      var j := FindTarget(p, near);
      if j >= 0 {
        var e := enemies[j];
        if p.shotColor == Some(e.color) {
          particles, nextId, drawn := CreateExplosion(particles, nextId, rand, draw);
          enemies := RemoveEntity(enemies, e);
          player.AddScore(KillScore);
        }
        hit := true;
      }
    }

    /** The enemy loop of a running frame, from the last enemy to the first. */
    method AdvanceEnemies(touching: set<nat>)
      requires Ordered(enemies, nextId) && running && !isGameOver
      modifies this`enemies, this`running, this`isGameOver, player`hp
      ensures var o := EnemyPass(old(enemies), old(player.hp), touching);
        enemies == o.enemies && player.hp == o.hp && running == !o.dead && isGameOver == o.dead
    {
      ghost var orig, hp0, kept := enemies, player.hp, [];
      EnemyLoopStart(orig, hp0, touching);
      var i := |enemies| - 1;
      while i >= 0
        invariant -1 <= i < |orig|
        invariant enemies == orig[..i + 1] + kept
        invariant running && !isGameOver
        invariant EnemyPass(orig, hp0, touching) == Resume(EnemyPass(orig[..i + 1], player.hp, touching), kept)
      {
        var e := enemies[i];
        if e.id in touching {
          EnemyLoopHit(orig, kept, i, player.hp, touching, nextId);
          var isDead := player.TakeDamage(ContactDamage);
          enemies := RemoveEntity(enemies, e);
          if isDead {
            HandleGameOver();
            return;
          }
        } else {
          EnemyLoopSkip(orig, kept, i, player.hp, touching);
          kept := [e] + kept;
        }
        assert enemies == orig[..i] + kept;
        assert EnemyPass(orig, hp0, touching) == Resume(EnemyPass(orig[..i], player.hp, touching), kept);
        i := i - 1;
      }
      EnemyLoopEnd(orig, kept, player.hp, touching);
    }

    /** The projectile loop of a running frame; `draw0` is the first unused random draw. */
    method AdvanceProjectiles(prox: Proximity, rand: nat -> real, draw0: nat)
      requires Ordered(projectiles, nextId)
      modifies this`projectiles, this`enemies, this`particles, this`nextId, player`score
      ensures State() == ProjectileStage(old(State()), draw0, prox, rand)
    {
      var near, far := prox.near, prox.outOfRange;
      ghost var orig, n0, kept := projectiles, nextId, [];
      ghost var a0 := Arena(enemies, particles, player.score, nextId, draw0);
      ProjectileLoopStart(orig, a0, near, far, rand);
      var draw := draw0;
      var i := |projectiles| - 1;
      while i >= 0
        invariant -1 <= i < |orig|
        invariant projectiles == orig[..i + 1] + kept
        invariant ProjectilePass(orig, a0, near, far, rand)
               == ResumeVolley(ProjectilePass(orig[..i + 1], Arena(enemies, particles, player.score, nextId, draw), near, far, rand), kept)
      {
        var p := projectiles[i];
        assert p == orig[i];
        ghost var a := Arena(enemies, particles, player.score, nextId, draw);
        var hit;
        hit, draw := StrikeEnemies(p, near, rand, draw);
        if hit || p.id in far {
          ProjectileLoopDrop(orig, kept, i, a, near, far, rand, n0);
          projectiles := RemoveEntity(projectiles, p);
        } else {
          ProjectileLoopKeep(orig, kept, i, a, near, far, rand);
          kept := [p] + kept;
        }
        assert projectiles == orig[..i] + kept;
        assert ProjectilePass(orig, a0, near, far, rand)
            == ResumeVolley(ProjectilePass(orig[..i], Arena(enemies, particles, player.score, nextId, draw), near, far, rand), kept);
        i := i - 1;
      }
      ProjectileLoopEnd(orig, kept, Arena(enemies, particles, player.score, nextId, draw), near, far, rand);
    }

    /** The particle loop: every particle ages by one and is removed once its life is spent. */
    method AdvanceParticles()
      requires Ordered(particles, nextId)
      modifies this`particles
      ensures particles == ParticlePass(old(particles))
    {
      ghost var orig, kept := particles, [];
      ParticleLoopStart(orig);
      var i := |particles| - 1;
      while i >= 0
        invariant -1 <= i < |orig|
        invariant particles == orig[..i + 1] + kept
        invariant ParticlePass(orig) == ParticlePass(orig[..i + 1]) + kept
      {
        var aged := Aged(particles[i]);
        if aged.life <= 0.0 {
          ParticleLoopDrop(orig, kept, i, nextId);
          particles := particles[i := aged];
          particles := RemoveEntity(particles, aged);
        } else {
          ParticleLoopKeep(orig, kept, i);
          particles := particles[i := aged];
          kept := [aged] + kept;
        }
        assert particles == orig[..i] + kept && ParticlePass(orig) == ParticlePass(orig[..i]) + kept;
        i := i - 1;
      }
      ParticleLoopEnd(orig, kept);
    }

    /**
     * The frame rules of a running `loop` call: the spawner, the enemy loop
     * and, unless the player died in it, the projectile and particle loops.
     */
    method RunFrame(now: int, rand: nat -> real, prox: Proximity)
      requires Lifecycle(State()) && ListsValid() && running && Uniform(rand)
      modifies this, player`hp, player`score
      ensures Lifecycle(State()) && ListsValid()
      ensures State() == Frame(old(State()), now, rand, prox)
    {
      ghost var g := State();
      FramePacing(g, now, rand, prox);
      FrameOrdered(g, now, rand, prox);
      var draw := RunSpawner(now, rand);
      ghost var t := State();
      EnemyPassOrdered(t.enemies, t.hp, prox.touching, t.nextId);
      AdvanceEnemies(prox.touching);
      ghost var h := EnemyStage(t, prox.touching);
      assert State() == h;
      if !(!running && isGameOver) {
        ProjectileStageOrdered(h, draw, prox, rand);
        AdvanceProjectiles(prox, rand, draw);
        AdvanceParticles();
        assert State() == ParticleStage(ProjectileStage(h, draw, prox, rand));
      }
    }

    /**
     * One call of `loop` at time `now`: when running, moves the player along
     * (dx, dz) and runs the frame rules; otherwise only renders.
     */
    method Tick(now: int, rand: nat -> real, dx: real, dz: real, prox: Proximity)
      requires Valid() && Uniform(rand)
      modifies this, player
      ensures Valid()
      ensures State() == Frame(old(State()), now, rand, prox)
      ensures player.position == if old(running) then Stepped(old(player.position), dx, dz) else old(player.position)
      ensures player.euler == old(player.euler)
    {
      if running {
        player.Move(dx, dz);
        RunFrame(now, rand, prox);
      }
    }
  }
}
