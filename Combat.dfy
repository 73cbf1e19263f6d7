/**
 * The rules of one frame of the game loop, as pure functions over values:
 * spawn pacing, the enemy pass, the projectile pass and the particle pass.
 *
 * Each pass walks its list from the last element to the first, so the
 * function for a pass recurses on the list without its last element. The
 * controller in module Game runs the same passes in place; the loop
 * lemmas here describe one step of those loops, seen from the list as it
 * was when the loop began (`orig`): standing at index i, the live list is
 * `orig[..i + 1] + kept`, where `kept` are the entries after i that stayed.
 */
module Combat {
  import opened Wrappers
  import opened Palette
  import opened Entities
  import opened EntityLists

  const InitialSpawnRate: int := 3000
  const MinSpawnRate: int := 800
  const SpawnRateStep: int := 15
  const ContactDamage: int := 15
  const KillScore: int := 100
  /** `Math.random()` calls made by one spawn: type, bobbing phase, ring angle, ring distance. */
  const DrawsPerSpawn: nat := 4
  const SpawnTypes: seq<ColorType> := [Red, Yellow, Blue, Orange, Purple, Green]

  /**
   * The geometry of one frame, supplied by the caller as identities,
   * evaluated on the positions after each entity's own movement step:
   * enemies closer than 1.0 to the player, (projectile, enemy) pairs closer
   * than 1.2, and projectiles farther than 60 from the player. An enemy
   * moves only at its own step of the enemy loop and a projectile only at
   * its own step of the projectile loop, so each test has one answer per frame.
   */
  datatype Proximity = Proximity(touching: set<nat>, near: set<(nat, nat)>, outOfRange: set<nat>)

  // ----- spawn pacing -----

  /** A spawn is due only once strictly more than `spawnRate` has passed. */
  predicate SpawnDue(now: int, lastSpawn: int, spawnRate: int)
  {
    now - lastSpawn > spawnRate
  }

  /** The difficulty ramp: 15 less per spawn while above the minimum. */
  function NextSpawnRate(rate: int): (r: int)
    ensures r <= rate
    ensures r == rate - SpawnRateStep <==> rate > MinSpawnRate
    ensures r == rate <==> rate <= MinSpawnRate
  {
    if rate > MinSpawnRate then rate - SpawnRateStep else rate
  }

  /**
   * The spawn rates reachable from the initial one: multiples of 15 between
   * 795 and 3000. The floor is 795, not 800: 810 is above the minimum and
   * allows one more step.
   */
  predicate SpawnRateOk(rate: int)
  {
    MinSpawnRate - SpawnRateStep < rate <= InitialSpawnRate && rate % SpawnRateStep == 0
  }

  /** The ramp keeps the rate reachable, so it never goes below 800 - 15. */
  lemma SpawnRateStaysOk(rate: int)
    requires SpawnRateOk(rate)
    ensures SpawnRateOk(NextSpawnRate(rate))
    ensures NextSpawnRate(rate) >= MinSpawnRate - SpawnRateStep
  {
  }

  /** The spawn rate after n spawns of one life. */
  function RateAfter(n: nat): int
  {
    if n == 0 then InitialSpawnRate else NextSpawnRate(RateAfter(n - 1))
  }

  /** The ramp goes down 15 per spawn for 147 spawns and then stays at 795. */
  lemma {:induction false} RateAfterClosedForm(n: nat)
    ensures RateAfter(n) == if n <= 147 then InitialSpawnRate - SpawnRateStep * n else 795
    ensures SpawnRateOk(RateAfter(n))
  {
    if n > 0 {
      RateAfterClosedForm(n - 1);
    }
  }

  /** The enemy type picked by `types[Math.floor(Math.random() * types.length)]`. */
  function SpawnKind(roll: real): (t: ColorType)
    requires 0.0 <= roll < 1.0
    ensures t in SpawnTypes
  {
    var k := (roll * 6.0).Floor;
    assert 0 <= k < 6;
    SpawnTypes[k]
  }

  /** Every type is picked by a sixth of the unit interval. */
  lemma SpawnKindUniform(roll: real, k: nat)
    requires k < 6 && k as real / 6.0 <= roll < (k + 1) as real / 6.0
    ensures SpawnKind(roll) == SpawnTypes[k]
  {
    assert k as real <= roll * 6.0 < (k + 1) as real;
  }

  // ----- the enemy pass -----

  datatype EnemyOutcome = EnemyOutcome(enemies: seq<Enemy>, hp: int, dead: bool)

  /**
   * The enemy loop from the last enemy to the first: an enemy touching the
   * player costs 15 hp and is removed; if that kills the player the loop
   * stops and the enemies not yet visited stay.
   */
  function EnemyPass(es: seq<Enemy>, hp: int, touching: set<nat>): EnemyOutcome
    decreases |es|
  {
    if es == [] then EnemyOutcome([], hp, false)
    else
      var e, rest := es[|es| - 1], es[..|es| - 1];
      if e.id !in touching then
        var o := EnemyPass(rest, hp, touching);
        o.(enemies := o.enemies + [e])
      else if hp - ContactDamage <= 0 then EnemyOutcome(rest, hp - ContactDamage, true)
      else EnemyPass(rest, hp - ContactDamage, touching)
  }

  /** The enemies that do not touch the player, in their order. */
  function Untouched(es: seq<Enemy>, touching: set<nat>): seq<Enemy>
    decreases |es|
  {
    if es == [] then []
    else Untouched(es[..|es| - 1], touching) + (if es[|es| - 1].id in touching then [] else [es[|es| - 1]])
  }

  /** How many enemies touch the player. */
  function Contacts(es: seq<Enemy>, touching: set<nat>): nat
    decreases |es|
  {
    if es == [] then 0
    else Contacts(es[..|es| - 1], touching) + (if es[|es| - 1].id in touching then 1 else 0)
  }

  /** An enemy pass over a prefix, followed by enemies already dealt with. */
  function Resume(o: EnemyOutcome, suffix: seq<Enemy>): EnemyOutcome
  {
    o.(enemies := o.enemies + suffix)
  }

  /** When the player survives, every touching enemy is removed and costs exactly 15 hp. */
  lemma {:induction false} EnemyPassSurvived(es: seq<Enemy>, hp: int, touching: set<nat>)
    requires hp - ContactDamage * Contacts(es, touching) > 0
    ensures EnemyPass(es, hp, touching)
         == EnemyOutcome(Untouched(es, touching), hp - ContactDamage * Contacts(es, touching), false)
  {
    if es != [] {
      var rest := es[..|es| - 1];
      if es[|es| - 1].id in touching {
        EnemyPassSurvived(rest, hp - ContactDamage, touching);
      } else {
        EnemyPassSurvived(rest, hp, touching);
      }
    }
  }

  /**
   * Starting alive, the player dies in the pass exactly when all contacts
   * together take hp to zero or below, and then dies on the contact that
   * first does so.
   */
  lemma {:induction false} EnemyPassDeath(es: seq<Enemy>, hp: int, touching: set<nat>)
    requires hp > 0
    ensures EnemyPass(es, hp, touching).dead <==> hp - ContactDamage * Contacts(es, touching) <= 0
    ensures EnemyPass(es, hp, touching).dead ==> -ContactDamage < EnemyPass(es, hp, touching).hp <= 0
    ensures !EnemyPass(es, hp, touching).dead ==> EnemyPass(es, hp, touching).hp > 0
  {
    if es != [] {
      var rest := es[..|es| - 1];
      if es[|es| - 1].id !in touching {
        EnemyPassDeath(rest, hp, touching);
      } else if hp - ContactDamage > 0 {
        EnemyPassDeath(rest, hp - ContactDamage, touching);
      }
    }
  }

  /** Appending one enemy to the list appends it to the untouched ones unless it touches. */
  lemma UntouchedSnoc(s: seq<Enemy>, e: Enemy, touching: set<nat>)
    ensures Untouched(s + [e], touching) == Untouched(s, touching) + (if e.id in touching then [] else [e])
  {
    assert (s + [e])[..|s|] == s;
  }

  /** Slicing around position j of a list with one more entry at its end. */
  lemma SliceSnoc(rest: seq<Enemy>, e: Enemy, j: nat)
    requires j < |rest|
    ensures (rest + [e])[..j] == rest[..j] && (rest + [e])[j + 1..] == rest[j + 1..] + [e]
  {
  }

  /** The enemies left after a death, when the fatal contact is at position j. */
  function LeftAfterDeath(es: seq<Enemy>, j: nat, touching: set<nat>): seq<Enemy>
    requires j < |es|
  {
    es[..j] + Untouched(es[j + 1..], touching)
  }

  /** One more untouched or touched enemy after the fatal position extends what is left accordingly. */
  lemma LeftAfterDeathSnoc(rest: seq<Enemy>, e: Enemy, j: nat, touching: set<nat>)
    requires j < |rest|
    ensures LeftAfterDeath(rest + [e], j, touching)
         == LeftAfterDeath(rest, j, touching) + (if e.id in touching then [] else [e])
  {
    SliceSnoc(rest, e, j);
    UntouchedSnoc(rest[j + 1..], e, touching);
  }

  /**
   * On a death, the enemies left are those before the fatal one, none of
   * them visited, followed by the untouched ones the loop had passed.
   */
  lemma {:induction false} EnemyPassDeathRemains(es: seq<Enemy>, hp: int, touching: set<nat>)
    ensures var o := EnemyPass(es, hp, touching);
      o.dead ==> exists j :: 0 <= j < |es| && es[j].id in touching && o.enemies == LeftAfterDeath(es, j, touching)
    decreases |es|
  {
    var o := EnemyPass(es, hp, touching);
    if es != [] && o.dead {
      var e, rest := es[|es| - 1], es[..|es| - 1];
      assert es == rest + [e];
      if e.id !in touching || hp - ContactDamage > 0 {
        var hp' := if e.id in touching then hp - ContactDamage else hp;
        var o' := EnemyPass(rest, hp', touching);
        assert o.enemies == o'.enemies + (if e.id in touching then [] else [e]);
        EnemyPassDeathRemains(rest, hp', touching);
        var j :| 0 <= j < |rest| && rest[j].id in touching && o'.enemies == LeftAfterDeath(rest, j, touching);
        LeftAfterDeathSnoc(rest, e, j, touching);
        assert es[j] == rest[j];
      } else {
        assert LeftAfterDeath(es, |es| - 1, touching) == rest + [];
      }
    }
  }

  /** Only enemies of the list remain, and each one removed cost exactly 15 hp. */
  lemma {:induction false} EnemyPassCost(es: seq<Enemy>, hp: int, touching: set<nat>)
    ensures var o := EnemyPass(es, hp, touching);
      |o.enemies| <= |es| && hp - o.hp == ContactDamage * (|es| - |o.enemies|)
      && forall e :: e in o.enemies ==> e in es
  {
    if es != [] {
      var rest := es[..|es| - 1];
      var e := es[|es| - 1];
      if e.id !in touching {
        EnemyPassCost(rest, hp, touching);
      } else if hp - ContactDamage > 0 {
        EnemyPassCost(rest, hp - ContactDamage, touching);
      }
    }
  }

  /** The enemies that stay keep their creation order. */
  lemma {:induction false} EnemyPassOrdered(es: seq<Enemy>, hp: int, touching: set<nat>, n: nat)
    requires Ordered(es, n)
    ensures Ordered(EnemyPass(es, hp, touching).enemies, n)
    decreases |es|
  {
    if es != [] {
      var e, rest := es[|es| - 1], es[..|es| - 1];
      if e.id !in touching {
        EnemyPassOrdered(rest, hp, touching, e.id);
        OrderedSnoc(EnemyPass(rest, hp, touching).enemies, e, n);
      } else if hp - ContactDamage <= 0 {
        OrderedWeaken(rest, e.id, n);
      } else {
        EnemyPassOrdered(rest, hp - ContactDamage, touching, e.id);
        OrderedWeaken(EnemyPass(rest, hp - ContactDamage, touching).enemies, e.id, n);
      }
    }
  }

  /** Before the first step of the reverse enemy loop the whole pass is left to do. */
  lemma EnemyLoopStart(orig: seq<Enemy>, hp: int, touching: set<nat>)
    ensures orig[..|orig|] + [] == orig
    ensures Resume(EnemyPass(orig[..|orig|], hp, touching), []) == EnemyPass(orig, hp, touching)
  {
    assert orig[..|orig|] == orig;
    assert EnemyPass(orig, hp, touching).enemies + [] == EnemyPass(orig, hp, touching).enemies;
  }

  /** After its last step only the kept enemies are left. */
  lemma EnemyLoopEnd(orig: seq<Enemy>, kept: seq<Enemy>, hp: int, touching: set<nat>)
    ensures orig[..0] + kept == kept
    ensures Resume(EnemyPass(orig[..0], hp, touching), kept) == EnemyOutcome(kept, hp, false)
  {
    assert orig[..0] == [];
  }

  /** The step at an enemy that does not touch the player: it joins the kept enemies. */
  lemma EnemyLoopSkip(orig: seq<Enemy>, kept: seq<Enemy>, i: nat, hp: int, touching: set<nat>)
    requires i < |orig| && orig[i].id !in touching
    ensures (orig[..i + 1] + kept)[i] == orig[i]
    ensures orig[..i + 1] + kept == orig[..i] + ([orig[i]] + kept)
    ensures Resume(EnemyPass(orig[..i + 1], hp, touching), kept)
         == Resume(EnemyPass(orig[..i], hp, touching), [orig[i]] + kept)
  {
    var done := orig[..i + 1];
    assert done[|done| - 1] == orig[i] && done[..|done| - 1] == orig[..i];
    assert done == orig[..i] + [orig[i]];
    var o := EnemyPass(orig[..i], hp, touching);
    assert o.enemies + [orig[i]] + kept == o.enemies + ([orig[i]] + kept);
  }

  /**
   * The step at an enemy touching the player: it is spliced out of the live
   * list and 15 hp are lost; the pass ends there when that kills the player.
   */
  lemma EnemyLoopHit(orig: seq<Enemy>, kept: seq<Enemy>, i: nat, hp: int, touching: set<nat>, n: nat)
    requires i < |orig| && orig[i].id in touching && Ordered(orig, n)
    ensures (orig[..i + 1] + kept)[i] == orig[i]
    ensures RemoveEntity(orig[..i + 1] + kept, orig[i]) == orig[..i] + kept
    ensures hp - ContactDamage <= 0 ==>
      Resume(EnemyPass(orig[..i + 1], hp, touching), kept) == EnemyOutcome(orig[..i] + kept, hp - ContactDamage, true)
    ensures hp - ContactDamage > 0 ==>
      Resume(EnemyPass(orig[..i + 1], hp, touching), kept) == Resume(EnemyPass(orig[..i], hp - ContactDamage, touching), kept)
  {
    var cur := orig[..i + 1] + kept;
    var done := orig[..i + 1];
    assert done[|done| - 1] == orig[i] && done[..|done| - 1] == orig[..i];
    assert cur[i] == orig[i] && cur[..i] == orig[..i] && cur[i + 1..] == kept;
    OrderedFresh(orig, n, i);
    RemoveFirstOccurrence(cur, i);
  }

  // ----- the projectile pass -----

  /** What the projectile pass changes besides the projectile list; `draw` is the random cursor. */
  datatype Arena = Arena(enemies: seq<Enemy>, particles: seq<Particle>, score: int, nextId: nat, draw: nat)

  /** The inner scan, from the last enemy down: the first one near the projectile, or -1. */
  function LastNear(p: Projectile, es: seq<Enemy>, near: set<(nat, nat)>): (j: int)
    ensures -1 <= j < |es|
    ensures j >= 0 ==> (p.id, es[j].id) in near
    ensures forall k :: j < k < |es| ==> (p.id, es[k].id) !in near
    decreases |es|
  {
    if es == [] then -1
    else if (p.id, es[|es| - 1].id) in near then |es| - 1
    else LastNear(p, es[..|es| - 1], near)
  }

  datatype Hit = Hit(arena: Arena, hit: bool)

  /**
   * One projectile against the enemies: any contact consumes it, but the
   * enemy dies (with an explosion and 100 points) only if the colours match.
   */
  function Strike(a: Arena, p: Projectile, near: set<(nat, nat)>, rand: nat -> real): (h: Hit)
    ensures h.hit <==> LastNear(p, a.enemies, near) >= 0
  {
    var j := LastNear(p, a.enemies, near);
    if j < 0 then Hit(a, false)
    else
      var e := a.enemies[j];
      if p.shotColor == Some(e.color) then
        Hit(Arena(RemoveEntity(a.enemies, e), a.particles + Burst(a.nextId, rand, a.draw),
                  a.score + KillScore, a.nextId + ParticleCount, a.draw + DrawsPerBurst), true)
      else Hit(a, true)
  }

  /** A projectile is consumed exactly when some enemy is near it. */
  lemma StrikeContact(a: Arena, p: Projectile, near: set<(nat, nat)>, rand: nat -> real)
    ensures Strike(a, p, near, rand).hit <==> exists k :: 0 <= k < |a.enemies| && (p.id, a.enemies[k].id) in near
  {
    var j := LastNear(p, a.enemies, near);
    if j >= 0 {
      assert (p.id, a.enemies[j].id) in near;
    }
  }

  /**
   * The colour lock: a projectile changes the arena only by killing the
   * enemy it found, and only when its colour is that enemy's colour; a wrong
   * colour is absorbed without effect. At most one enemy dies per projectile.
   */
  lemma StrikeColorLock(a: Arena, p: Projectile, near: set<(nat, nat)>, rand: nat -> real)
    ensures var h, j := Strike(a, p, near, rand), LastNear(p, a.enemies, near);
      if h.hit && p.shotColor == Some(a.enemies[j].color) then
        |h.arena.enemies| == |a.enemies| - 1 && h.arena.score == a.score + KillScore
        && |h.arena.particles| == |a.particles| + ParticleCount
        && (Distinct(a.enemies) ==> h.arena.enemies == a.enemies[..j] + a.enemies[j + 1..])
      else h.arena == a
  {
    var j := LastNear(p, a.enemies, near);
    if j >= 0 {
      var e := a.enemies[j];
      if p.shotColor == Some(e.color) {
        assert e in a.enemies;
        if Distinct(a.enemies) {
          RemoveFirstOccurrence(a.enemies, j);
        }
      }
    }
  }

  /** A strike keeps the arena's lists in creation order and never takes identities back. */
  lemma StrikeOrdered(a: Arena, p: Projectile, near: set<(nat, nat)>, rand: nat -> real)
    requires Ordered(a.enemies, a.nextId) && Ordered(a.particles, a.nextId)
    ensures var b := Strike(a, p, near, rand).arena;
      a.nextId <= b.nextId && Ordered(b.enemies, b.nextId) && Ordered(b.particles, b.nextId)
  {
    var j := LastNear(p, a.enemies, near);
    if j >= 0 && p.shotColor == Some(a.enemies[j].color) {
      OrderedRemove(a.enemies, a.enemies[j], a.nextId);
      OrderedWeaken(RemoveEntity(a.enemies, a.enemies[j]), a.nextId, a.nextId + ParticleCount);
      OrderedAppend(a.particles, Burst(a.nextId, rand, a.draw), a.nextId);
    }
  }

  datatype Volley = Volley(projectiles: seq<Projectile>, arena: Arena)

  /**
   * The projectile loop from the last projectile to the first: a projectile
   * is dropped after a contact or once out of range, otherwise kept.
   */
  function ProjectilePass(ps: seq<Projectile>, a: Arena, near: set<(nat, nat)>, far: set<nat>, rand: nat -> real): (v: Volley)
    ensures |v.projectiles| <= |ps|
    decreases |ps|
  {
    if ps == [] then Volley([], a)
    else
      var p, rest := ps[|ps| - 1], ps[..|ps| - 1];
      var h := Strike(a, p, near, rand);
      var v := ProjectilePass(rest, h.arena, near, far, rand);
      if h.hit || p.id in far then v else v.(projectiles := v.projectiles + [p])
  }

  /** A projectile pass over a prefix, followed by projectiles already dealt with. */
  function ResumeVolley(v: Volley, suffix: seq<Projectile>): Volley
  {
    v.(projectiles := v.projectiles + suffix)
  }

  /** What one strike adds: 100 points, 12 particles after the old ones, 12 ids and 84 draws per kill. */
  lemma StrikeGain(a: Arena, p: Projectile, near: set<(nat, nat)>, rand: nat -> real)
    ensures var b := Strike(a, p, near, rand).arena; var k := |a.enemies| - |b.enemies|;
      (k == 0 || k == 1) && b.score == a.score + KillScore * k
      && |b.particles| == |a.particles| + ParticleCount * k && b.particles[..|a.particles|] == a.particles
      && b.nextId == a.nextId + ParticleCount * k && b.draw == a.draw + DrawsPerBurst * k
  {
    var j := LastNear(p, a.enemies, near);
    if j >= 0 && p.shotColor == Some(a.enemies[j].color) {
      assert a.enemies[j] in a.enemies;
      var b := Strike(a, p, near, rand).arena;
      assert b.particles[..|a.particles|] == a.particles;
    }
  }

  /**
   * Score is only earned by kills: k enemies killed in a pass raise the
   * score by exactly 100 k and add exactly 12 k particles, ids and 84 k draws.
   */
  lemma {:induction false} ProjectilePassScore(ps: seq<Projectile>, a: Arena, near: set<(nat, nat)>, far: set<nat>, rand: nat -> real)
    ensures var r := ProjectilePass(ps, a, near, far, rand).arena; var k := |a.enemies| - |r.enemies|;
      k >= 0 && r.score == a.score + KillScore * k
      && |r.particles| == |a.particles| + ParticleCount * k
      && r.nextId == a.nextId + ParticleCount * k && r.draw == a.draw + DrawsPerBurst * k
    decreases |ps|
  {
    if ps != [] {
      var p, rest := ps[|ps| - 1], ps[..|ps| - 1];
      var b := Strike(a, p, near, rand).arena;
      StrikeGain(a, p, near, rand);
      ProjectilePassScore(rest, b, near, far, rand);
      var r := ProjectilePass(rest, b, near, far, rand).arena;
      assert ProjectilePass(ps, a, near, far, rand).arena == r;
      var k1, k2 := |a.enemies| - |b.enemies|, |b.enemies| - |r.enemies|;
      assert KillScore * (k1 + k2) == KillScore * k1 + KillScore * k2;
      assert ParticleCount * (k1 + k2) == ParticleCount * k1 + ParticleCount * k2;
      assert DrawsPerBurst * (k1 + k2) == DrawsPerBurst * k1 + DrawsPerBurst * k2;
    }
  }

  /** The particles that were there before the pass are still there, first and unchanged. */
  lemma {:induction false} ProjectilePassParticles(ps: seq<Projectile>, a: Arena, near: set<(nat, nat)>, far: set<nat>, rand: nat -> real)
    ensures var r := ProjectilePass(ps, a, near, far, rand).arena;
      |a.particles| <= |r.particles| && r.particles[..|a.particles|] == a.particles
    decreases |ps|
  {
    if ps != [] {
      var p, rest := ps[|ps| - 1], ps[..|ps| - 1];
      var b := Strike(a, p, near, rand).arena;
      StrikeGain(a, p, near, rand);
      ProjectilePassParticles(rest, b, near, far, rand);
      var r := ProjectilePass(rest, b, near, far, rand).arena;
      assert ProjectilePass(ps, a, near, far, rand).arena == r;
      assert r.particles[..|a.particles|] == r.particles[..|b.particles|][..|a.particles|];
    }
  }

  /** Kept projectiles come from the list, in range, and in their order. */
  lemma {:induction false} ProjectilePassKept(ps: seq<Projectile>, a: Arena, near: set<(nat, nat)>, far: set<nat>, rand: nat -> real, m: nat)
    requires Ordered(ps, m)
    ensures var kept := ProjectilePass(ps, a, near, far, rand).projectiles;
      |kept| <= |ps| && Ordered(kept, m) && forall q :: q in kept ==> q in ps && q.id !in far
    decreases |ps|
  {
    if ps != [] {
      var p, rest := ps[|ps| - 1], ps[..|ps| - 1];
      var h := Strike(a, p, near, rand);
      ProjectilePassKept(rest, h.arena, near, far, rand, p.id);
      var kept := ProjectilePass(rest, h.arena, near, far, rand).projectiles;
      if h.hit || p.id in far {
        OrderedWeaken(kept, p.id, m);
      } else {
        OrderedSnoc(kept, p, m);
      }
    }
  }

  /** A strike removes enemies and adds none. */
  lemma StrikeShrinks(a: Arena, p: Projectile, near: set<(nat, nat)>, rand: nat -> real)
    ensures forall e :: e in Strike(a, p, near, rand).arena.enemies ==> e in a.enemies
  {
    var j := LastNear(p, a.enemies, near);
    if j >= 0 && p.shotColor == Some(a.enemies[j].color) {
      var gone := a.enemies[j];
      RemoveEntityMultiset(a.enemies, gone);
      forall e | e in RemoveEntity(a.enemies, gone)
        ensures e in a.enemies
      {
        assert multiset(RemoveEntity(a.enemies, gone))[e] > 0;
      }
    }
  }

  /** Neither does a whole pass add enemies. */
  lemma {:induction false} ProjectilePassShrinks(ps: seq<Projectile>, a: Arena, near: set<(nat, nat)>, far: set<nat>, rand: nat -> real)
    ensures forall e :: e in ProjectilePass(ps, a, near, far, rand).arena.enemies ==> e in a.enemies
    decreases |ps|
  {
    if ps != [] {
      var p, rest := ps[|ps| - 1], ps[..|ps| - 1];
      var h := Strike(a, p, near, rand);
      StrikeShrinks(a, p, near, rand);
      ProjectilePassShrinks(rest, h.arena, near, far, rand);
    }
  }

  /**
   * A projectile that touched an enemy is dropped: every projectile the pass
   * keeps is near none of the enemies left after it.
   */
  lemma {:induction false} ProjectilePassUntouched(ps: seq<Projectile>, a: Arena, near: set<(nat, nat)>, far: set<nat>, rand: nat -> real)
    ensures var v := ProjectilePass(ps, a, near, far, rand);
      forall q, e :: q in v.projectiles && e in v.arena.enemies ==> (q.id, e.id) !in near
    decreases |ps|
  {
    if ps != [] {
      var p, rest := ps[|ps| - 1], ps[..|ps| - 1];
      var h := Strike(a, p, near, rand);
      var v := ProjectilePass(rest, h.arena, near, far, rand);
      ProjectilePassUntouched(rest, h.arena, near, far, rand);
      if !(h.hit || p.id in far) {
        StrikeContact(a, p, near, rand);
        ProjectilePassShrinks(rest, h.arena, near, far, rand);
        forall e | e in v.arena.enemies
          ensures (p.id, e.id) !in near
        {
          var k :| 0 <= k < |a.enemies| && a.enemies[k] == e;
        }
      }
    }
  }

  /** The last projectile is met first: kept exactly when in range and striking nothing in `a`. */
  lemma ProjectilePassLast(ps: seq<Projectile>, a: Arena, near: set<(nat, nat)>, far: set<nat>, rand: nat -> real, m: nat)
    requires Ordered(ps, m) && ps != []
    ensures var p := ps[|ps| - 1];
      p in ProjectilePass(ps, a, near, far, rand).projectiles <==> p.id !in far && !Strike(a, p, near, rand).hit
  {
    var p, rest := ps[|ps| - 1], ps[..|ps| - 1];
    var h := Strike(a, p, near, rand);
    OrderedFresh(ps, m, |ps| - 1);
    ProjectilePassKept(rest, h.arena, near, far, rand, p.id);
  }

  /** An earlier projectile fares in the pass as in the pass over the rest, after the last one's strike. */
  lemma ProjectilePassEarlier(ps: seq<Projectile>, a: Arena, near: set<(nat, nat)>, far: set<nat>, rand: nat -> real, m: nat, i: nat)
    requires Ordered(ps, m) && i + 1 < |ps|
    ensures var rest, b := ps[..|ps| - 1], Strike(a, ps[|ps| - 1], near, rand).arena;
      rest[i] == ps[i]
      && (ps[i] in ProjectilePass(ps, a, near, far, rand).projectiles <==> ps[i] in ProjectilePass(rest, b, near, far, rand).projectiles)
      && ProjectilePass(ps[i + 1..], a, near, far, rand).arena == ProjectilePass(rest[i + 1..], b, near, far, rand).arena
  {
    var p, rest := ps[|ps| - 1], ps[..|ps| - 1];
    OrderedFresh(ps, m, |ps| - 1);
    assert ps[i] in rest && ps[i] != p;
    var suf := ps[i + 1..];
    assert suf[|suf| - 1] == p && suf[..|suf| - 1] == rest[i + 1..];
  }

  /**
   * Any contact consumes a projectile, matched or not: `ps[i]` is kept
   * exactly when it is in range and strikes nothing in the arena it meets,
   * the one left by the projectiles after it (the loop runs from the end).
   */
  lemma {:induction false} ProjectilePassConsumed(ps: seq<Projectile>, a: Arena, near: set<(nat, nat)>, far: set<nat>, rand: nat -> real, m: nat, i: nat)
    requires Ordered(ps, m) && i < |ps|
    ensures ps[i] in ProjectilePass(ps, a, near, far, rand).projectiles
        <==> ps[i].id !in far && !Strike(ProjectilePass(ps[i + 1..], a, near, far, rand).arena, ps[i], near, rand).hit
    decreases |ps|
  {
    if i == |ps| - 1 {
      ProjectilePassLast(ps, a, near, far, rand, m);
      assert ps[i + 1..] == [];
    } else {
      var p, rest := ps[|ps| - 1], ps[..|ps| - 1];
      var b := Strike(a, p, near, rand).arena;
      ProjectilePassEarlier(ps, a, near, far, rand, m, i);
      assert Ordered(rest, p.id);
      ProjectilePassConsumed(rest, b, near, far, rand, p.id, i);
    }
  }

  /** An in-range projectile near none of the enemies it meets is kept. */
  lemma {:induction false} ProjectilePassKeeps(ps: seq<Projectile>, a: Arena, near: set<(nat, nat)>, far: set<nat>, rand: nat -> real, q: Projectile)
    requires q in ps && q.id !in far
    requires forall e :: e in a.enemies ==> (q.id, e.id) !in near
    ensures q in ProjectilePass(ps, a, near, far, rand).projectiles
    decreases |ps|
  {
    var p, rest := ps[|ps| - 1], ps[..|ps| - 1];
    var h := Strike(a, p, near, rand);
    if q == p {
      StrikeContact(a, p, near, rand);
    } else {
      assert ps == rest + [p];
      StrikeShrinks(a, p, near, rand);
      ProjectilePassKeeps(rest, h.arena, near, far, rand, q);
    }
  }

  /** The projectiles that are in range, in their order. */
  function InRange(ps: seq<Projectile>, far: set<nat>): seq<Projectile>
    decreases |ps|
  {
    if ps == [] then []
    else InRange(ps[..|ps| - 1], far) + (if ps[|ps| - 1].id in far then [] else [ps[|ps| - 1]])
  }

  /** Without enemies nothing is hit: exactly the projectiles in range are kept. */
  lemma {:induction false} ProjectilePassNoEnemies(ps: seq<Projectile>, a: Arena, near: set<(nat, nat)>, far: set<nat>, rand: nat -> real)
    requires a.enemies == []
    ensures ProjectilePass(ps, a, near, far, rand) == Volley(InRange(ps, far), a)
  {
    if ps != [] {
      ProjectilePassNoEnemies(ps[..|ps| - 1], a, near, far, rand);
    }
  }

  /** The pass keeps enemies and particles in creation order and never takes identities back. */
  lemma {:induction false} ProjectilePassOrdered(ps: seq<Projectile>, a: Arena, near: set<(nat, nat)>, far: set<nat>, rand: nat -> real)
    requires Ordered(a.enemies, a.nextId) && Ordered(a.particles, a.nextId)
    ensures var b := ProjectilePass(ps, a, near, far, rand).arena;
      a.nextId <= b.nextId && Ordered(b.enemies, b.nextId) && Ordered(b.particles, b.nextId)
    decreases |ps|
  {
    if ps != [] {
      var p, rest := ps[|ps| - 1], ps[..|ps| - 1];
      StrikeOrdered(a, p, near, rand);
      ProjectilePassOrdered(rest, Strike(a, p, near, rand).arena, near, far, rand);
    }
  }

  /** Before the first step of the reverse projectile loop the whole pass is left to do. */
  lemma ProjectileLoopStart(orig: seq<Projectile>, a: Arena, near: set<(nat, nat)>, far: set<nat>, rand: nat -> real)
    ensures orig[..|orig|] + [] == orig
    ensures ResumeVolley(ProjectilePass(orig[..|orig|], a, near, far, rand), []) == ProjectilePass(orig, a, near, far, rand)
  {
    assert orig[..|orig|] == orig;
    var v := ProjectilePass(orig, a, near, far, rand);
    assert v.projectiles + [] == v.projectiles;
  }

  /** After its last step only the kept projectiles are left. */
  lemma ProjectileLoopEnd(orig: seq<Projectile>, kept: seq<Projectile>, a: Arena, near: set<(nat, nat)>, far: set<nat>, rand: nat -> real)
    ensures orig[..0] + kept == kept
    ensures ResumeVolley(ProjectilePass(orig[..0], a, near, far, rand), kept) == Volley(kept, a)
  {
    assert orig[..0] == [];
  }

  /** The step at a projectile that stays: it joins the kept projectiles. */
  lemma ProjectileLoopKeep(orig: seq<Projectile>, kept: seq<Projectile>, i: nat, a: Arena,
                           near: set<(nat, nat)>, far: set<nat>, rand: nat -> real)
    requires i < |orig|
    requires var h := Strike(a, orig[i], near, rand); !h.hit && orig[i].id !in far
    ensures orig[..i + 1] + kept == orig[..i] + ([orig[i]] + kept)
    ensures ResumeVolley(ProjectilePass(orig[..i + 1], a, near, far, rand), kept)
         == ResumeVolley(ProjectilePass(orig[..i], Strike(a, orig[i], near, rand).arena, near, far, rand), [orig[i]] + kept)
  {
    var done := orig[..i + 1];
    assert done[|done| - 1] == orig[i] && done[..|done| - 1] == orig[..i];
    assert done == orig[..i] + [orig[i]];
    var v := ProjectilePass(orig[..i], Strike(a, orig[i], near, rand).arena, near, far, rand);
    assert v.projectiles + [orig[i]] + kept == v.projectiles + ([orig[i]] + kept);
  }

  /** The step at a projectile that is consumed or out of range: it is spliced out. */
  lemma ProjectileLoopDrop(orig: seq<Projectile>, kept: seq<Projectile>, i: nat, a: Arena,
                           near: set<(nat, nat)>, far: set<nat>, rand: nat -> real, n: nat)
    requires i < |orig| && Ordered(orig, n)
    requires var h := Strike(a, orig[i], near, rand); h.hit || orig[i].id in far
    ensures RemoveEntity(orig[..i + 1] + kept, orig[i]) == orig[..i] + kept
    ensures ResumeVolley(ProjectilePass(orig[..i + 1], a, near, far, rand), kept)
         == ResumeVolley(ProjectilePass(orig[..i], Strike(a, orig[i], near, rand).arena, near, far, rand), kept)
  {
    var cur := orig[..i + 1] + kept;
    var done := orig[..i + 1];
    assert done[|done| - 1] == orig[i] && done[..|done| - 1] == orig[..i];
    assert cur[i] == orig[i] && cur[..i] == orig[..i] && cur[i + 1..] == kept;
    OrderedFirst(orig, n, i);
    RemoveFirstOccurrence(cur, i);
  }

  // ----- the particle pass -----

  /** One frame of a particle's life. */
  function Aged(p: Particle): Particle
  {
    p.(life := p.life - 1.0)
  }

  /**
   * The particle loop from the last particle to the first: every particle
   * loses one life and is removed once its life is zero or less.
   */
  function ParticlePass(ps: seq<Particle>): seq<Particle>
    decreases |ps|
  {
    if ps == [] then []
    else
      var q := Aged(ps[|ps| - 1]);
      ParticlePass(ps[..|ps| - 1]) + (if q.life <= 0.0 then [] else [q])
  }

  /** Particles age independently of each other. */
  lemma {:induction false} ParticlePassAppend(s: seq<Particle>, t: seq<Particle>)
    ensures ParticlePass(s + t) == ParticlePass(s) + ParticlePass(t)
    decreases |t|
  {
    if t == [] {
      assert s + t == s;
    } else {
      var front, q := t[..|t| - 1], Aged(t[|t| - 1]);
      assert (s + t)[..|s + t| - 1] == s + front && (s + t)[|s + t| - 1] == t[|t| - 1];
      ParticlePassAppend(s, front);
    }
  }

  /**
   * A particle survives the frame exactly when its life stays above zero,
   * and then only its life changes.
   */
  lemma {:induction false} ParticlePassMembers(ps: seq<Particle>, x: Particle)
    ensures x in ParticlePass(ps) <==> exists p :: p in ps && Aged(p).life > 0.0 && x == Aged(p)
    decreases |ps|
  {
    if ps != [] {
      var rest, last := ps[..|ps| - 1], ps[|ps| - 1];
      ParticlePassMembers(rest, x);
      assert ps == rest + [last];
      if x in ParticlePass(rest) {
        var p :| p in rest && Aged(p).life > 0.0 && x == Aged(p);
        assert p in ps;
      }
      if exists p :: p in ps && Aged(p).life > 0.0 && x == Aged(p) {
        var p :| p in ps && Aged(p).life > 0.0 && x == Aged(p);
        if p != last {
          assert p in rest;
        }
      }
    }
  }

  /** The survivors keep their creation order. */
  lemma {:induction false} ParticlePassOrdered(ps: seq<Particle>, n: nat)
    requires Ordered(ps, n)
    ensures Ordered(ParticlePass(ps), n)
    decreases |ps|
  {
    if ps != [] {
      var rest, last := ps[..|ps| - 1], ps[|ps| - 1];
      ParticlePassOrdered(rest, last.id);
      if Aged(last).life <= 0.0 {
        OrderedWeaken(ParticlePass(rest), last.id, n);
        assert ParticlePass(ps) == ParticlePass(rest) + [] == ParticlePass(rest);
      } else {
        OrderedSnoc(ParticlePass(rest), Aged(last), n);
      }
    }
  }

  /** Before the first step of the reverse particle loop the whole pass is left to do. */
  lemma ParticleLoopStart(orig: seq<Particle>)
    ensures orig[..|orig|] + [] == orig
    ensures ParticlePass(orig[..|orig|]) + [] == ParticlePass(orig)
  {
    assert orig[..|orig|] == orig;
  }

  /** After its last step only the kept particles are left. */
  lemma ParticleLoopEnd(orig: seq<Particle>, kept: seq<Particle>)
    ensures orig[..0] + kept == kept
    ensures ParticlePass(orig[..0]) + kept == kept
  {
    assert orig[..0] == [];
  }

  /** One step of the pass, at index i of the list it began with. */
  lemma ParticlePassStep(orig: seq<Particle>, i: nat)
    requires i < |orig|
    ensures ParticlePass(orig[..i + 1])
         == ParticlePass(orig[..i]) + (if Aged(orig[i]).life <= 0.0 then [] else [Aged(orig[i])])
  {
    var done := orig[..i + 1];
    assert done[|done| - 1] == orig[i] && done[..|done| - 1] == orig[..i];
  }

  /** The step at a particle whose life is spent: it ages in place and is spliced out. */
  lemma ParticleLoopDrop(orig: seq<Particle>, kept: seq<Particle>, i: nat, n: nat)
    requires i < |orig| && Ordered(orig, n) && Aged(orig[i]).life <= 0.0
    ensures (orig[..i + 1] + kept)[i] == orig[i]
    ensures RemoveEntity((orig[..i + 1] + kept)[i := Aged(orig[i])], Aged(orig[i])) == orig[..i] + kept
    ensures ParticlePass(orig[..i + 1]) + kept == ParticlePass(orig[..i]) + kept
  {
    var q := Aged(orig[i]);
    var upd := (orig[..i + 1] + kept)[i := q];
    ParticlePassStep(orig, i);
    assert ParticlePass(orig[..i]) + [] == ParticlePass(orig[..i]);
    assert upd[..i] == orig[..i] && upd[i + 1..] == kept && upd[i] == q;
    OrderedFirst(orig, n, i);
    assert q !in orig[..i];
    RemoveFirstOccurrence(upd, i);
  }

  /** The step at a particle still alive: it ages in place and joins the kept particles. */
  lemma ParticleLoopKeep(orig: seq<Particle>, kept: seq<Particle>, i: nat)
    requires i < |orig| && Aged(orig[i]).life > 0.0
    ensures (orig[..i + 1] + kept)[i] == orig[i]
    ensures (orig[..i + 1] + kept)[i := Aged(orig[i])] == orig[..i] + ([Aged(orig[i])] + kept)
    ensures ParticlePass(orig[..i + 1]) + kept == ParticlePass(orig[..i]) + ([Aged(orig[i])] + kept)
  {
    ParticlePassStep(orig, i);
    var upd := (orig[..i + 1] + kept)[i := Aged(orig[i])];
    assert upd == orig[..i] + ([Aged(orig[i])] + kept);
  }
}
