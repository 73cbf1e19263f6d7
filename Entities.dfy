/**
 * The gameplay records the entity factory attaches to the objects it builds:
 * monsters, projectiles and explosion particles. Meshes, materials, lights
 * and positions are not modelled; `id` stands for the identity of the object.
 */
module Entities {
  import opened Wrappers
  import opened Palette
  import opened Vectors
  import opened PlayerState

  datatype Entity =
    | Monster(id: nat, color: ColorType, hp: int, floatOffset: real)
    | Shot(id: nat, velocity: Vec3, shotColor: Option<ColorType>)
    | Spark(id: nat, life: real)

  type Enemy = e: Entity | e.Monster? witness Monster(0, Red, 1, 0.0)
  type Projectile = p: Entity | p.Shot? witness Shot(0, Zero, None)
  type Particle = p: Entity | p.Spark? witness Spark(0, 0.0)

  const ProjectileSpeed: real := 0.6
  const ParticleCount: nat := 12
  /** `Math.random()` calls made per particle: two for the offset, four for the velocity, one for the life. */
  const DrawsPerParticle: nat := 7
  const DrawsPerBurst: nat := ParticleCount * DrawsPerParticle

  /**
   * A source of `Math.random()` values: `rand(k)` is the k-th value drawn
   * during one frame. Every value lies in [0, 1).
   */
  ghost predicate Uniform(rand: nat -> real)
  {
    forall k: nat :: 0.0 <= rand(k) < 1.0
  }

  /** The monster record: the requested type, one hit point, a bobbing phase from `roll`. */
  function CreateMonster(id: nat, kind: ColorType, roll: real): (m: Enemy)
    requires 0.0 <= roll < 1.0
    ensures m.id == id && m.color == kind && m.hp == 1
    ensures 0.0 <= m.floatOffset < 100.0
  {
    Monster(id, kind, 1, roll * 100.0)
  }

  /**
   * The projectile record: the colour tag that was active when fired and a
   * velocity of 0.6 times the aim direction, so a unit direction moves 0.6 per frame.
   */
  function CreateProjectile(id: nat, dir: Vec3, colorData: ColorChoice): (p: Projectile)
    ensures p.id == id && p.shotColor == colorData.kind
    ensures p.velocity == Vec3(ProjectileSpeed * dir.x, ProjectileSpeed * dir.y, ProjectileSpeed * dir.z)
    ensures Norm2(p.velocity) == ProjectileSpeed * ProjectileSpeed * Norm2(dir)
    ensures Norm2(dir) == 1.0 ==> Norm2(p.velocity) == 0.36
  {
    ScaleNorm2(dir, ProjectileSpeed);
    Shot(id, Scale(dir, ProjectileSpeed), colorData.kind)
  }

  /** The life given to particle number i of a burst whose first draw is `draw`. */
  function SparkLife(rand: nat -> real, draw: nat, i: nat): (life: real)
    ensures Uniform(rand) ==> 30.0 <= life < 40.0
  {
    30.0 + rand(draw + DrawsPerParticle * i + 6) * 10.0
  }

  /** The twelve particles of one explosion, with consecutive fresh ids. */
  function Burst(nextId: nat, rand: nat -> real, draw: nat): (b: seq<Particle>)
    ensures |b| == ParticleCount
    ensures forall i :: 0 <= i < |b| ==> b[i].id == nextId + i && b[i].life == SparkLife(rand, draw, i)
  {
    seq(ParticleCount, (i: nat) requires i < ParticleCount => Spark(nextId + i, SparkLife(rand, draw, i)))
  }

  /** Every particle of a burst lives between 30 and 40 frames. */
  lemma BurstLives(nextId: nat, rand: nat -> real, draw: nat)
    requires Uniform(rand)
    ensures forall p :: p in Burst(nextId, rand, draw) ==> 30.0 <= p.life < 40.0
  {
    var b := Burst(nextId, rand, draw);
    forall p | p in b
      ensures 30.0 <= p.life < 40.0
    {
      var i :| 0 <= i < |b| && b[i] == p;
      var r := rand(draw + DrawsPerParticle * i + 6);
      assert 0.0 <= r < 1.0;
    }
  }

  /**
   * Appends one explosion to `particleList`: the old entries are kept as
   * they are and exactly twelve new particles follow them.
   */
  method CreateExplosion(particleList: seq<Particle>, nextId: nat, rand: nat -> real, draw: nat)
    returns (list: seq<Particle>, next: nat, drawn: nat)
    ensures list == particleList + Burst(nextId, rand, draw)
    ensures |list| == |particleList| + ParticleCount && list[..|particleList|] == particleList
    ensures next == nextId + ParticleCount && drawn == draw + DrawsPerBurst
  {
    list := particleList;
    var i := 0;
    while i < ParticleCount
      invariant 0 <= i <= ParticleCount
      invariant list == particleList + Burst(nextId, rand, draw)[..i]
    {
      list := list + [Spark(nextId + i, SparkLife(rand, draw, i))];
      i := i + 1;
    }
    assert Burst(nextId, rand, draw)[..ParticleCount] == Burst(nextId, rand, draw);
    next := nextId + ParticleCount;
    drawn := draw + DrawsPerBurst;
  }
}
