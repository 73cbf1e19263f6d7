/**
 * The player: rune-to-colour resolution, health and score arithmetic,
 * reset, and the clamps applied by movement and mouse look.
 */
module PlayerState {
  import opened Wrappers
  import opened Palette
  import opened Vectors

  /** The three rune flags toggled with the q, e and r keys. */
  datatype Runes = Runes(q: bool, e: bool, r: bool)

  const NoRunes: Runes := Runes(false, false, false)

  /** What the crystal shows: a hex colour and the colour tag, or `None` for grey. */
  datatype ColorChoice = ColorChoice(hex: int, kind: Option<ColorType>)

  /** Resolves the rune flags into the active colour by exact match. */
  function GetColor(runes: Runes): (c: ColorChoice)
    ensures c.kind.Some? ==> c.hex == Hex(c.kind.value)
    ensures c.kind.None? ==> c.hex == GreyHex
  {
    var Runes(q, e, r) := runes;
    if q && !e && !r then ColorChoice(Hex(Red), Some(Red))
    else if !q && e && !r then ColorChoice(Hex(Yellow), Some(Yellow))
    else if !q && !e && r then ColorChoice(Hex(Blue), Some(Blue))
    else if q && e && !r then ColorChoice(Hex(Orange), Some(Orange))
    else if q && !e && r then ColorChoice(Hex(Purple), Some(Purple))
    else if !q && e && r then ColorChoice(Hex(Green), Some(Green))
    else ColorChoice(GreyHex, None)
  }

  /** The one rune combination that selects each colour (the inverse table). */
  function RunesFor(t: ColorType): Runes
  {
    match t
    case Red => Runes(true, false, false)
    case Yellow => Runes(false, true, false)
    case Blue => Runes(false, false, true)
    case Orange => Runes(true, true, false)
    case Purple => Runes(true, false, true)
    case Green => Runes(false, true, true)
  }

  /** Number of flags that are set. */
  function Active(runes: Runes): (n: nat)
    ensures n <= 3
  {
    (if runes.q then 1 else 0) + (if runes.e then 1 else 0) + (if runes.r then 1 else 0)
  }

  /** A colour is selected exactly by its own combination: GetColor and RunesFor are inverse. */
  lemma GetColorExact(runes: Runes, t: ColorType)
    ensures GetColor(runes).kind == Some(t) <==> runes == RunesFor(t)
  {
  }

  /** No flag or all three flags give grey without a type; one or two flags always give a colour. */
  lemma GetColorNeutral(runes: Runes)
    ensures GetColor(runes).kind.None? <==> Active(runes) == 0 || Active(runes) == 3
    ensures Active(runes) == 1 ==> GetColor(runes).kind.value in {Red, Yellow, Blue}
    ensures Active(runes) == 2 ==> GetColor(runes).kind.value in {Orange, Purple, Green}
  {
  }

  /** `Math.max(lo, Math.min(hi, v))`. */
  function Clamp(v: real, lo: real, hi: real): (r: real)
    ensures lo <= hi ==> lo <= r <= hi
    ensures lo <= v <= hi ==> r == v
    ensures v > hi ==> r == (if lo <= hi then hi else lo)
    ensures v < lo ==> r == lo
  {
    var m := if v < hi then v else hi;
    if lo > m then lo else m
  }

  /** Clamping twice is clamping once. */
  lemma ClampIdempotent(v: real, lo: real, hi: real)
    requires lo <= hi
    ensures Clamp(Clamp(v, lo, hi), lo, hi) == Clamp(v, lo, hi)
  {
  }

  const MapLimit: real := 95.0
  const PitchLimit: real := 1.5
  const PlayerSpeed: real := 0.15
  const MouseSensitivity: real := 0.002
  const StartPosition: Vec3 := Vec3(0.0, 1.7, 0.0)
  const FullHp: int := 100

  /** The displayed health-bar width: stored hp clamped below at zero. */
  function HpPercent(hp: int): (w: int)
    ensures w >= 0
    ensures w == hp || (hp < 0 && w == 0)
  {
    if hp > 0 then hp else 0
  }

  /** Both horizontal coordinates lie inside the square map. */
  predicate InArena(p: Vec3)
  {
    -MapLimit <= p.x <= MapLimit && -MapLimit <= p.z <= MapLimit
  }

  /** Where one movement step from `p` along the planar direction (dx, dz) ends. */
  function Stepped(p: Vec3, dx: real, dz: real): (q: Vec3)
    ensures InArena(q) && q.y == p.y
    ensures InArena(Vec3(p.x + dx * PlayerSpeed, p.y, p.z + dz * PlayerSpeed)) ==>
              q == Vec3(p.x + dx * PlayerSpeed, p.y, p.z + dz * PlayerSpeed)
  {
    Vec3(Clamp(p.x + dx * PlayerSpeed, -MapLimit, MapLimit), p.y,
         Clamp(p.z + dz * PlayerSpeed, -MapLimit, MapLimit))
  }

  /** Every sequence of movement steps stays inside the map. */
  function Walk(p: Vec3, steps: seq<(real, real)>): (q: Vec3)
    requires InArena(p)
    ensures InArena(q) && q.y == p.y
    decreases |steps|
  {
    if steps == [] then p else Walk(Stepped(p, steps[0].0, steps[0].1), steps[1..])
  }

  class Player {
    var position: Vec3
    /** Euler angles in YXZ order: x is the pitch, y the yaw. */
    var euler: Vec3
    var hp: int
    var score: int

    /** The player is inside the map and is not looking past straight up or down. */
    predicate Valid()
      reads this`position, this`euler
    {
      InArena(position) && -PitchLimit <= euler.x <= PitchLimit
    }

    /** The state right after `reset`. */
    predicate AtStart()
      reads this
    {
      position == StartPosition && euler == Zero && hp == FullHp && score == 0
    }

    constructor ()
      ensures AtStart() && Valid()
    {
      position := StartPosition;
      euler := Zero;
      hp := FullHp;
      score := 0;
    }

    method Reset()
      modifies this
      ensures AtStart() && Valid()
    {
      position := StartPosition;
      euler := Zero;
      hp := FullHp;
      score := 0;
    }

    /** Mouse look: yaw and pitch follow the deltas; the pitch is clamped to [-1.5, 1.5]. */
    method Rotate(mx: real, my: real)
      requires Valid()
      modifies this`euler
      ensures Valid()
      ensures euler == Vec3(Clamp(old(euler.x) - my * MouseSensitivity, -PitchLimit, PitchLimit),
                            old(euler.y) - mx * MouseSensitivity, old(euler.z))
    {
      var pitch := euler.x - my * MouseSensitivity;
      var yaw := euler.y - mx * MouseSensitivity;
      euler := Vec3(Clamp(pitch, -PitchLimit, PitchLimit), yaw, euler.z);
    }

    /** One movement step along the already normalised planar direction (dx, dz). */
    method Move(dx: real, dz: real)
      requires Valid()
      modifies this`position
      ensures Valid()
      ensures position == Stepped(old(position), dx, dz)
    {
      position := Stepped(position, dx, dz);
    }

    /** Subtracts `amt` from hp (which may go negative) and reports death. */
    method TakeDamage(amt: int) returns (dead: bool)
      modifies this`hp
      ensures hp == old(hp) - amt
      ensures dead <==> hp <= 0
    {
      hp := hp - amt;
      dead := hp <= 0;
    }

    method AddScore(amt: int)
      modifies this`score
      ensures score == old(score) + amt
    {
      score := score + amt;
    }
  }
}
