/**
 * The input handler: the key-state map, the three rune flags, and the
 * routing of pointer-lock, mouse-down and mouse-move events to the game
 * controller. Each browser event listener is one method; the facts the
 * browser supplies (the key, whether the pointer is locked to the page,
 * the mouse deltas, the camera's forward direction) are parameters.
 */
module Input {
  import opened Wrappers
  import opened Vectors
  import opened Palette
  import opened PlayerState
  import opened Entities
  import opened Game

  // ----- key names -----

  /** `toLowerCase` on one character; only the ASCII letters A-Z change. */
  function LowerChar(c: char): (d: char)
    ensures !('A' <= d <= 'Z')
    ensures 'A' <= c <= 'Z' ==> 'a' <= d <= 'z' && d as int - c as int == 32
    ensures !('A' <= c <= 'Z') ==> d == c
  {
    if 'A' <= c <= 'Z' then (c as int + 32) as char else c
  }

  /** `toLowerCase` on a key name, character by character. */
  function Lower(s: string): (r: string)
    ensures |r| == |s|
    ensures forall i :: 0 <= i < |s| ==> r[i] == LowerChar(s[i])
    decreases |s|
  {
    if s == [] then [] else [LowerChar(s[0])] + Lower(s[1..])
  }

  /** Lowering twice is lowering once. */
  lemma LowerIdempotent(s: string)
    ensures Lower(Lower(s)) == Lower(s)
  {
    var once := Lower(s);
    assert forall i :: 0 <= i < |once| ==> LowerChar(once[i]) == once[i];
  }

  /** The rune keys answer to both cases and to nothing else. */
  lemma LowerRuneKey(key: string)
    ensures Lower(key) == "q" <==> key == "q" || key == "Q"
    ensures Lower(key) == "e" <==> key == "e" || key == "E"
    ensures Lower(key) == "r" <==> key == "r" || key == "R"
  {
    if |key| == 1 {
      assert Lower(key) == [LowerChar(key[0])];
    } else {
      assert |Lower(key)| != 1;
    }
  }

  // ----- runes -----

  /** A rune key flips its rune; any other key leaves the runes alone. */
  function Toggle(runes: Runes, k: string): (t: Runes)
    ensures k in {"q", "e", "r"} <==> t != runes
  {
    if k == "q" then runes.(q := !runes.q)
    else if k == "e" then runes.(e := !runes.e)
    else if k == "r" then runes.(r := !runes.r)
    else runes
  }

  /** Pressing the same key twice restores the runes. */
  lemma ToggleTwice(runes: Runes, k: string)
    ensures Toggle(Toggle(runes, k), k) == runes
  {
  }

  /**
   * A rune key changes exactly one rune, so the number of active runes
   * moves by exactly one; any other key changes nothing.
   */
  lemma ToggleOne(runes: Runes, k: string)
    ensures k in {"q", "e", "r"} ==>
      Toggle(runes, k) != runes && (Active(Toggle(runes, k)) == Active(runes) + 1 || Active(Toggle(runes, k)) + 1 == Active(runes))
    ensures k == "q" ==> Toggle(runes, k).e == runes.e && Toggle(runes, k).r == runes.r
    ensures k == "e" ==> Toggle(runes, k).q == runes.q && Toggle(runes, k).r == runes.r
    ensures k == "r" ==> Toggle(runes, k).q == runes.q && Toggle(runes, k).e == runes.e
    ensures k !in {"q", "e", "r"} ==> Toggle(runes, k) == runes
  {
  }

  /** The runes after pressing the (lowercase) keys in turn. */
  function Presses(runes: Runes, keys: seq<string>): Runes
    decreases |keys|
  {
    if keys == [] then runes else Presses(Toggle(runes, keys[0]), keys[1..])
  }

  /** How many times `k` was pressed. */
  function Count(keys: seq<string>, k: string): nat
    decreases |keys|
  {
    if keys == [] then 0 else (if keys[0] == k then 1 else 0) + Count(keys[1..], k)
  }

  /** The count is the key's multiplicity, so it does not depend on the order of the presses. */
  lemma {:induction false} CountMultiset(keys: seq<string>, k: string)
    ensures Count(keys, k) == multiset(keys)[k]
    decreases |keys|
  {
    if keys != [] {
      CountMultiset(keys[1..], k);
      assert keys == [keys[0]] + keys[1..];
      assert multiset(keys) == multiset{keys[0]} + multiset(keys[1..]);
    }
  }

  /** Whether `k` was pressed an odd number of times. */
  function Odd(keys: seq<string>, k: string): bool
  {
    Count(keys, k) % 2 == 1
  }

  /** One key press, rune by rune: a rune flips exactly when the key is its own. */
  lemma ToggleFlips(runes: Runes, k: string)
    ensures Toggle(runes, k) == Runes(runes.q != (k == "q"), runes.e != (k == "e"), runes.r != (k == "r"))
  {
  }

  /**
   * A rune ends up flipped exactly when its key was pressed an odd number
   * of times, whatever the order of the presses.
   */
  lemma {:induction false} PressesParity(runes: Runes, keys: seq<string>)
    ensures Presses(runes, keys) == Runes(runes.q != Odd(keys, "q"), runes.e != Odd(keys, "e"), runes.r != Odd(keys, "r"))
    decreases |keys|
  {
    if keys != [] {
      ToggleFlips(runes, keys[0]);
      PressesParity(Toggle(runes, keys[0]), keys[1..]);
    }
  }

  /** The keys of the runes that select `t`, in q, e, r order. */
  function KeysFor(t: ColorType): seq<string>
  {
    var rs := RunesFor(t);
    (if rs.q then ["q"] else []) + (if rs.e then ["e"] else []) + (if rs.r then ["r"] else [])
  }

  /** Counting in one or two presses. */
  lemma CountShort(a: string, b: string, k: string)
    ensures Count([a], k) == (if a == k then 1 else 0)
    ensures Count([a, b], k) == (if a == k then 1 else 0) + (if b == k then 1 else 0)
  {
    assert [a][1..] == [];
    assert [a, b][1..] == [b];
    assert [b][1..] == [];
  }

  /** Each rune key occurs in `KeysFor(t)` an odd number of times exactly when its rune selects `t`. */
  lemma KeysForOdd(t: ColorType)
    ensures Odd(KeysFor(t), "q") == RunesFor(t).q
    ensures Odd(KeysFor(t), "e") == RunesFor(t).e
    ensures Odd(KeysFor(t), "r") == RunesFor(t).r
  {
    assert "q" != "e" && "q" != "r" && "e" != "r";
    match t
    case Red =>
      assert KeysFor(t) == ["q"];
      CountShort("q", "q", "q"); CountShort("q", "q", "e"); CountShort("q", "q", "r");
    case Yellow =>
      assert KeysFor(t) == ["e"];
      CountShort("e", "e", "q"); CountShort("e", "e", "e"); CountShort("e", "e", "r");
    case Blue =>
      assert KeysFor(t) == ["r"];
      CountShort("r", "r", "q"); CountShort("r", "r", "e"); CountShort("r", "r", "r");
    case Orange =>
      assert KeysFor(t) == ["q", "e"];
      CountShort("q", "e", "q"); CountShort("q", "e", "e"); CountShort("q", "e", "r");
    case Purple =>
      assert KeysFor(t) == ["q", "r"];
      CountShort("q", "r", "q"); CountShort("q", "r", "e"); CountShort("q", "r", "r");
    case Green =>
      assert KeysFor(t) == ["e", "r"];
      CountShort("e", "r", "q"); CountShort("e", "r", "e"); CountShort("e", "r", "r");
  }

  /**
   * From no runes, pressing the keys of a colour's runes selects that colour
   * (a primary for one key, a mix for two), in any order; pressing all
   * three gives grey without a type.
   */
  lemma ToggleMixes(t: ColorType, keys: seq<string>)
    requires multiset(keys) == multiset(KeysFor(t))
    ensures Presses(NoRunes, keys) == RunesFor(t)
    ensures GetColor(Presses(NoRunes, keys)).kind == Some(t)
    ensures GetColor(Presses(NoRunes, ["q", "e", "r"])).kind == None
  {
    PressesParity(NoRunes, keys);
    KeysForOdd(t);
    CountMultiset(keys, "q");
    CountMultiset(keys, "e");
    CountMultiset(keys, "r");
    CountMultiset(KeysFor(t), "q");
    CountMultiset(KeysFor(t), "e");
    CountMultiset(KeysFor(t), "r");
    PressesParity(NoRunes, ["q", "e", "r"]);
    assert "q" != "e" && "q" != "r" && "e" != "r";
    GetColorExact(Presses(NoRunes, keys), t);
  }

  class InputHandler {
    /** Which keys are down, by lowercase key name; a key never pressed is absent. */
    var keys: map<string, bool>
    var runes: Runes
    const game: GameController

    /** All runes off and no key known. */
    constructor (gameInstance: GameController)
      ensures keys == map[] && runes == NoRunes && game == gameInstance
    {
      game := gameInstance;
      keys := map[];
      runes := NoRunes;
    }

    /** `keydown`: the key is down whatever the state; a rune key flips its rune only while running. */
    method KeyDown(key: string)
      modifies this`keys, this`runes
      ensures keys == old(keys)[Lower(key) := true]
      ensures runes == if game.running then Toggle(old(runes), Lower(key)) else old(runes)
    {
      keys := keys[Lower(key) := true];
      if !game.running {
        return;
      }
      var k := Lower(key);
      if k == "q" || k == "e" || k == "r" {
        runes := Toggle(runes, k);
      }
    }

    /** `keyup`: the key is up. */
    method KeyUp(key: string)
      modifies this`keys
      ensures keys == old(keys)[Lower(key) := false]
    {
      keys := keys[Lower(key) := false];
    }

    /** `mousedown`: fires along `dir` only while the pointer is locked to the page. */
    method MouseDown(locked: bool, dir: Vec3)
      requires game.Valid()
      modifies game`projectiles, game`nextId
      ensures game.Valid()
      ensures var col := GetColor(runes);
        if locked && game.running && col.kind.Some? then
          game.projectiles == old(game.projectiles) + [CreateProjectile(old(game.nextId), dir, col)]
          && game.nextId == old(game.nextId) + 1
        else game.projectiles == old(game.projectiles) && game.nextId == old(game.nextId)
    {
      if locked {
        game.Shoot(runes, dir);
      }
    }

    /** `pointerlockchange`: gaining the lock starts the game, losing it pauses it. */
    method PointerLockChange(locked: bool)
      requires game.Valid()
      modifies game`running
      ensures game.Valid()
      ensures game.running == (locked && (!game.isGameOver || old(game.running)))
      ensures !locked ==> !game.running
    {
      if locked {
        game.Start();
      } else {
        game.Pause();
      }
    }

    /** `mousemove`: the view turns only while running. */
    method MouseMove(mx: real, my: real)
      requires game.Valid()
      modifies game.player`euler
      ensures game.Valid()
      ensures game.player.euler
           == if game.running then Vec3(Clamp(old(game.player.euler.x) - my * MouseSensitivity, -PitchLimit, PitchLimit),
                                        old(game.player.euler.y) - mx * MouseSensitivity, old(game.player.euler.z))
              else old(game.player.euler)
    {
      if game.running {
        game.player.Rotate(mx, my);
      }
    }
  }
}
