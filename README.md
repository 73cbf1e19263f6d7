# Mago-Arcano: a verified model of the game rules

Mago-Arcano is a browser first-person shooter. The player mixes three runes
(q, e, r) into one of six colours and fires coloured projectiles at monsters
that close in from a ring around them. A projectile kills a monster only when
the colours match. Touching a monster costs 15 hp. Monsters arrive faster and
faster, until the wait between spawns bottoms out at 795 ms, and keep coming
until the player dies.

This project models the game's core in Dafny and proves properties of it:

- the controller (`GameController` in `js/Game.js`): its lifecycle flags, spawn
  pacing, the three entity lists, and the frame loop;
- the player record (`js/Player.js`): colour resolution, hp and score, reset,
  and the clamps on movement and mouse look;
- the input handler (`js/InputHandler.js`): the key map, the rune toggle, and the
  dispatch of browser events to the controller;
- the gameplay tags the entity factory attaches (`js/EntityFactory.js`).

## Layout

| file | module | contents |
|---|---|---|
| `Wrappers.dfy` | `Wrappers` | `Option` |
| `Vectors.dfy` | `Vectors` | `Vec3` and its squared length |
| `Palette.dfy` | `Palette` | the six colour tags and their hex values |
| `PlayerState.dfy` | `PlayerState` | rune-to-colour resolution, clamps, the `Player` class |
| `Entities.dfy` | `Entities` | monster, projectile and particle records; the explosion burst |
| `EntityLists.dfy` | `EntityLists` | `removeEntity` and the creation order the lists keep |
| `Combat.dfy` | `Combat` | spawn pacing and the enemy, projectile and particle passes as functions |
| `GameLoop.dfy` | `GameLoop` | one frame as a function on the game state; what a frame preserves |
| `Game.dfy` | `Game` | the `GameController` class, whose loops run the passes in place |
| `Input.dfy` | `Input` | key names, the rune toggle, the `InputHandler` class |

## How the model reads the program

- Every created object gets an `id`, handed out from the controller's
  `nextId`. Two list entries are the same object exactly when they are equal.
  This is how `indexOf` by identity is modelled.
- Each list holds ids that strictly increase and are all below `nextId`
  (`EntityLists.Ordered`). Because of this, `removeEntity` on the element at
  index i splices out exactly index i. The loops walk each list from its end,
  so the elements not yet visited never shift.
- `Date.now()` becomes the parameter `now`.
- `Math.random()` becomes `rand: nat -> real`: `rand(k)` is the k-th value drawn
  during the frame. The draw count follows the program:
  - a spawn makes four draws (type, bobbing phase, ring angle, ring distance);
  - each explosion particle makes seven draws, and the seventh sets its life.
- The distance tests (`< 1.0`, `< 1.2`, `> 60`) become a `Combat.Proximity` value
  supplied by the caller. It holds the ids of enemies touching the player, the
  (projectile, enemy) pairs within reach, and the projectiles out of range, all
  measured after the frame's movement. An entity moves only at its own step of
  its loop, so each test has one answer per frame.
- Every pass is first written as a function (`Combat.EnemyPass`,
  `Combat.ProjectilePass`, `Combat.ParticlePass`), recursing from the end of the
  list as the loops do. The in-place loops of `GameController` are then proved
  equal to those functions, and the game properties are proved about the
  functions.
- The spawn rate follows the code, not the stated minimum. A spawn steps the
  rate down by 15 whenever it is above 800, so from 3000 it reaches 810 and
  then 795. The proved floor is 795 (`Combat.RateAfterClosedForm`).
- `resetGame` leaves `running` as it was, as the code does. After a game over it
  is already false, and the next pointer-lock event starts the game again.

## Model

| member | source | states |
|---|---|---|
| Palette.Hex | js/Config.js:5-14 | every colour tag has a 24-bit hex value from the colour table |
| Palette.HexDistinct | js/Config.js:7-13 | the six colours have pairwise different hex values, and none is grey |
| Vectors.ScaleNorm2 | js/EntityFactory.js:77 | scaling a vector by k multiplies its squared length by k·k |
| PlayerState.GetColor | js/Player.js:69-78 | a returned colour tag carries that tag's hex value; no tag carries grey |
| PlayerState.GetColorExact | js/Player.js:71-76 | each colour is returned exactly for its one rune combination (`RunesFor` is the inverse table) |
| PlayerState.GetColorNeutral | js/Player.js:70-77 | grey and no tag exactly for zero or three runes; one rune gives a primary colour, two give a mix |
| PlayerState.Clamp | js/Player.js:36 | `max(lo, min(hi, v))` lies in [lo, hi], is v inside the range, and is the nearer bound outside it |
| PlayerState.ClampIdempotent | js/Player.js:56-57 | clamping twice is clamping once |
| PlayerState.HpPercent | js/Player.js:82 | the displayed hp width is never negative, and equals hp unless hp is negative |
| PlayerState.Stepped | js/Player.js:53-57 | a movement step ends inside the 95-unit square, keeps the height, and is the unclamped step whenever that is inside |
| PlayerState.Walk | js/Player.js:56-57 | any sequence of steps from inside the map stays inside it |
| PlayerState.Player.constructor | js/Player.js:5-13 | a new player is at the start position, with zero orientation, 100 hp and score 0 |
| PlayerState.Player.Reset | js/Player.js:15-23 | reset restores position (0, 1.7, 0), zero orientation, 100 hp and score 0 |
| PlayerState.Player.Rotate | js/Player.js:32-38 | yaw and pitch move by 0.002 per unit of mouse motion; pitch is clamped to [-1.5, 1.5]; the yaw is kept unwrapped |
| PlayerState.Player.Move | js/Player.js:40-59 | the position becomes the clamped step, and the player stays inside the map |
| PlayerState.Player.TakeDamage | js/Player.js:80-93 | hp drops by exactly `amt`, possibly below zero; reports death exactly when hp <= 0 |
| PlayerState.Player.AddScore | js/Player.js:95-98 | score rises by exactly `amt`, and no other field changes |
| Entities.CreateMonster | js/EntityFactory.js:44-48 | the monster has exactly the requested type, 1 hp, and a bobbing phase in [0, 100) |
| Entities.CreateProjectile | js/EntityFactory.js:77 | the projectile carries the fired colour tag and a velocity of exactly 0.6 times the aim vector, component by component; so its speed is 0.6 times the aim vector's length |
| Entities.Burst | js/EntityFactory.js:87-100 | an explosion has exactly 12 particles with consecutive fresh ids, each life taken from its seventh draw |
| Entities.BurstLives | js/EntityFactory.js:100 | every particle of an explosion lives between 30 and 40 frames |
| Entities.SparkLife | js/EntityFactory.js:100 | a particle's life is 30 plus ten times its seventh draw, so under any uniform source it lies in [30, 40) |
| Entities.CreateExplosion | js/EntityFactory.js:81-104 | the loop appends exactly the 12 burst particles; the old entries stay as they were, at the front |
| EntityLists.IndexOf | js/Game.js:248 | `indexOf` returns the first position holding the object, or -1 exactly when it is absent |
| EntityLists.RemoveEntity | js/Game.js:246-249 | an absent object leaves the list unchanged; a present one shortens it by one |
| EntityLists.RemoveEntityMultiset | js/Game.js:248-249 | exactly one copy of the object is removed, and nothing else |
| EntityLists.RemoveFirstOccurrence | js/Game.js:248-249 | the copy removed is the first one, and the rest keeps its order |
| EntityLists.RemoveTwice | js/Game.js:248-249 | on a list without repeats, removing the same object again changes nothing |
| EntityLists.OrderedMeans | js/Game.js:221 | the creation-order invariant means ids strictly increase along the list and are all below `nextId` |
| EntityLists.OrderedDistinct | js/Game.js:221 | a list in creation order holds no object twice |
| EntityLists.OrderedRemove | js/Game.js:246-249 | `removeEntity` keeps a list in creation order |
| EntityLists.OrderedAppend | js/EntityFactory.js:102 | appending objects that get the next ids in turn keeps a list in creation order |
| Combat.NextSpawnRate | js/Game.js:126-128 | the rate never rises; it drops by exactly 15 if and only if it was above 800 |
| Combat.SpawnRateStaysOk | js/Game.js:36-38 | from a reachable rate, a step gives a reachable rate, never below 800 - 15 |
| Combat.RateAfterClosedForm | js/Game.js:122-128 | after n spawns the rate is 3000 - 15n for n <= 147, and 795 from then on |
| Combat.SpawnKind | js/Game.js:210-211 | the spawned type is one of the six colours |
| Combat.SpawnKindUniform | js/Game.js:211 | each type is picked by a sixth of the unit interval |
| Combat.EnemyPass | js/Game.js:132-154 | the reverse enemy loop as a recursion from the end: a touching enemy costs 15 hp and is removed, and a death stops the loop with the unvisited enemies kept; what it computes is stated by the four EnemyPass lemmas below |
| Combat.EnemyPassSurvived | js/Game.js:132-154 | when the player survives, exactly the touching enemies are removed, in order, each costing exactly 15 hp |
| Combat.EnemyPassDeath | js/Game.js:143-153 | the player dies in the pass exactly when the contacts take hp to 0 or below; hp then lies in (-15, 0] |
| Combat.EnemyPassCost | js/Game.js:143-148 | only enemies of the list remain, and each removed enemy cost exactly 15 hp |
| Combat.EnemyPassDeathRemains | js/Game.js:143-153 | on a death the enemies left are exactly those before the fatal one, none visited, followed by the untouched enemies the loop had passed |
| Combat.EnemyPassOrdered | js/Game.js:132-154 | the enemies that stay keep their creation order |
| Combat.EnemyLoopHit | js/Game.js:146-151 | a contact splices out exactly the visited enemy; on death the loop stops with the unvisited enemies kept |
| Combat.EnemyLoopSkip | js/Game.js:132-143 | a non-touching enemy stays where it is |
| Combat.LastNear | js/Game.js:176-188 | the scan returns the last enemy within reach, with no enemy within reach after it, or -1 |
| Combat.Strike | js/Game.js:175-188 | a projectile is consumed exactly when the scan finds an enemy within reach; only a colour match kills that enemy, with its explosion and 100 points (see StrikeContact, StrikeColorLock, StrikeGain) |
| Combat.StrikeContact | js/Game.js:175-188 | a projectile is consumed if and only if some enemy is within its reach |
| Combat.StrikeColorLock | js/Game.js:179-184 | on a matching colour exactly the enemy found is removed, with 100 points and 12 particles; otherwise nothing changes |
| Combat.StrikeGain | js/Game.js:179-184 | a projectile kills at most one enemy; each kill is worth exactly 100 points, 12 particles appended and 12 ids |
| Combat.StrikeOrdered | js/Game.js:181-182 | a kill keeps the enemy and particle lists in creation order |
| Combat.ProjectilePass | js/Game.js:164-193 | the reverse projectile loop as a recursion from the end: each projectile strikes, then is dropped after any contact, matched or not, or once out of range; it keeps no more projectiles than it was given (ProjectilePassConsumed, ProjectilePassKept, ProjectilePassUntouched, ProjectilePassKeeps and ProjectilePassScore state the rest) |
| Combat.ProjectilePassScore | js/Game.js:164-193 | k kills in a pass raise the score by exactly 100k and add exactly 12k particles and 12k ids |
| Combat.ProjectilePassParticles | js/Game.js:179-184 | the particles present before the pass stay first and unchanged; explosions only append |
| Combat.ProjectilePassKept | js/Game.js:190-192 | the projectiles kept are in range, come from the list, and keep their order |
| Combat.ProjectilePassUntouched | js/Game.js:175-192 | no kept projectile is near an enemy that survives the pass |
| Combat.ProjectilePassConsumed | js/Game.js:175-192 | any contact consumes a projectile, matched or not: a projectile is kept exactly when it is in range and strikes no enemy of the arena left by the projectiles after it |
| Combat.ProjectilePassKeeps | js/Game.js:175-192 | conversely, a projectile in range and near none of the enemies present is kept |
| Combat.ProjectilePassNoEnemies | js/Game.js:164-193 | with no enemies, exactly the projectiles in range are kept and nothing else changes |
| Combat.ProjectilePassOrdered | js/Game.js:164-193 | the projectile pass keeps the enemy and particle lists in creation order |
| Combat.ProjectileLoopDrop | js/Game.js:190-192 | a consumed or out-of-range projectile is spliced out at its own index |
| Combat.ProjectileLoopKeep | js/Game.js:164-192 | any other projectile stays where it is |
| Combat.ParticlePass | js/Game.js:196-202 | the reverse particle loop as a recursion from the end: each particle loses one life and is dropped at zero or below; its survivors and their order are stated by ParticlePassMembers and ParticlePassOrdered |
| Combat.ParticlePassAppend | js/Game.js:196-202 | particles age independently of each other |
| Combat.ParticlePassMembers | js/Game.js:196-202 | a particle survives a frame exactly when its life minus one is above 0, and then it appears with only its life lowered by one |
| Combat.ParticlePassOrdered | js/Game.js:196-202 | the surviving particles keep their creation order |
| Combat.ParticleLoopDrop | js/Game.js:200-201 | a spent particle is spliced out at its own index |
| Combat.ParticleLoopKeep | js/Game.js:196-201 | a living particle is aged in place |
| GameLoop.SpawnPhase | js/Game.js:122-129 | the spawner draws nothing or exactly four values and touches neither projectiles, particles, hp, score nor the running flag |
| GameLoop.SpawnPhasePacing | js/Game.js:122-129 | a spawn happens only when strictly more than the rate has passed; then the old enemies stay first, one 1-hp monster of one of the six types with the next id follows, the wait restarts at `now` and the ramp steps; otherwise nothing changes and nothing is drawn |
| GameLoop.EnemyStage | js/Game.js:143-161 | the enemy loop never raises hp or adds enemies, touches nothing but enemies, hp and the two flags, and a game it ends is over and stopped |
| GameLoop.EnemyStageLifecycle | js/Game.js:143-153 | after the enemy loop, either the player is alive or the game is over and not running |
| GameLoop.Frame | js/Game.js:112-207 | a frame of a stopped game changes nothing; no frame raises hp or takes identities back |
| GameLoop.FramePacing | js/Game.js:112-207 | a frame keeps the lifecycle; the rate never rises and drops by exactly 15 only in a running frame whose spawn is due above 800; the score never falls |
| GameLoop.FrameDeath | js/Game.js:149-161 | in the frame where the player dies, projectiles, particles and score stay as they were, and later frames change nothing |
| GameLoop.SpawnPhaseOrdered | js/Game.js:209-221 | a spawn keeps every list in creation order |
| GameLoop.ProjectileStageOrdered | js/Game.js:163-193 | the projectile loop keeps every list in creation order |
| GameLoop.FrameOrdered | js/Game.js:112-207 | every frame keeps every list in creation order |
| Game.GameController.constructor | js/Game.js:10-39 | a new game is stopped and not over, with empty lists, rate 3000 and a player at the start |
| Game.GameController.Start | js/Game.js:57-63 | start sets running, and is ignored while the game is over |
| Game.GameController.Pause | js/Game.js:65-71 | pause clears running |
| Game.GameController.HandleGameOver | js/Game.js:73-81 | game over clears running and sets isGameOver |
| Game.GameController.ResetGame | js/Game.js:83-110 | reset empties all three lists, restores rate 3000, sets lastSpawn to now, clears game over, resets the player, and leaves running alone |
| Game.GameController.SpawnEnemy | js/Game.js:209-222 | appends exactly one monster, of the type the roll picks, with the next id |
| Game.GameController.Shoot | js/Game.js:224-244 | changes nothing unless running with a colour selected; then appends exactly one projectile of that colour |
| Game.GameController.RunSpawner | js/Game.js:121-129 | the spawner does what `SpawnPhase` describes and keeps the lists in order |
| Game.GameController.FindTarget | js/Game.js:176-188 | the reverse scan returns what `LastNear` describes |
| Game.GameController.StrikeEnemies | js/Game.js:175-188 | one projectile's effect on the enemies, particles, score and ids is what `Strike` describes |
| Game.GameController.AdvanceEnemies | js/Game.js:131-154 | the in-place enemy loop computes `EnemyPass`; running and isGameOver follow the death it reports |
| Game.GameController.AdvanceProjectiles | js/Game.js:163-193 | the in-place projectile loop computes `ProjectilePass` on every field it touches |
| Game.GameController.AdvanceParticles | js/Game.js:195-202 | the in-place particle loop computes `ParticlePass` |
| Game.GameController.RunFrame | js/Game.js:121-202 | the spawner and the three loops together compute `Frame`, keeping the lifecycle and the creation order |
| Game.GameController.Tick | js/Game.js:112-207 | one loop call is `Frame` on the game state; the player moves one clamped step only when running; all invariants are kept |
| Input.LowerChar | js/InputHandler.js:8 | lowering maps A-Z to a-z and leaves every other character alone |
| Input.Lower | js/InputHandler.js:8 | a key name is lowered character by character, keeping its length |
| Input.LowerIdempotent | js/InputHandler.js:8 | lowering twice is lowering once |
| Input.LowerRuneKey | js/InputHandler.js:11-12 | the rune keys answer to both cases of q, e and r, and to nothing else |
| Input.Toggle | js/InputHandler.js:11-14 | a key changes the runes exactly when it is q, e or r (ToggleOne says which rune) |
| Input.ToggleTwice | js/InputHandler.js:13 | toggling the same rune twice restores the runes |
| Input.ToggleOne | js/InputHandler.js:11-14 | a rune key flips exactly its rune, leaving the other two; any other key changes nothing |
| Input.CountMultiset | js/InputHandler.js:11-14 | how often a key was pressed does not depend on the order of the presses |
| Input.PressesParity | js/InputHandler.js:11-14 | after any sequence of key presses a rune is flipped exactly when its key was pressed an odd number of times |
| Input.ToggleMixes | js/InputHandler.js:11-14 | from no runes, pressing the keys of any colour's runes, in any order, selects exactly that colour (each primary for its one key, each mix for its two); all three keys give grey |
| Input.InputHandler.constructor | js/InputHandler.js:2-5 | the key map starts empty and every rune starts off |
| Input.InputHandler.KeyDown | js/InputHandler.js:7-16 | the lowered key is marked down whatever the state; a rune flips only while running |
| Input.InputHandler.KeyUp | js/InputHandler.js:18 | the lowered key is marked up |
| Input.InputHandler.MouseDown | js/InputHandler.js:20-22 | a click fires only under pointer lock, and then as `shoot` does |
| Input.InputHandler.PointerLockChange | js/InputHandler.js:29-32 | gaining the lock starts the game unless it is over; losing it pauses |
| Input.InputHandler.MouseMove | js/InputHandler.js:34-38 | the view turns only while running, and then as `rotate` does |

## Left out

- Three.js geometry is not modelled: enemy chasing (0.04 per frame toward the player, `lookAt`), the bobbing height, projectile and particle motion, and the distance computations. Their outcomes enter as the caller-supplied `Proximity` sets.
- Enemy positions and the spawn ring (angle and distance 30-40) are not modelled. Their two random draws are counted, but their values are not used.
- Particle velocity, offset, shrinking scale and colour are not modelled. Only the life that decides removal is kept.
- The w/s/a/d direction in `move` comes from the camera quaternion and is normalised in floating point. `PlayerState.Player.Move` takes that planar direction as a parameter; only the step and the map clamp are modelled.
- `PlayerState.Player.Rotate`: the program re-reads the angles from the camera quaternion (`setFromQuaternion`, order YXZ) on every call, so its yaw comes from `atan2` and is wrapped into [-π, π] before each update; the model keeps the yaw unwrapped, so it agrees with the program only modulo 2π. The wrap and the round-off of that conversion are not modelled; the pitch clamp is exact.
- `Game.GameController.Shoot` takes the aim direction as a parameter. The muzzle offset, the weapon recoil and its `setTimeout` are left out.
- Real numbers are exact here. JavaScript's doubles and their rounding are not modelled. hp, score, spawn rate and times are integers well inside the exactly representable range.
- `Input.LowerChar` lowers only the ASCII letters A-Z; `toLowerCase` also lowers other Unicode letters (accented Latin, Greek, Cyrillic, ...), which the model leaves as they are.
- `Input.Lower` lowers only the ASCII letters A-Z; other Unicode case mappings are not modelled.
- Audio, the HUD and every DOM update are not modelled. This covers `updateUI`, `updateCrystal`, the health-bar width (modelled only as `HpPercent`) and the game-over screen.
- Rendering, `requestAnimationFrame`, and the scene removal and `dispose` calls of `removeEntity` and `resetGame` are not modelled.
- The start and restart buttons only request the pointer lock. Their effect enters through `PointerLockChange`, and for restart also through `ResetGame(now)`.
- `Entities.CreateExplosion` returns the extended list instead of pushing into the caller's array. The controller stores the result back in its `particles` field.
- The controller holds no reference to the input handler. `Shoot` takes the rune flags as a parameter instead, and `InputHandler.MouseDown` passes its own.
- The monster's `hp` tag is recorded but never read, as in the program: one matching hit kills.
- `js/GraphicsEngine.js` and `js/AudioEngine.js` are not part of this model.
