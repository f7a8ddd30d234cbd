# Mario tick engine in Dafny

This project models one tick of the side-scrolling Mario game in
`mario/sprites.py` and `mario/camera.py`:

- **Player.** The player runs with momentum and jumps with a held-key
  accumulator guarded by a latch. It lands on blocks and bumps boxes from
  below; each bump scores 200 points and throws up a coin. It stomps or dies
  on enemies. It cannot walk back past a left border that only ratchets
  right. After `die` it is raised into `is_die` once its death animation has
  run 200 frames.
- **Enemy.** An enemy falls at GRAVITY and sleeps until it first overlaps the
  camera's window. It then walks and turns round at every block. Once stomped
  it freezes and is removed after 30 frames.
- **Coin.** A coin floats up, falls back and is removed at tick 40.
- **Camera.** The camera follows the player's right edge. It only moves
  forward, and it stops once a clamp on the level width fails.

Four modules:

| module | file | holds |
|---|---|---|
| `Geometry` | `geometry.dfy` | pygame rectangles, the strict overlap test, `spritecollide`, one collide pass |
| `Physics` | `physics.dfy` | the per-tick rules on plain values (speeds, gravity, jump latch, stomp or die, coin flight) |
| `Sprites` | `sprites.dfy` | the sprites as classes |
| `Cameras` | `camera.dfy` | the camera as a class |

How the `Sprites` classes are proved:

- `Player`, `Enemy` and `Coin` hold the fields the source updates in place.
- The blocks group is an `array` whose boxes get their `isDie` flag set.
- The enemies group is a sequence of `Enemy` objects.
- Every `Player` method is proved against a function on a value snapshot of
  the player (`Body`). Examples are `Pushed` for `collide`, `Moved` for
  `move` and `Ticked` for `update`.
- The rules' properties are proved on those functions as lemmas.

Conventions the model fixes:

- **Doubled speeds.** `speed_x`, `speed_y` and `left_border_x` take half-unit
  values: 1.5, GRAVITY / 2 and screen_width / 2. They are stored doubled
  (`speedX2`, `speedY2`, `leftBorder2`).
- **Truncation.** A pygame Rect keeps integers. Whenever the source assigns
  it a non-integer, the model truncates toward zero (`TruncDiv`). This covers
  the horizontal step in `move` (`sprites.py:78-81`), the vertical step
  (`sprites.py:90`), the border snap (`sprites.py:132`) and the camera's
  `x` (`camera.py:24`).
- **Overlap.** `colliderect` is strict overlap: rectangles that only share an
  edge do not collide.
- **`spritecollide`.** It lists the overlapping members in group order, once,
  before the loop that reacts to them. The last one listed therefore decides
  the final edge.
- **Group members.** `kill()` is a `removed` flag. The key state is three
  booleans (`left`, `right`, `up`).
- **Stomp.** A live enemy is stomped when the player's bottom reaches less
  than 10 px past its top (`sprites.py:179`). With the bottom at 100, an
  enemy top at 92 is stomped and one at 85 kills (`StompExamples`).
- **Camera and enemies.** The camera's window reaches `Enemy.Update` as a
  `Rect` parameter.

## Model

| member | source | states |
|---|---|---|
| Geometry.TruncDiv | mario/sprites.py:78-81 | the integer a Rect keeps for n / d lies within one unit of it, on the side of zero |
| Geometry.Overlaps | mario/sprites.py:344 | `colliderect`: two rectangles collide exactly when they share a pixel, so rectangles that only touch do not, and a rectangle without area collides with nothing |
| Geometry.Collided | mario/sprites.py:137 | `spritecollide` lists only valid positions of the group |
| Geometry.CollidedSound | mario/sprites.py:137 | every listed position holds a rectangle overlapping the sprite |
| Geometry.CollidedComplete | mario/sprites.py:137 | every overlapping rectangle is listed |
| Geometry.CollidedNone | mario/sprites.py:158-160 | the list is empty exactly when nothing overlaps, which is what `collide` returns |
| Geometry.CollidedAscends | mario/sprites.py:137 | positions are listed in group order |
| Geometry.CollidedOnce | mario/sprites.py:177-178 | no position is listed twice, so each enemy is met once |
| Geometry.SnapTo | mario/sprites.py:139-156 | the leading edge goes against the block on each axis of motion, the other axis and the size are kept |
| Geometry.SnapOverrides | mario/sprites.py:138-153 | snapping against one block and then another is snapping against the second alone |
| Geometry.ResolveEffect | mario/sprites.py:359-375 | a collide pass keeps the size, moves only along the axes of motion, changes nothing when nothing overlaps, else leaves the edges against the last overlapping block |
| Geometry.TouchingIsNotACollision | mario/sprites.py:137 | rectangles sharing only an edge do not collide, and a pass against such a block changes nothing |
| Geometry.SnapSeparates | mario/sprites.py:139-153 | after a snap the sprite no longer overlaps the block |
| Physics.Steer | mario/sprites.py:95-110 | left wins and decrements only while speed_x > -40, right increments only while < 40; with no key the speed snaps to 0 when \|speed_x\| <= 3, else moves 1.5 toward zero without changing sign; \|speed_x\| <= 40.5 is kept |
| Physics.RunningLeftFromRest | mario/sprites.py:97-98 | holding left from rest gives speed_x = -min(n, 40) after n ticks |
| Physics.RunningRightFromRest | mario/sprites.py:102-103 | holding right from rest gives speed_x = min(n, 40) after n ticks |
| Physics.CoastingDecays | mario/sprites.py:106-110 | with no key \|speed_x\| shrinks by at least 1.5 a tick and never changes sign |
| Physics.CoastingStops | mario/sprites.py:106-110 | with no key the player stops dead within max(1, ⌈(\|speed_x\| - 1.5) / 1.5⌉) ticks: from \|speed_x\| <= 1.5 n + 1.5, speed_x is exactly 0 after n >= 1 ticks |
| Physics.StepX | mario/sprites.py:78-81 | the horizontal step of `move`, on x >= 0: at rest, and at speed_x = 0.5, the player stays; speed_x >= 1 moves right between 1 and speed_x / 10 + 0.9 px; any leftward speed (when the step stays at x >= 0) moves left at least 1 px and less than \|speed_x\| / 10 + 1.9 px |
| Physics.Fall | mario/sprites.py:84-88 | while speed_y <= 0 exactly GRAVITY is added (GRAVITY / 2 while dying), and nothing once the player falls, so a downward speed never exceeds GRAVITY |
| Physics.StepY | mario/sprites.py:90 | the vertical step moves the top edge by speed_y |
| Physics.DeathLeap | mario/sprites.py:84-88 | thrown up at 4 * GRAVITY by `die`, the player slows by GRAVITY / 2 a tick until it falls at a steady GRAVITY / 2 |
| Physics.JumpStep | mario/sprites.py:112-128 | the accumulator grows by 6 only on a granted jump and stays a multiple of 6 in [0, 150]; any other tick sets the latch, which clears only when up is released on the ground |
| Physics.HeldJumpIsCapped | mario/sprites.py:115-116 | holding up in the air pushes until the accumulator reaches 150, then latches; a latched jump stays latched while up is held |
| Physics.ReleaseOnGroundRearms | mario/sprites.py:127-128 | releasing up on the ground clears the latch, so the next press jumps |
| Physics.Died | mario/sprites.py:189-193 | `die` starts the death animation at frame 0, stops sideways motion and throws the player up at 4 * GRAVITY, keeping score and coins |
| Physics.Meet | mario/sprites.py:178-187 | meeting one enemy: a stomp bounces the player to -3 * GRAVITY and adds 200 points and a coin; a lethal contact is `die` unless dying already; the player ends dying exactly when it was or the contact was lethal; a dying enemy changes nothing |
| Physics.EncounterSteady | mario/sprites.py:176-187 | meeting enemies keeps the player's speed bounds and the `is_die` / frame 200 link |
| Physics.EncounterRewards | mario/sprites.py:178-185 | every stomp scores exactly 200 points and one coin, and nothing else scores |
| Physics.EncounterDeath | mario/sprites.py:178-187 | the player ends dying exactly when it already was or touched a live enemy without stomping it |
| Physics.DyingIsNotRestarted | mario/sprites.py:186-187 | `die` runs at most once: a dying player's frame counter and speed_x are not reset by further contacts |
| Physics.DyingFoesAreHarmless | mario/sprites.py:178-187 | dying enemies neither get stomped nor kill |
| Physics.StompExamples | mario/sprites.py:179 | with the bottom at 100, an enemy top at 92 (8 px overlap) is stomped and one at 85 kills |
| Physics.CoinFlight | mario/sprites.py:291-299 | the coin rises 3 px a tick to 57 px above its start at tick 19, then falls 3 px a tick |
| Sprites.BoxesAmong | mario/sprites.py:164-165 | only boxes are bumped, and only while moving up |
| Sprites.BoxesAmongComplete | mario/sprites.py:164-165 | while moving up every hit position holding a box is bumped |
| Sprites.BoxesAmongInOrder | mario/sprites.py:163-165 | every bumped position is a hit position, and the boxes are bumped in group order |
| Sprites.BoxesAmongIgnoresMarks | mario/sprites.py:165 | which boxes are bumped depends only on the blocks' kinds, never on `is_die` |
| Sprites.BoxCollideTargets | mario/sprites.py:163-165 | `box_collide` bumps, in group order, exactly the boxes overlapping the player while it moves up, and nothing otherwise |
| Sprites.BoxesBumpedAgain | mario/sprites.py:165-169 | a box is bumped again however often it was hit: after any hits the same player bumps the same boxes |
| Sprites.Bump | mario/sprites.py:165-172 | one box hit: the player's top goes on the box's bottom (so they no longer overlap), speed_y drops to 0, the jump latches, 200 points are scored, nothing else changes |
| Sprites.BumpAll | mario/sprites.py:164-172 | bumping a run of boxes scores 200 a box and leaves the player under the last one, speed_y 0 and latched |
| Sprites.MarkHit | mario/sprites.py:169 | the group keeps its size and every hit box is marked `is_die` |
| Sprites.CoinSpots | mario/sprites.py:170 | one coin per bumped box, in order, each standing on top of its box at the box's x |
| Sprites.CoinRect | mario/sprites.py:277-285 | a coin stands with its bottom on the given line at the given x |
| Sprites.Coin.constructor | mario/sprites.py:277-286 | a new coin stands on the given line at the given x with its timer at 0, and keeps its invariant |
| Sprites.Coin.Animate | mario/sprites.py:291-299 | the timer advances, the coin moves 3 px up before timer 20 and 3 px down after, and is removed at timer 40; its height keeps following `CoinLift` |
| Sprites.Enemy.constructor | mario/sprites.py:335-338 | an enemy starts asleep, still and alive |
| Sprites.Enemy.Collide | mario/sprites.py:359-375 | the edges snap as in `Resolve`, the speeds and flags are never touched, and the result says whether anything overlapped |
| Sprites.Enemy.InverseDirection | mario/sprites.py:356-357 | speed_x is negated |
| Sprites.Enemy.Move | mario/sprites.py:348-354 | `move` is `EnemyMoved` (fall and land, step and snap, turn exactly when the horizontal pass hit a block; see `EnemyTickedWalks`) and keeps the invariant |
| Sprites.Enemy.Animate | mario/sprites.py:35-45 | the frame counter advances; a dying enemy is frozen and removed once its counter passes 30 |
| Sprites.Enemy.Update | mario/sprites.py:340-346 | one update is `EnemyTicked` (move, animate, wake up) and keeps the invariant |
| Sprites.EnemyMovedValid | mario/sprites.py:348-357 | moving keeps an enemy's invariant |
| Sprites.EnemyTickedEffect | mario/sprites.py:340-346 | a sleeping enemy never moves sideways; it wakes exactly when it overlaps the view and then walks left; an awake live enemy keeps \|speed_x\| = 1, a dying one stands; the counter advances and a dying enemy goes past frame 30 |
| Sprites.EnemyTickedFalls | mario/sprites.py:349-350 | every enemy falls by GRAVITY a tick unless it lands, and then its bottom rests on the top of the last block it fell into |
| Sprites.EnemyTickedWalks | mario/sprites.py:352-354 | an awake live enemy moves on by speed_x when its step hits nothing; otherwise it stops against the last block hit and turns round |
| Sprites.Stomped | mario/sprites.py:179-181 | a stomped enemy starts dying with its frame counter reset; nothing else about it changes |
| Sprites.StompAllEffect | mario/sprites.py:178-181 | each enemy met is met once with the state it started in; the others are unchanged |
| Sprites.StompAllValid | mario/sprites.py:178-181 | meeting the player never breaks an enemy's invariant |
| Sprites.StompAllLength | mario/sprites.py:176-187 | no enemy joins or leaves the group |
| Sprites.MeetStep | mario/sprites.py:177-187 | meeting one more enemy extends both the player's and the enemies' fold by one step |
| Sprites.StoppedOverrides | mario/sprites.py:138-156 | stopping against one block and then another is stopping against the second alone |
| Sprites.MarkHitEffect | mario/sprites.py:169 | hitting boxes only sets their `is_die`; every block keeps its kind and place |
| Sprites.BumpAllEffect | mario/sprites.py:164-172 | after bumping boxes the player's top is under the last one, speed_y is 0, the jump is latched and 200 points a box are scored |
| Sprites.PushedClear | mario/sprites.py:137-160 | a collide pass with nothing overlapping changes nothing |
| Sprites.PushedAgainstLast | mario/sprites.py:137-156 | against the last overlapping block of any group: right puts the right edge on its left, left puts the left edge on its right, both zero speed_x; down lands (bottom on top, on ground, accumulator 0, speed_y 0); up puts the top on its bottom, zeroes speed_y and latches |
| Sprites.PushedKeeps | mario/sprites.py:136-160 | a collide pass touches only the rect, speeds, ground flag, accumulator and latch; a speed changes only to 0 on an axis of motion |
| Sprites.MarkHitPlaces | mario/sprites.py:162-174 | blocks stay where they are whatever boxes are hit |
| Sprites.MovedEffect | mario/sprites.py:77-93 | `move` moves no block, scores 200 for every coin spawned, keeps speed_y <= GRAVITY and leaves the death state, frame counter, coins and border alone |
| Sprites.MovedWhileDying | mario/sprites.py:84-93 | a dying player bumps nothing, spawns no coin and skips the vertical collide, falling by GRAVITY / 2 steps |
| Sprites.BorderedRatchet | mario/sprites.py:130-134 | `left_border_x` never decreases; afterwards x >= old border (within the truncation), the right edge is within half a screen of the new border, and only x and the border change |
| Sprites.Steered | mario/sprites.py:95-110 | speed_x follows `Steer`; left faces the player left, right (without left) faces it right, no key keeps the facing; nothing else changes |
| Sprites.Jumped | mario/sprites.py:112-128 | a granted jump sets speed_y to -6 - GRAVITY, adds 6 to the accumulator and leaves the ground; otherwise speed_y, accumulator and ground flag stay and the latch is set unless up is released on the ground; the accumulator stays a multiple of 6 in [0, 150] |
| Sprites.Animated | mario/sprites.py:197-228 | the frame counter advances, or restarts at 0 on a skid (pressing against the motion on the ground, not dying); `is_die` is raised when dying past frame 200; nothing else changes |
| Sprites.DeathTimer | mario/sprites.py:189-204 | after `die`, `is_die` is raised on exactly the 201st animation tick and stays raised |
| Sprites.TickedRewards | mario/sprites.py:68-75 | over one update no block moves and no enemy appears or vanishes; the score grows by 200 per coin spawned plus 200 per stomp, the coin count by one per stomp |
| Sprites.Player.constructor | mario/sprites.py:49-66 | a player starts still, on the ground, unlatched, alive, with its bottom on the given line |
| Sprites.Player.StopAgainst | mario/sprites.py:138-156 | one iteration of `collide` is `Stopped` |
| Sprites.Player.Collide | mario/sprites.py:136-160 | returns whether anything overlapped; the player ends as `Pushed` says (see `PushedAgainstLast`, `PushedClear`) and keeps its invariant |
| Sprites.Player.BumpBox | mario/sprites.py:165-172 | one box hit: the box is marked, the player bumped, nothing else in the blocks changes |
| Sprites.Player.BoxCollide | mario/sprites.py:162-174 | the boxes `BoxesAmong` picks (see `BoxCollideTargets`, `BoxesBumpedAgain`) are marked and not removed, the player goes through `BumpAll`, and one coin is placed on each |
| Sprites.Player.Die | mario/sprites.py:189-195 | `die` does what `Died` says |
| Sprites.Player.MeetEnemy | mario/sprites.py:178-187 | a live enemy reached less than 10 px deep is stomped (it dies with frame 0, the player bounces at -15 and gains 200 points and a coin); other contact with a live enemy calls `die` unless already dying; no other enemy changes |
| Sprites.Player.MeetNext | mario/sprites.py:177-187 | the loop of `enemy_collide` advanced by one enemy |
| Sprites.Player.MeetAll | mario/sprites.py:177-187 | the enemies listed, each once, are met in order; the player goes through `Encounter`, the enemies through `StompAll`; only the fields a meeting may change change |
| Sprites.Player.EnemyCollide | mario/sprites.py:176-187 | the player goes through `Encounter` against the enemies as they were before the loop, the enemies through `StompAll`, and both keep their invariants |
| Sprites.Player.Move | mario/sprites.py:77-93 | `move` is `Moved` (see `MovedEffect`, `MovedWhileDying`) |
| Sprites.Player.Drop | mario/sprites.py:78-90 | the horizontal step and pass, gravity and the vertical step |
| Sprites.Player.Land | mario/sprites.py:91-93 | `box_collide`, then the vertical pass in the direction of speed_y as the bumps left it |
| Sprites.Player.Act | mario/sprites.py:70-74 | `change_direction`, `enemy_collide`, `jump`, `border` in order, the player's invariant kept |
| Sprites.Player.Update | mario/sprites.py:68-75 | one update is `Ticked` (see `TickedRewards`); the player's and every enemy's invariant is kept: accumulator a multiple of 6 in [0, 150], \|speed_x\| <= 40.5, speed_y <= GRAVITY, `is_die` exactly when dying past frame 200 |
| Sprites.Player.ChangeDirection | mario/sprites.py:95-110 | speed_x follows `Steer`; left wins over right and sets the facing |
| Sprites.Player.Jump | mario/sprites.py:112-128 | the accumulator and latch follow `JumpStep`; a granted jump sets speed_y to -6 - GRAVITY |
| Sprites.Player.Border | mario/sprites.py:130-134 | `border` is `Bordered` (see `BorderedRatchet`) |
| Sprites.Player.Animate | mario/sprites.py:197-228 | the frame counter advances unless a skid on the ground resets it; a dying player gets `is_die` once the counter passes 200 |
| Cameras.WidestIsMaximum | mario/camera.py:16-19 | the accumulated width is at least its start, at least every right edge, and equal to one of them |
| Cameras.ScrollsForward | mario/camera.py:22-24 | `scroll` never moves the camera backward; a move puts the player's right edge at mid-screen (exactly, and strictly forward, for an even width) |
| Cameras.ScrollGuard | mario/camera.py:23 | for an even width the camera moves exactly when the player is right of mid-screen and the clamp on the old x passes |
| Cameras.ScrollOvershoots | mario/camera.py:23 | the clamp is tested on the old x, so one scroll can end beyond it |
| Cameras.ScrollIdempotent | mario/camera.py:22-24 | a second scroll with the player unmoved changes nothing |
| Cameras.Camera.constructor | mario/camera.py:6-14 | the level width is the largest right edge of all sprites (at least 0), less 3 |
| Cameras.Camera.SetRightBorder | mario/camera.py:16-20 | the loop leaves the largest of the old value and every right edge, less 3 |
| Cameras.Camera.Scroll | mario/camera.py:22-24 | only x changes, never growing, as `Scrolled` says; y, size, level width and player are untouched |
| Cameras.Camera.View | mario/camera.py:26-28 | the window starts at \|x\| and is one screen wide |
| Cameras.Camera.ViewIsScreen | mario/camera.py:26-28 | with the camera at the top, a sprite is in the window exactly when its rectangle as drawn overlaps the screen |

## Left out

- Pictures, image loading, flipping and the choice of picture in `animate`
  are left out. So are all sounds and music and `jump_music_play`. They
  decide nothing in the model; only counters and flags are kept.
- `pygame.key.get_pressed()` is left out: the keys are boolean parameters.
  Image-derived widths and heights are parameters too.
- `Coin` objects for `box_collide` are created by the caller.
  `Player.BoxCollide` and `Player.Update` return where each coin stands, and
  the caller builds one `Coin` per place and adds it to `all_sprites`.
- The `coin.is_die = True` of `box_collide` (`sprites.py:173`) is left out. A
  coin's `update` never reads it.
- The game loop of `mario/game.py` is left out: event handling, the level
  timer, fall death, level end, menus, records and map loading. So is the
  order in which `all_sprites.update` visits sprites after `camera.scroll()`.
  Each sprite's update is modelled separately.
- `Button` and the drawing in `mario/groups.py` are left out, apart from the
  drawing offset, which `ViewIsScreen` relates to the camera's window.
- The blocks' own `update` (a hit box's picture, `sprites.py:272-274`) is
  left out. It only changes a picture.
- Rectangles with a negative width or height are not modelled: every
  sprite's size is that of its picture. `Overlaps` treats them as having no
  area.
- The truncation of non-integer Rect values toward zero is an assumption of
  the model. pygame versions differ on whether such values are truncated or
  refused.
- Cameras.ScrollsForward: "-x strictly increases" is proved only for an even
  camera width. With an odd width, truncation can leave x where it was even
  though the test passed.
