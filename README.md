# Arrowlevels engine core in Dafny

Arrowlevels is a small 2D platformer engine built on pygame. A level script
registers players, blocks, scripted block moves, key bindings and cameras,
then hands control to `mainloop`. Each frame the loop dispatches input
events. It then fires held-key commands, updates every player and advances
every move. Finally it draws, through the active camera if there is one.

This project models the simulation core of `Arrowlevels.py`:

- **Common** (`common.dfy`): shared vocabulary. It defines `Option`, key
  codes, opaque callbacks (`Command`) and the `Event` record of one callback
  firing.
- **Geometry** (`geometry.dfy`): integer rectangles with pygame's
  `colliderect` and `collidepoint` semantics. It also holds Python's `int()`
  on a float (truncation toward zero) and the `Block` record with its flags.
- **Simulation** (`simulation.dfy`): a player's frame as pure functions:
  - `Jumped`;
  - the velocity rule `WalkVelocity`;
  - the two collision sweeps over the block list, `SweepX` and `SweepY`;
  - death and respawn, `AfterDeath`;
  - the whole frame, `Update`.

  The lemmas state what the sweeps promise: hazards stop the sweep, landing
  grounds, ladders are passed through while rising, and callbacks fire in
  list order.
- **Mover** (`mover.dfy`): keyframe following. It covers the clamped step,
  the cyclic index that advances only on exact arrival, and the fold
  `MovesFrom` over all moves.
- **Dispatch** (`dispatch.dfy`): the input registries. It covers key-down
  command lists, held-key bindings, click hit-testing, and the callback trace
  of one frame's input events.
- **Cameras** (`cameras.dfy`): `get_cam_pos`, `apply` with its inverse, and
  the rule that at most one camera is active.
- **Engine** (`engine.dfy`): one `World` class.
  - Its fields are the module-level state of the original: players, blocks,
    moves, the key-down registry, held keys, death commands, gravity, cameras
    and the active-camera handle.
  - It adds a `log` of callback firings.
  - Its methods run the original's loops in place. Each is proved equal to
    the matching specification function, for example
    `UpdatePlayer` ≡ `Update` and `UpdateMoves` ≡ `MovesFrom`.

Callbacks are opaque. Every call the engine makes to a user callback is
appended to `log` as an `Event`, so the model can state the order and count
of calls. Players, blocks and cameras are referred to by their index in the
registries.

## Model

| member | source | states |
|---|---|---|
| `Engine.World.constructor` | Arrowlevels.py:8-12 | A fresh world has empty registries, gravity 0.5, no active camera and an empty trace. |
| `Simulation.NewPlayer` | Arrowlevels.py:16-35 | A new player has its top-left at (100, 100) and the given size. It is at rest, not grounded, not dead and not locked. |
| `Engine.World.AddPlayer` | Arrowlevels.py:16-35 | Constructing a player appends it to the player list and returns its index. |
| `Simulation.Jumped` | Arrowlevels.py:37-40 | Only a grounded, unlocked player jumps: `vy` becomes the jump impulse and it leaves the ground. In every other case the player is unchanged. |
| `Engine.World.Jump` | Arrowlevels.py:37-40 | `jump` changes exactly that player, as `Jumped` says. |
| `Simulation.FirstSpawn` | Arrowlevels.py:45 | Finds the first spawn block in list order, or reports that there is none. |
| `Simulation.Respawn` | Arrowlevels.py:48 | Assigning `midbottom = midtop` keeps the size, aligns the centres horizontally and puts the bottom on the anchor's top. |
| `Simulation.AfterDeath` | Arrowlevels.py:42-49 | After a death the player is dead, has zero velocity and is locked for one frame. It stands on the first spawn block if there is one; otherwise its rectangle is unchanged. |
| `Simulation.DeathTrace` | Arrowlevels.py:50-51 | The trace of the death loop is one call per `playerdeath` command, in registration order. `Engine.World.Die` is proved to log exactly this. |
| `Engine.World.Die` | Arrowlevels.py:42-51 | `_die` sets the player to `AfterDeath` and fires every `playerdeath` command once, in registration order. |
| `Geometry.Overlaps` | Arrowlevels.py:77 | `colliderect` is strict overlap on both axes with positive sizes. Two rectangles collide exactly when some pixel lies in both. |
| `Geometry.ContainsPoint` | Arrowlevels.py:264 | `collidepoint` is half-open: the left and top edges are inside, the right and bottom edges are not. |
| `Geometry.Trunc` | Arrowlevels.py:73 | `int()` truncates toward zero and is within 1 of its argument. |
| `Simulation.WalkVelocity` | Arrowlevels.py:59-67 | Autoscroll pins `vx`. Left wins over right. Left clamps at `-max_walk` and right at `+max_walk`. With no horizontal key, `vx` is multiplied by exactly 0.8. |
| `Simulation.CoastDecays` | Arrowlevels.py:66-67 | With no key held, `vx` after n frames is `vx * 0.8^n`, which never reaches zero from a non-zero start. |
| `Simulation.Accelerated` | Arrowlevels.py:59-73 | Before the horizontal sweep, the input rule is applied to `vx`, gravity is added to `vy`, and the player is moved by `Trunc(vx)`. |
| `Simulation.PushX` | Arrowlevels.py:81-85 | A horizontal hit pushes the player to the block's near edge by the sign of `vx`, leaving no overlap, then zeroes `vx`. With `vx == 0` the player does not move. |
| `Simulation.SweepX` | Arrowlevels.py:74-87 | This is the horizontal pass as a fold over the block list. Passable and non-overlapping blocks are skipped. It stops with `Hit` at a hazard, and otherwise pushes, zeroes `vx` and fires `oncollide`. The lemmas below state its properties, and `Engine.World.SweepHorizontal` is proved equal to it. |
| `Simulation.SweepXFires` | Arrowlevels.py:74-87 | The horizontal pass fires only `oncollide` callbacks of solid, harmless blocks, each at most once, in list order. It fires none from the first hazard on. |
| `Simulation.SweepXHazard` | Arrowlevels.py:74-80 | When the horizontal pass stops, it stops at a block that is dangerous and solid and that overlaps the player at the moment it is examined. |
| `Simulation.SweepXShape` | Arrowlevels.py:74-87 | The horizontal pass changes only the player's x and `vx`. It either keeps `vx` or zeroes it. Once `vx` is zero, later overlaps no longer move the player. |
| `Simulation.SweepsSkip` | Arrowlevels.py:75-77 | Both passes skip blocks that are passable or do not overlap, wherever they sit in the list. Such a block between solid ones never pushes, lands or fires. |
| `Simulation.SweepXFirst` | Arrowlevels.py:74-87 | The first solid overlapping block decides the horizontal pass. If it is a hazard, the pass stops there with `Hit`. Otherwise the player is pushed out, that block's `oncollide` fires, and the pass goes on from the next block. |
| `Simulation.SweepXStill` | Arrowlevels.py:77-87 | With `vx == 0` the player does not move, and the pass stops exactly at the first overlapping solid hazard. It is clear when there is none. Every overlapping solid block before the stop that has an `oncollide` fires. |
| `Engine.World.SweepHorizontal` | Arrowlevels.py:73-87 | The horizontal loop, with its early exit, computes exactly `SweepX`: the final player, whether a hazard was hit, and the callbacks logged. |
| `Simulation.Dropped` | Arrowlevels.py:90-91 | Before the vertical sweep, the player is moved by `Trunc(vy)` and is no longer grounded; nothing else changes. |
| `Simulation.ClimbOut` | Arrowlevels.py:97-100 | The ladder nudge raises the player by a positive multiple of 2. It ends clear of the ladder with its bottom in `(top - 2, top]`. |
| `Simulation.ClimbOutUnique` | Arrowlevels.py:98-99 | Any height reached 2 units at a time that first clears the ladder is the height `ClimbOut` gives. |
| `Engine.World.ClimbLadder` | Arrowlevels.py:97-100 | The `while` nudge loop terminates and ends exactly at `ClimbOut`. It changes only the player's y. |
| `Simulation.Land` | Arrowlevels.py:106-113 | Falling into a block puts the player's bottom on the block's top, zeroes `vy` and sets `grounded`. Rising into a block puts the player's top on the block's bottom and zeroes `vy`. Either way the overlap is gone. |
| `Simulation.SweepY` | Arrowlevels.py:92-115 | This is the vertical pass as a fold over the block list. A ladder met while rising is checked first and climbed out of. Then a hazard stops the pass with `Hit`. Any other solid block lands or stops the player and fires `oncollide`. The lemmas below state its properties, and `Engine.World.SweepVertical` is proved equal to it. |
| `Simulation.SweepYFires` | Arrowlevels.py:92-115 | The vertical pass appends only `oncollide` callbacks of solid, harmless blocks, each at most once, in list order. It fires none from the block where it stops onwards. |
| `Simulation.SweepYHazard` | Arrowlevels.py:92-104 | When the vertical pass stops, it stops at a block that is dangerous, solid and overlapping. That block is never a ladder met while rising. |
| `Simulation.SweepYShape` | Arrowlevels.py:92-115 | The vertical pass changes only the player's y, `vy` and `grounded`. |
| `Simulation.SweepYGrounded` | Arrowlevels.py:91-109 | The vertical pass keeps this invariant: a grounded player has `vy == 0` and stands on a solid, harmless block. |
| `Simulation.SweepYFirst` | Arrowlevels.py:95-115 | The first solid overlapping block decides the vertical pass, and the ladder test comes before the danger test. A ladder met while rising is climbed out of with no death, no landing and no callback. Otherwise a hazard stops the pass with `Hit` there. Any other block lands or stops the player and fires its `oncollide`. |
| `Simulation.SweepYStill` | Arrowlevels.py:95-115 | With `vy == 0`, the state after a landing, the player does not move and the pass stops exactly at the first overlapping solid hazard. Every overlapping solid block before the stop that has an `oncollide` fires. |
| `Simulation.SweepYClimb` | Arrowlevels.py:97-100 | A rising player whose remaining solid blocks are all ladders ends the pass clear, with nothing fired. It keeps `vy`, `grounded` and x, and only moves up. |
| `Simulation.SweepsSkipPassable` | Arrowlevels.py:75-76 | When every remaining block is passable, both passes end clear and leave the player and the trace unchanged. |
| `Engine.World.SweepVertical` | Arrowlevels.py:90-115 | The vertical loop, with the nudge loop and the early exit, computes exactly `SweepY`. |
| `Simulation.Update` | Arrowlevels.py:53-56 | A locked frame only decrements the death timer and fires nothing. |
| `Engine.World.UpdatePlayer` | Arrowlevels.py:53-115 | `Player.update` in place gives exactly the player state and the callbacks of `Update`, including a death in either pass. |
| `Simulation.PlayersTrace` | Arrowlevels.py:269 | The callbacks of all players' updates in one frame are each player's `Update` trace, concatenated in list order. |
| `Simulation.UpdateDeathOnce` | Arrowlevels.py:72-115 | An unlocked frame ends in one of two ways. Either the player is alive and only collision callbacks fired, or there was exactly one death: the player is dead and at rest, and the `playerdeath` commands fire last, once each, in order. |
| `Simulation.UpdateHazardKills` | Arrowlevels.py:72-80 | A hazard that overlaps the player after the horizontal move kills it, in two cases: the hazard is the first solid block the player overlaps, or `vx` is zero. The player dies where it stands, and the `playerdeath` commands fire after the pass's callbacks. `UpdateDeathOnce` makes this the frame's only death. |
| `Simulation.FreeFall` | Arrowlevels.py:58-91 | When no solid block overlaps the player after either move, a frame is pure motion: gravity, the input rule, and a move by both truncated velocities, airborne, with nothing fired. |
| `Simulation.JumpArc` | Arrowlevels.py:37-90 | A jump from rest with the default impulse under default gravity gives `vy` -10, then -9.5 and 9 pixels up after one frame. The ground may be a solid block, as long as nothing solid overlaps the player after either move. |
| `Engine.World.AddBlock` | Arrowlevels.py:119-143 | Constructing a block appends it to the block list. |
| `Engine.World.AddMove` | Arrowlevels.py:155-156 | `Move` registers a move at keyframe 0. |
| `Mover.Clamp` | Arrowlevels.py:164-165 | A step has the sign of the distance and is at most `speed` in absolute value. It never passes the target, and it is the whole distance when that is within reach. |
| `Mover.StepMove` | Arrowlevels.py:159-169 | One move moves only its target block, by the clamped step on each axis. The index advances cyclically exactly on arrival and stays in range. |
| `Mover.NoOvershoot` | Arrowlevels.py:163-167 | The remaining distance on each axis shrinks by the step and never changes sign. |
| `Mover.MovesFrom` | Arrowlevels.py:158-169 | The moves run in list order, each applying `StepMove` (see `MovesFromStep`). Only block rectangles and move indices change, and every index stays valid. |
| `Mover.MovesFromUntargeted` | Arrowlevels.py:158-169 | A block that no remaining move targets keeps its rectangle through `_update_moves`. |
| `Mover.MovesFromStep` | Arrowlevels.py:159-169 | One loop pass keeps the moves valid and leaves the rest of the fold to the next move. |
| `Mover.Frames` | Arrowlevels.py:159-169 | These are `n` frames of one move, each applying `StepMove`. The move keeps its target and keyframes, and its index stays valid. |
| `Mover.MoveArrives` | Arrowlevels.py:163-169 | A move never skips its keyframe. If speed is positive and `n * speed` covers the distance on both axes, the block sits exactly on the keyframe after some frame `m <= n`. At that frame the index advances to the next keyframe, cyclically. |
| `Engine.World.StepMoveAt` | Arrowlevels.py:160-169 | One pass of the loop body in place is `StepMove`. |
| `Engine.World.UpdateMoves` | Arrowlevels.py:158-169 | `_update_moves` in place is `MovesFrom`. |
| `Cameras.CamPos` | Arrowlevels.py:195-202 | The camera position is half a screen up and left of the target's centre, or of the origin without a target, plus the offsets. |
| `Cameras.Apply` | Arrowlevels.py:204-211 | A rectangle is translated by the camera position, then its position and size are scaled by `zoom`. |
| `Cameras.ApplyRoundTrip` | Arrowlevels.py:204-211 | With a non-zero zoom the transform maps back to the world position. |
| `Cameras.FollowsTarget` | Arrowlevels.py:195-211 | The target's centre is always drawn at `(400 - xoffset, 300 - yoffset) * zoom`: the offsets are subtracted on screen. |
| `Cameras.ApplyScalesDistances` | Arrowlevels.py:204-211 | Screen distances are world distances times `zoom`. |
| `Cameras.AddCamera` | Arrowlevels.py:182-193 | An active new camera clears the old active camera's flag and becomes active; an inactive one is only added. Either way at most one camera stays active. |
| `Cameras.AtMostOneActive` | Arrowlevels.py:190-193 | Under the registry invariant, two active cameras are the same camera. |
| `Engine.World.NewCamera` | Arrowlevels.py:182-193 | The `Camera` constructor on the world is `AddCamera` and keeps the world's invariant. |
| `Engine.World.TargetCenter` | Arrowlevels.py:196-201 | Both branches of `get_cam_pos` use the target's centre: a player target gives that player's `rect.center`, a block target that block's `rect.center`, and there is a centre exactly when there is a target. |
| `Engine.World.ScreenRect` | Arrowlevels.py:272-285 | Without an active camera a rectangle is drawn at its world position. With one, it is `Apply` through that camera and the centre of its target, at its size times `zoom`. |
| `Dispatch.KeyTrace` | Arrowlevels.py:266-267 | A key-down fires one call per command registered for the key, in registration order. An unregistered key fires nothing. `AddKeyCommand` states how `Click` extends it. |
| `Dispatch.AddKeyCommand` | Arrowlevels.py:219-222 | `Click` creates the key's list on first use and appends the command after all earlier ones. No other key's list changes. |
| `Dispatch.Bind` | Arrowlevels.py:224 | `_held_keys[key] = command` on the ordered bindings. Its properties are stated by `BindLookup`, `BindPlacement` and `BindDistinct`. |
| `Dispatch.Lookup` | Arrowlevels.py:224 | Lookup finds a command for a key exactly when some binding has that key, and the binding found holds that command. |
| `Dispatch.BindLookup` | Arrowlevels.py:223-224 | After `repeat`, the key maps to the new command and every other key keeps its command. |
| `Dispatch.BindPlacement` | Arrowlevels.py:224 | Rebinding overwrites in place and keeps the iteration order; a new key goes last. |
| `Dispatch.BindDistinct` | Arrowlevels.py:224 | Each key holds at most one held command. |
| `Engine.World.Click` | Arrowlevels.py:219-224 | `Click` updates the key-down lists and, with `repeat`, the held-key bindings, keeping keys distinct. |
| `Dispatch.HeldTrace` | Arrowlevels.py:226-229 | The held-key loop as a fold over the bindings. Its properties are stated by `HeldTraceExact` and `HeldFiresBound`. |
| `Dispatch.HeldTraceExact` | Arrowlevels.py:226-229 | Held keys fire exactly the bound commands whose keys are down, one per key. With distinct keys, the binding that fired an earlier event sits earlier in the bindings, so events come in dict order. |
| `Dispatch.HeldTraceOrdered` | Arrowlevels.py:227-229 | With distinct keys, held-key events come in the order of their bindings. |
| `Dispatch.HeldFiresBound` | Arrowlevels.py:226-229 | A held command fires if and only if its key is down and it is the command bound to that key. |
| `Engine.World.UpdateHeldKeys` | Arrowlevels.py:226-229 | `_update_held_keys` logs exactly `HeldTrace`. |
| `Engine.World.SetPhysics` | Arrowlevels.py:232 | `Physics` sets the gravity. |
| `Engine.World.On` | Arrowlevels.py:234-235 | `playerdeath` appends the command. `keydown` raises and changes nothing. Any other name is ignored. |
| `Engine.World.Forcepush` | Arrowlevels.py:236-237 | Every player's velocity gains the given vector; nothing else changes. |
| `Dispatch.ClickTrace` | Arrowlevels.py:263-264 | The click loop as a fold over the block list. Its properties are stated by `ClickTraceExact`. |
| `Dispatch.ClickTraceExact` | Arrowlevels.py:261-264 | A click fires the `onclick` of every block containing the point, each once, in list order, and nothing else. |
| `Engine.World.ClickAt` | Arrowlevels.py:261-264 | The click loop logs exactly `ClickTrace`. |
| `Engine.World.PressKey` | Arrowlevels.py:265-267 | A key-down event fires the key's commands in registration order. A key nobody registered fires nothing. |
| `Engine.World.HandleEvent` | Arrowlevels.py:260-267 | One event fires its callbacks. A click fires those of the blocks under the pointer, and a key-down fires the key's commands. Quit and other events fire nothing. |
| `Dispatch.DispatchTrace` | Arrowlevels.py:259-267 | The callbacks of a frame's input events are each event's callbacks, concatenated in event order. |
| `Engine.World.DispatchEvents` | Arrowlevels.py:258-267 | The event loop logs each event's callbacks in event order. A quit event stops the run only after the frame. |
| `Engine.World.UpdatePlayers` | Arrowlevels.py:269 | Each player is updated by `Update` in list order, and their callbacks are logged in that order. |
| `Engine.World.Frame` | Arrowlevels.py:257-270 | One frame runs input dispatch, then held keys, then every player's update, then the moves, and keeps the world's invariant. |

## Left out

- Rendering and I/O:
  - pygame initialisation, surfaces, image loading and `Spike` drawing are not modelled.
  - So are the blits, `display.flip`, the frame clock, the banner prints and `pygame.quit`/`sys.exit`.
  - A sprite's size is a parameter (`w`, `h`) of `AddPlayer`, and the block rectangle is part of `Block`.
- The OS event pump is not modelled. The key-state table (`pressed`) and the event list are parameters. A `MouseDown` event carries the pointer position that `mouse.get_pos()` reads when the event is handled.
- `Music`, `Save` and `Load` are left out: they are audio and JSON file I/O.
- Floating point:
  - velocities, gravity and zoom are exact reals;
  - IEEE rounding is not modelled;
  - `Engine.World.ScreenRect` returns the transformed rectangle before pygame converts its coordinates to integers.
- Callback bodies are opaque. The model assumes that a callback leaves the engine's state untouched.
  - The original runs callbacks in the middle of its loops (`Arrowlevels.py:51, 87, 115, 229, 264, 267`). A callback that changes a player or a registry there changes the rest of that pass. Examples are a bounce pad `oncollide` that calls `Forcepush`, a held-key command that calls `jump`, and a callback that adds blocks.
  - `Engine.World.UpdatePlayer`, `Engine.World.Frame` and the sweep lemmas hold only under that assumption. After such a bounce, for instance, `SweepYGrounded`'s "grounded means `vy == 0`" no longer holds in the original.
- Coordinates are unbounded integers. pygame stores `Rect` coordinates as C ints, so a long free fall under uncapped `vy` would eventually leave that range; this is not modelled.
- Moves that target a player rather than a block are not modelled.
- Engine.World.AddMove: requires a non-empty keyframe list. The original accepts an empty one, and the next `_update_moves` then raises `IndexError` at `Arrowlevels.py:162`, which ends the main loop. That crash is not modelled.
- Keyframe positions are integer pairs. In the original, a position written as a list never compares equal to the position tuple, so such a move never advances; this is not modelled.
- `Engine.World.On` returns `Crashed` for `keydown` where the original raises an exception. The exception itself is not modelled.
- `Simulation.Update`: its own contract states only the locked frame. The unlocked frame is stated by the sweep lemmas, `UpdateDeathOnce` and `FreeFall`, and by `Engine.World.UpdatePlayer`.
- Behaviour a reader might not expect, modelled as the code has it:
  - the camera offset is added to the camera position and so is subtracted on screen;
  - `target_player` has no effect, because both branches of `get_cam_pos` use the target's centre;
  - `dead` is never reset;
  - there is no sprite animator and no block deregistration.
