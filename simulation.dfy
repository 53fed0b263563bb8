/** Player simulation: the per-frame velocity rule, the two collision sweeps
    over the block list, death and respawn, as functions of the player's state.
    The `World` methods in module Engine run the same steps in place and are
    proved equal to `Update`. */
module Simulation {
  import opened Common
  import opened Geometry

  /** pygame 2 key codes of the arrow keys. */
  const K_LEFT: Key := 1073741904
  const K_RIGHT: Key := 1073741903

  /** Horizontal velocity is multiplied by this with no horizontal key down. */
  const DAMPING: real := 0.8

  /** The per-player motion constants given to the constructor. */
  datatype Tunables = Tunables(
    walkAcc: real,
    maxWalk: real,
    jumpAcc: real,
    autoscroll: bool,
    autoscrollSpeed: real)

  const DEFAULT_TUNABLES: Tunables := Tunables(1.0, 5.0, -10.0, false, 2.0)

  /** A player's mutable state: rectangle, velocity, and the state machine
      flags. `deathTimer` counts the frames still locked after a death. */
  datatype Player = Player(
    rect: Rect,
    vx: real,
    vy: real,
    grounded: bool,
    dead: bool,
    deathTimer: nat,
    tun: Tunables)

  /** A freshly constructed player: placed with its top-left at (100, 100),
      at rest, airborne, alive. */
  function NewPlayer(w: nat, h: nat, tun: Tunables): (p: Player)
    ensures p.rect.x == 100 && p.rect.y == 100 && p.rect.w == w && p.rect.h == h
    ensures p.vx == 0.0 && p.vy == 0.0
    ensures !p.grounded && !p.dead && p.deathTimer == 0 && p.tun == tun
  {
    Player(Rect(100, 100, w, h), 0.0, 0.0, false, false, 0, tun)
  }

  // ---------------------------------------------------------------- jump

  /** `Player.jump`: only a grounded player outside the death lock jumps. */
  function Jumped(p: Player): (q: Player)
    ensures p.grounded && p.deathTimer == 0 ==> q.vy == p.tun.jumpAcc && !q.grounded
    ensures p.grounded && p.deathTimer == 0 ==> q == p.(vy := q.vy, grounded := false)
    ensures !(p.grounded && p.deathTimer == 0) ==> q == p
  {
    if p.grounded && p.deathTimer == 0 then p.(vy := p.tun.jumpAcc, grounded := false) else p
  }

  // ------------------------------------------------------------ velocity

  /** Horizontal velocity after this frame's input: autoscroll pins it, left
      wins over right, and with neither key it decays by `DAMPING`. */
  function WalkVelocity(t: Tunables, vx: real, pressed: set<Key>): (r: real)
    ensures t.autoscroll ==> r == t.autoscrollSpeed
    ensures !t.autoscroll && K_LEFT in pressed ==>
      r >= -t.maxWalk && r >= vx - t.walkAcc && (r == -t.maxWalk || r == vx - t.walkAcc)
    ensures !t.autoscroll && K_LEFT !in pressed && K_RIGHT in pressed ==>
      r <= t.maxWalk && r <= vx + t.walkAcc && (r == t.maxWalk || r == vx + t.walkAcc)
    ensures !t.autoscroll && K_LEFT !in pressed && K_RIGHT !in pressed ==> r == DAMPING * vx
  {
    if t.autoscroll then t.autoscrollSpeed
    else if K_LEFT in pressed then (if -t.maxWalk >= vx - t.walkAcc then -t.maxWalk else vx - t.walkAcc)
    else if K_RIGHT in pressed then (if t.maxWalk <= vx + t.walkAcc then t.maxWalk else vx + t.walkAcc)
    else vx * DAMPING
  }

  function Pow(b: real, n: nat): real {
    if n == 0 then 1.0 else b * Pow(b, n - 1)
  }

  /** Horizontal velocity after `n` frames with no horizontal key down. */
  function Coast(t: Tunables, vx: real, n: nat): real {
    if n == 0 then vx else WalkVelocity(t, Coast(t, vx, n - 1), {})
  }

  /** Damping is an exponential approach to zero that never reaches it. */
  lemma {:induction false} CoastDecays(t: Tunables, vx: real, n: nat)
    requires !t.autoscroll
    ensures Coast(t, vx, n) == vx * Pow(DAMPING, n)
    ensures Pow(DAMPING, n) > 0.0
    ensures vx != 0.0 ==> Coast(t, vx, n) != 0.0
  {
    if n > 0 {
      CoastDecays(t, vx, n - 1);
      assert Coast(t, vx, n) == DAMPING * (vx * Pow(DAMPING, n - 1));
    }
  }

  // --------------------------------------------------------------- death

  /** The first block of the list (from index `from` on) that is a spawn. */
  function FirstSpawn(blocks: seq<Block>, from: nat): (r: Option<nat>)
    requires from <= |blocks|
    ensures r.Some? ==> from <= r.value < |blocks| && blocks[r.value].spawn
    ensures r.Some? ==> forall j :: from <= j < r.value ==> !blocks[j].spawn
    ensures r.None? ==> forall j :: from <= j < |blocks| ==> !blocks[j].spawn
    decreases |blocks| - from
  {
    if from == |blocks| then None
    else if blocks[from].spawn then Some(from)
    else FirstSpawn(blocks, from + 1)
  }

  /** Assigning `r.midbottom = anchor.midtop`. */
  function Respawn(r: Rect, anchor: Rect): (q: Rect)
    ensures q.w == r.w && q.h == r.h
    ensures q.CenterX() == anchor.CenterX() && q.Bottom() == anchor.y
  {
    r.(x := anchor.CenterX() - r.w / 2, y := anchor.y - r.h)
  }

  /** `Player._die` on the player's state: dead, at rest, locked for one
      frame, and standing on the first spawn block if there is one. */
  function AfterDeath(p: Player, blocks: seq<Block>): (d: Player)
    ensures d.dead && d.vx == 0.0 && d.vy == 0.0 && d.deathTimer == 1
    ensures d.grounded == p.grounded && d.tun == p.tun
    ensures FirstSpawn(blocks, 0).None? ==> d.rect == p.rect
    ensures FirstSpawn(blocks, 0).Some? ==>
      var anchor := blocks[FirstSpawn(blocks, 0).value].rect;
      d.rect.w == p.rect.w && d.rect.h == p.rect.h &&
      d.rect.CenterX() == anchor.CenterX() && d.rect.Bottom() == anchor.y
  {
    var r := match FirstSpawn(blocks, 0)
      case Some(k) => Respawn(p.rect, blocks[k].rect)
      case None => p.rect;
    p.(dead := true, vx := 0.0, vy := 0.0, rect := r, deathTimer := 1)
  }

  /** The `playerdeath` commands, each called once, in registration order. */
  function DeathTrace(cmds: seq<Command>): seq<Event> {
    seq(|cmds|, i requires 0 <= i < |cmds| => DeathCommand(cmds[i]))
  }

  // ------------------------------------------------------- the two sweeps

  /** How a sweep over the block list ends: it runs to the end of the list,
      or stops at the first overlapping hazard (`hazard`), which kills. */
  datatype Sweep =
    | Clear(p: Player, fired: seq<Event>)
    | Hit(p: Player, fired: seq<Event>, hazard: nat)

  /** The collision callback of block `i`, if it has one. */
  function CollideEvent(b: Block, i: nat): seq<Event> {
    if b.onCollide.Some? then [Collided(i)] else []
  }

  /** Horizontal push-out: to the block's near edge by the sign of `vx`,
      then `vx` is zeroed. */
  function PushX(p: Player, b: Rect): (q: Player)
    ensures q == p.(rect := p.rect.(x := q.rect.x), vx := 0.0)
    ensures p.vx > 0.0 ==> q.rect.Right() == b.x
    ensures p.vx < 0.0 ==> q.rect.x == b.Right()
    ensures p.vx == 0.0 ==> q.rect == p.rect
    ensures p.vx != 0.0 ==> !Overlaps(q.rect, b)
  {
    var x := if p.vx > 0.0 then b.x - p.rect.w
             else if p.vx < 0.0 then b.x + b.w
             else p.rect.x;
    p.(rect := p.rect.(x := x), vx := 0.0)
  }

  /** The horizontal pass of `Player.update` from block `i` on, with the
      callbacks fired so far in `fired`. */
  function SweepX(blocks: seq<Block>, i: nat, p: Player, fired: seq<Event>): Sweep
    requires i <= |blocks|
    decreases |blocks| - i
  {
    if i == |blocks| then Clear(p, fired)
    else if blocks[i].passable || !Overlaps(p.rect, blocks[i].rect) then SweepX(blocks, i + 1, p, fired)
    else if blocks[i].danger then Hit(p, fired, i)
    else SweepX(blocks, i + 1, PushX(p, blocks[i].rect), fired + CollideEvent(blocks[i], i))
  }

  /** The ladder nudge: the height the player reaches by stepping up 2 units
      at a time from an overlap until it no longer overlaps the ladder. */
  function ClimbOut(r: Rect, ladder: Rect): (y: int)
    requires Overlaps(r, ladder)
    ensures y < r.y && (r.y - y) % 2 == 0
    ensures ladder.y - 2 < y + r.h <= ladder.y
    ensures !Overlaps(r.(y := y), ladder)
  {
    r.y - 2 * ((r.y + r.h - ladder.y + 1) / 2)
  }

  /** The nudge loop stops exactly where `ClimbOut` says: the first height,
      2 units at a time, at which the player is clear of the ladder. */
  lemma ClimbOutUnique(r: Rect, ladder: Rect, y: int)
    requires Overlaps(r, ladder)
    requires y <= r.y && (r.y - y) % 2 == 0
    requires ladder.y - 2 < y + r.h
    requires !Overlaps(r.(y := y), ladder)
    ensures y == ClimbOut(r, ladder)
  {
    var c := ClimbOut(r, ladder);
    assert y + r.h <= ladder.y;
    assert (y - c) % 2 == 0;
  }

  /** Vertical resolution against a solid block: a falling player lands on
      its top, a rising one is stopped by its bottom. */
  function Land(p: Player, b: Rect): (q: Player)
    ensures q.rect == p.rect.(y := q.rect.y) && q.vx == p.vx && q.dead == p.dead
    ensures q.deathTimer == p.deathTimer && q.tun == p.tun
    ensures p.vy > 0.0 ==> q.rect.Bottom() == b.y && q.vy == 0.0 && q.grounded
    ensures p.vy < 0.0 ==> q.rect.y == b.Bottom() && q.vy == 0.0 && q.grounded == p.grounded
    ensures p.vy == 0.0 ==> q == p
    ensures p.vy != 0.0 ==> !Overlaps(q.rect, b)
  {
    if p.vy > 0.0 then p.(rect := p.rect.(y := b.y - p.rect.h), vy := 0.0, grounded := true)
    else if p.vy < 0.0 then p.(rect := p.rect.(y := b.y + b.h), vy := 0.0)
    else p
  }

  /** The vertical pass of `Player.update` from block `i` on. */
  function SweepY(blocks: seq<Block>, i: nat, p: Player, fired: seq<Event>): Sweep
    requires i <= |blocks|
    decreases |blocks| - i
  {
    if i == |blocks| then Clear(p, fired)
    else if blocks[i].passable || !Overlaps(p.rect, blocks[i].rect) then SweepY(blocks, i + 1, p, fired)
    else if blocks[i].ladder && p.vy < 0.0 then
      SweepY(blocks, i + 1, p.(rect := p.rect.(y := ClimbOut(p.rect, blocks[i].rect))), fired)
    else if blocks[i].danger then Hit(p, fired, i)
    else SweepY(blocks, i + 1, Land(p, blocks[i].rect), fired + CollideEvent(blocks[i], i))
  }

  // ------------------------------------------------------------ one frame

  datatype Outcome = Outcome(p: Player, fired: seq<Event>)

  /** The state before the horizontal sweep: input and gravity applied, and
      the player moved by the truncated horizontal velocity. */
  function Accelerated(p: Player, gravity: real, pressed: set<Key>): (q: Player)
    ensures q.vx == WalkVelocity(p.tun, p.vx, pressed) && q.vy == p.vy + gravity
    ensures q.rect == p.rect.(x := p.rect.x + Trunc(q.vx))
    ensures q.grounded == p.grounded && q.dead == p.dead && q.deathTimer == p.deathTimer && q.tun == p.tun
  {
    var vx := WalkVelocity(p.tun, p.vx, pressed);
    p.(vx := vx, vy := p.vy + gravity, rect := p.rect.(x := p.rect.x + Trunc(vx)))
  }

  /** The state before the vertical sweep: moved by the truncated vertical
      velocity, `grounded` reset. */
  function Dropped(p: Player): (q: Player)
    ensures q.rect == p.rect.(y := p.rect.y + Trunc(p.vy)) && !q.grounded
    ensures q == p.(rect := q.rect, grounded := false)
  {
    p.(rect := p.rect.(y := p.rect.y + Trunc(p.vy)), grounded := false)
  }

  /** `Player.update`: a locked frame only counts the lock down; otherwise
      input, gravity, the horizontal sweep, then the vertical sweep, and a
      hazard in either sweep ends the frame with a death. */
  function Update(p: Player, blocks: seq<Block>, gravity: real, deathCmds: seq<Command>, pressed: set<Key>): (o: Outcome)
    ensures p.deathTimer > 0 ==> o == Outcome(p.(deathTimer := p.deathTimer - 1), [])
  {
    if p.deathTimer > 0 then Outcome(p.(deathTimer := p.deathTimer - 1), [])
    else
      match SweepX(blocks, 0, Accelerated(p, gravity, pressed), [])
      case Hit(q, f, _) => Outcome(AfterDeath(q, blocks), f + DeathTrace(deathCmds))
      case Clear(q, f) =>
        match SweepY(blocks, 0, Dropped(q), f)
        case Hit(r, g, _) => Outcome(AfterDeath(r, blocks), g + DeathTrace(deathCmds))
        case Clear(r, g) => Outcome(r, g)
  }

  /** The callbacks fired by updating the first `n` players in list order
      (each update sees the same blocks: players do not collide). */
  function PlayersTrace(ps: seq<Player>, n: nat, blocks: seq<Block>, gravity: real, deathCmds: seq<Command>, pressed: set<Key>): seq<Event>
    requires n <= |ps|
    decreases n
  {
    if n == 0 then []
    else PlayersTrace(ps, n - 1, blocks, gravity, deathCmds, pressed) + Update(ps[n - 1], blocks, gravity, deathCmds, pressed).fired
  }

  // --------------------------------------------------------- sweep lemmas

  /** The callbacks a sweep adds: `oncollide` of solid harmless blocks with
      index in [from, upto), each block at most once, in list order. */
  ghost predicate CollisionRun(s: seq<Event>, from: nat, upto: nat, blocks: seq<Block>) {
    && (forall k :: 0 <= k < |s| ==>
          && s[k].Collided? && from <= s[k].block < upto && s[k].block < |blocks|
          && blocks[s[k].block].onCollide.Some?
          && !blocks[s[k].block].passable && !blocks[s[k].block].danger)
    && (forall a, b :: 0 <= a < b < |s| && s[a].Collided? && s[b].Collided? ==> s[a].block < s[b].block)
  }

  lemma CollisionRunPrepend(b: Block, i: nat, rest: seq<Event>, upto: nat, blocks: seq<Block>)
    requires i < |blocks| && blocks[i] == b && !b.passable && !b.danger
    requires CollisionRun(rest, i + 1, upto, blocks)
    requires i < upto
    ensures CollisionRun(CollideEvent(b, i) + rest, i, upto, blocks)
  {
  }

  /** Where the sweep stops, if anywhere. */
  function Upto(s: Sweep, blocks: seq<Block>): nat {
    if s.Hit? then s.hazard else |blocks|
  }

  /** The horizontal sweep only appends collision callbacks, in list order,
      each block at most once, and none from the hazard on. */
  lemma {:induction false} SweepXFires(blocks: seq<Block>, i: nat, p: Player, fired: seq<Event>)
    requires i <= |blocks|
    ensures var s := SweepX(blocks, i, p, fired);
      fired <= s.fired && i <= Upto(s, blocks) <= |blocks| &&
      CollisionRun(s.fired[|fired|..], i, Upto(s, blocks), blocks)
    decreases |blocks| - i
  {
    var s := SweepX(blocks, i, p, fired);
    if i == |blocks| {
      assert s.fired[|fired|..] == [];
    } else if blocks[i].passable || !Overlaps(p.rect, blocks[i].rect) {
      SweepXFires(blocks, i + 1, p, fired);
    } else if blocks[i].danger {
      assert s.fired[|fired|..] == [];
    } else {
      var f := fired + CollideEvent(blocks[i], i);
      SweepXFires(blocks, i + 1, PushX(p, blocks[i].rect), f);
      assert s.fired[|fired|..] == CollideEvent(blocks[i], i) + s.fired[|f|..];
      CollisionRunPrepend(blocks[i], i, s.fired[|f|..], Upto(s, blocks), blocks);
    }
  }

  /** A horizontal hit is a hazard that is solid and overlaps the player at
      the moment it is examined. */
  lemma {:induction false} SweepXHazard(blocks: seq<Block>, i: nat, p: Player, fired: seq<Event>)
    requires i <= |blocks|
    ensures var s := SweepX(blocks, i, p, fired);
      s.Hit? ==> i <= s.hazard < |blocks| && blocks[s.hazard].danger &&
                 !blocks[s.hazard].passable && Overlaps(s.p.rect, blocks[s.hazard].rect)
    decreases |blocks| - i
  {
    if i < |blocks| {
      if blocks[i].passable || !Overlaps(p.rect, blocks[i].rect) {
        SweepXHazard(blocks, i + 1, p, fired);
      } else if !blocks[i].danger {
        SweepXHazard(blocks, i + 1, PushX(p, blocks[i].rect), fired + CollideEvent(blocks[i], i));
      }
    }
  }

  /** The horizontal sweep moves the player along x only and either keeps
      `vx` or zeroes it; once `vx` is zero it no longer moves the player. */
  lemma {:induction false} SweepXShape(blocks: seq<Block>, i: nat, p: Player, fired: seq<Event>)
    requires i <= |blocks|
    ensures var q := SweepX(blocks, i, p, fired).p;
      q == p.(rect := p.rect.(x := q.rect.x), vx := q.vx) && (q.vx == p.vx || q.vx == 0.0)
    ensures p.vx == 0.0 ==> SweepX(blocks, i, p, fired).p == p
    decreases |blocks| - i
  {
    if i < |blocks| {
      if blocks[i].passable || !Overlaps(p.rect, blocks[i].rect) {
        SweepXShape(blocks, i + 1, p, fired);
      } else if !blocks[i].danger {
        SweepXShape(blocks, i + 1, PushX(p, blocks[i].rect), fired + CollideEvent(blocks[i], i));
      }
    }
  }

  /** The vertical sweep only appends collision callbacks, in list order,
      each block at most once, and none from the hazard on. */
  lemma {:induction false} SweepYFires(blocks: seq<Block>, i: nat, p: Player, fired: seq<Event>)
    requires i <= |blocks|
    ensures var s := SweepY(blocks, i, p, fired);
      fired <= s.fired && i <= Upto(s, blocks) <= |blocks| &&
      CollisionRun(s.fired[|fired|..], i, Upto(s, blocks), blocks)
    decreases |blocks| - i
  {
    var s := SweepY(blocks, i, p, fired);
    if i == |blocks| {
      assert s.fired[|fired|..] == [];
    } else if blocks[i].passable || !Overlaps(p.rect, blocks[i].rect) {
      SweepYFires(blocks, i + 1, p, fired);
    } else if blocks[i].ladder && p.vy < 0.0 {
      SweepYFires(blocks, i + 1, p.(rect := p.rect.(y := ClimbOut(p.rect, blocks[i].rect))), fired);
    } else if blocks[i].danger {
      assert s.fired[|fired|..] == [];
    } else {
      var f := fired + CollideEvent(blocks[i], i);
      SweepYFires(blocks, i + 1, Land(p, blocks[i].rect), f);
      assert s.fired[|fired|..] == CollideEvent(blocks[i], i) + s.fired[|f|..];
      CollisionRunPrepend(blocks[i], i, s.fired[|f|..], Upto(s, blocks), blocks);
    }
  }

  /** A vertical hit is a solid hazard overlapping the player, and never a
      ladder met while rising. */
  lemma {:induction false} SweepYHazard(blocks: seq<Block>, i: nat, p: Player, fired: seq<Event>)
    requires i <= |blocks|
    ensures var s := SweepY(blocks, i, p, fired);
      s.Hit? ==> i <= s.hazard < |blocks| && blocks[s.hazard].danger &&
                 !blocks[s.hazard].passable && Overlaps(s.p.rect, blocks[s.hazard].rect) &&
                 !(blocks[s.hazard].ladder && s.p.vy < 0.0)
    decreases |blocks| - i
  {
    if i < |blocks| {
      if blocks[i].passable || !Overlaps(p.rect, blocks[i].rect) {
        SweepYHazard(blocks, i + 1, p, fired);
      } else if blocks[i].ladder && p.vy < 0.0 {
        SweepYHazard(blocks, i + 1, p.(rect := p.rect.(y := ClimbOut(p.rect, blocks[i].rect))), fired);
      } else if !blocks[i].danger {
        SweepYHazard(blocks, i + 1, Land(p, blocks[i].rect), fired + CollideEvent(blocks[i], i));
      }
    }
  }

  /** The vertical sweep moves the player along y only, and changes nothing
      but `y`, `vy` and `grounded`. */
  lemma {:induction false} SweepYShape(blocks: seq<Block>, i: nat, p: Player, fired: seq<Event>)
    requires i <= |blocks|
    ensures var q := SweepY(blocks, i, p, fired).p;
      q == p.(rect := p.rect.(y := q.rect.y), vy := q.vy, grounded := q.grounded)
    decreases |blocks| - i
  {
    if i < |blocks| {
      if blocks[i].passable || !Overlaps(p.rect, blocks[i].rect) {
        SweepYShape(blocks, i + 1, p, fired);
      } else if blocks[i].ladder && p.vy < 0.0 {
        SweepYShape(blocks, i + 1, p.(rect := p.rect.(y := ClimbOut(p.rect, blocks[i].rect))), fired);
      } else if !blocks[i].danger {
        SweepYShape(blocks, i + 1, Land(p, blocks[i].rect), fired + CollideEvent(blocks[i], i));
      }
    }
  }

  /** A grounded player is at rest vertically and stands on a solid,
      harmless block. */
  ghost predicate Supported(p: Player, blocks: seq<Block>) {
    p.grounded ==>
      p.vy == 0.0 &&
      exists k :: 0 <= k < |blocks| && !blocks[k].passable && !blocks[k].danger &&
                  StandsOn(p.rect, blocks[k].rect)
  }

  /** `grounded` only becomes true by landing: the vertical sweep keeps
      "grounded means at rest on a solid harmless block". */
  lemma {:induction false} SweepYGrounded(blocks: seq<Block>, i: nat, p: Player, fired: seq<Event>)
    requires i <= |blocks|
    requires Supported(p, blocks)
    ensures Supported(SweepY(blocks, i, p, fired).p, blocks)
    decreases |blocks| - i
  {
    if i < |blocks| {
      var b := blocks[i];
      if b.passable || !Overlaps(p.rect, b.rect) {
        SweepYGrounded(blocks, i + 1, p, fired);
      } else if b.ladder && p.vy < 0.0 {
        SweepYGrounded(blocks, i + 1, p.(rect := p.rect.(y := ClimbOut(p.rect, b.rect))), fired);
      } else if !b.danger {
        var q := Land(p, b.rect);
        if p.vy > 0.0 {
          assert StandsOn(q.rect, blocks[i].rect);
        }
        SweepYGrounded(blocks, i + 1, q, fired + CollideEvent(b, i));
      }
    }
  }

  /** Rising through ladders: while every solid block ahead is a ladder, a
      rising player never dies, never lands, fires nothing, keeps its
      velocity and only moves up. */
  lemma {:induction false} SweepYClimb(blocks: seq<Block>, i: nat, p: Player, fired: seq<Event>)
    requires i <= |blocks| && p.vy < 0.0
    requires forall k :: i <= k < |blocks| && !blocks[k].passable ==> blocks[k].ladder
    ensures var s := SweepY(blocks, i, p, fired);
      s.Clear? && s.fired == fired && s.p.vy == p.vy && s.p.grounded == p.grounded &&
      s.p.rect.x == p.rect.x && s.p.rect.y <= p.rect.y
    decreases |blocks| - i
  {
    if i < |blocks| {
      if blocks[i].passable || !Overlaps(p.rect, blocks[i].rect) {
        SweepYClimb(blocks, i + 1, p, fired);
      } else {
        SweepYClimb(blocks, i + 1, p.(rect := p.rect.(y := ClimbOut(p.rect, blocks[i].rect))), fired);
      }
    }
  }

  /** Passable blocks are skipped by both sweeps. */
  lemma {:induction false} SweepsSkipPassable(blocks: seq<Block>, i: nat, p: Player, fired: seq<Event>)
    requires i <= |blocks|
    requires forall k :: i <= k < |blocks| ==> blocks[k].passable
    ensures SweepX(blocks, i, p, fired) == Clear(p, fired)
    ensures SweepY(blocks, i, p, fired) == Clear(p, fired)
    decreases |blocks| - i
  {
    if i < |blocks| {
      SweepsSkipPassable(blocks, i + 1, p, fired);
    }
  }

  // ------------------------------------------------ what a sweep must do

  /** Block `b` takes part in a sweep against `r`: it is solid and overlaps. */
  predicate Solid(b: Block, r: Rect) {
    !b.passable && Overlaps(r, b.rect)
  }

  /** Block `b` kills a player at `r` when examined: a solid, overlapping hazard. */
  predicate Kills(b: Block, r: Rect) {
    Solid(b, r) && b.danger
  }

  /** Blocks that are passable or do not overlap are skipped by both sweeps,
      wherever they sit in the list. */
  lemma {:induction false} SweepsSkip(blocks: seq<Block>, i: nat, k: nat, p: Player, fired: seq<Event>)
    requires i <= k <= |blocks|
    requires forall j :: i <= j < k ==> !Solid(blocks[j], p.rect)
    ensures SweepX(blocks, i, p, fired) == SweepX(blocks, k, p, fired)
    ensures SweepY(blocks, i, p, fired) == SweepY(blocks, k, p, fired)
    decreases k - i
  {
    if i < k {
      SweepsSkip(blocks, i + 1, k, p, fired);
    }
  }

  /** The first solid overlapping block decides the horizontal pass: a
      hazard kills there, anything else pushes the player out and fires its
      `oncollide`, and the pass goes on from the next block. */
  lemma SweepXFirst(blocks: seq<Block>, i: nat, k: nat, p: Player, fired: seq<Event>)
    requires i <= k < |blocks| && Solid(blocks[k], p.rect)
    requires forall j :: i <= j < k ==> !Solid(blocks[j], p.rect)
    ensures SweepX(blocks, i, p, fired) ==
      if blocks[k].danger then Hit(p, fired, k)
      else SweepX(blocks, k + 1, PushX(p, blocks[k].rect), fired + CollideEvent(blocks[k], k))
  {
    SweepsSkip(blocks, i, k, p, fired);
  }

  /** With `vx == 0` nothing moves the player, so the horizontal pass stops
      exactly at the first overlapping solid hazard (and is clear when there
      is none), and every overlapping solid block before it with an
      `oncollide` fires. */
  lemma {:induction false} SweepXStill(blocks: seq<Block>, i: nat, p: Player, fired: seq<Event>)
    requires i <= |blocks| && p.vx == 0.0
    ensures var s := SweepX(blocks, i, p, fired);
      && s.p == p && Upto(s, blocks) <= |blocks|
      && (forall k :: i <= k < Upto(s, blocks) ==> !Kills(blocks[k], p.rect))
      && (s.Hit? ==> s.hazard < |blocks| && Kills(blocks[s.hazard], p.rect))
      && (forall k :: i <= k < Upto(s, blocks) && Solid(blocks[k], p.rect) && blocks[k].onCollide.Some? ==>
            Collided(k) in s.fired)
    decreases |blocks| - i
  {
    if i < |blocks| {
      var b := blocks[i];
      if !Solid(b, p.rect) {
        SweepXStill(blocks, i + 1, p, fired);
      } else if !b.danger {
        assert PushX(p, b.rect) == p;
        var f := fired + CollideEvent(b, i);
        SweepXStill(blocks, i + 1, p, f);
        SweepXFires(blocks, i + 1, p, f);
        if b.onCollide.Some? {
          assert f[|f| - 1] == Collided(i);
        }
      }
    }
  }

  /** The first solid overlapping block decides the vertical pass, and the
      ladder test comes first: a ladder met while rising is climbed out of
      without a death, a landing or a callback; otherwise a hazard kills
      there, and anything else lands or stops the player and fires its
      `oncollide`. */
  lemma SweepYFirst(blocks: seq<Block>, i: nat, k: nat, p: Player, fired: seq<Event>)
    requires i <= k < |blocks| && Solid(blocks[k], p.rect)
    requires forall j :: i <= j < k ==> !Solid(blocks[j], p.rect)
    ensures SweepY(blocks, i, p, fired) ==
      if blocks[k].ladder && p.vy < 0.0 then
        SweepY(blocks, k + 1, p.(rect := p.rect.(y := ClimbOut(p.rect, blocks[k].rect))), fired)
      else if blocks[k].danger then Hit(p, fired, k)
      else SweepY(blocks, k + 1, Land(p, blocks[k].rect), fired + CollideEvent(blocks[k], k))
  {
    SweepsSkip(blocks, i, k, p, fired);
  }

  /** With `vy == 0` (the state after any landing) the vertical pass stops
      exactly at the first overlapping solid hazard, ladders included, and
      every overlapping solid block before it with an `oncollide` fires. */
  lemma {:induction false} SweepYStill(blocks: seq<Block>, i: nat, p: Player, fired: seq<Event>)
    requires i <= |blocks| && p.vy == 0.0
    ensures var s := SweepY(blocks, i, p, fired);
      && s.p == p && Upto(s, blocks) <= |blocks|
      && (forall k :: i <= k < Upto(s, blocks) ==> !Kills(blocks[k], p.rect))
      && (s.Hit? ==> s.hazard < |blocks| && Kills(blocks[s.hazard], p.rect))
      && (forall k :: i <= k < Upto(s, blocks) && Solid(blocks[k], p.rect) && blocks[k].onCollide.Some? ==>
            Collided(k) in s.fired)
    decreases |blocks| - i
  {
    if i < |blocks| {
      var b := blocks[i];
      if !Solid(b, p.rect) {
        SweepYStill(blocks, i + 1, p, fired);
      } else if !b.danger {
        assert Land(p, b.rect) == p;
        var f := fired + CollideEvent(b, i);
        SweepYStill(blocks, i + 1, p, f);
        SweepYFires(blocks, i + 1, p, f);
        if b.onCollide.Some? {
          assert f[|f| - 1] == Collided(i);
        }
      }
    }
  }

  // -------------------------------------------------------- frame lemmas

  /** One death per death transition: an unlocked frame either ends alive
      with only collision callbacks fired, or ends in exactly one death,
      which fires every `playerdeath` command once, last, in order. */
  lemma UpdateDeathOnce(p: Player, blocks: seq<Block>, gravity: real, cmds: seq<Command>, pressed: set<Key>)
    requires p.deathTimer == 0
    ensures var o := Update(p, blocks, gravity, cmds, pressed);
      && o.p.deathTimer <= 1
      && (o.p.deathTimer == 0 ==> OnlyCollisions(o.fired) && o.p.dead == p.dead)
      && (o.p.deathTimer == 1 ==>
            o.p.dead && o.p.vx == 0.0 && o.p.vy == 0.0 && |cmds| <= |o.fired| &&
            OnlyCollisions(o.fired[..|o.fired| - |cmds|]) &&
            o.fired[|o.fired| - |cmds|..] == DeathTrace(cmds))
  {
    var a := Accelerated(p, gravity, pressed);
    SweepXFires(blocks, 0, a, []);
    SweepXShape(blocks, 0, a, []);
    var sx := SweepX(blocks, 0, a, []);
    assert sx.fired[0..] == sx.fired;
    if sx.Clear? {
      var d := Dropped(sx.p);
      SweepYFires(blocks, 0, d, sx.fired);
      SweepYShape(blocks, 0, d, sx.fired);
      var sy := SweepY(blocks, 0, d, sx.fired);
      assert sy.fired == sx.fired + sy.fired[|sx.fired|..];
      if sy.Hit? {
        var o := Update(p, blocks, gravity, cmds, pressed);
        assert o.fired[..|o.fired| - |cmds|] == sy.fired;
      }
    } else {
      var o := Update(p, blocks, gravity, cmds, pressed);
      assert o.fired[..|o.fired| - |cmds|] == sx.fired;
    }
  }

  /** A hazard overlapping the player after the horizontal move kills it,
      once: when it is the first solid block the player overlaps, or when
      `vx` is zero so that nothing pushes the player off it. The player dies
      where it stands and the `playerdeath` commands fire after the pass's
      collision callbacks. */
  lemma UpdateHazardKills(p: Player, blocks: seq<Block>, gravity: real, cmds: seq<Command>, pressed: set<Key>, k: nat)
    requires p.deathTimer == 0
    requires var a := Accelerated(p, gravity, pressed);
      && k < |blocks| && Kills(blocks[k], a.rect)
      && (a.vx == 0.0 || forall j :: 0 <= j < k ==> !Solid(blocks[j], a.rect))
    ensures var a := Accelerated(p, gravity, pressed);
            var o := Update(p, blocks, gravity, cmds, pressed);
      && o.p == AfterDeath(a, blocks)
      && o.fired == SweepX(blocks, 0, a, []).fired + DeathTrace(cmds)
  {
    var a := Accelerated(p, gravity, pressed);
    if a.vx == 0.0 {
      SweepXStill(blocks, 0, a, []);
    } else {
      SweepXFirst(blocks, 0, k, a, []);
    }
  }

  /** When no solid block overlaps the player after either move, an
      unlocked frame is pure motion:
      gravity added to `vy`, the input rule applied to `vx`, the player moved
      by both truncated velocities, airborne, and nothing fired. */
  lemma FreeFall(p: Player, blocks: seq<Block>, gravity: real, cmds: seq<Command>, pressed: set<Key>)
    requires p.deathTimer == 0
    requires var a := Accelerated(p, gravity, pressed);
      forall k :: 0 <= k < |blocks| ==> !Solid(blocks[k], a.rect) && !Solid(blocks[k], Dropped(a).rect)
    ensures var vx := WalkVelocity(p.tun, p.vx, pressed);
            var vy := p.vy + gravity;
      Update(p, blocks, gravity, cmds, pressed) ==
        Outcome(p.(vx := vx, vy := vy, grounded := false,
                   rect := p.rect.(x := p.rect.x + Trunc(vx), y := p.rect.y + Trunc(vy))), [])
  {
    var a := Accelerated(p, gravity, pressed);
    SweepsSkip(blocks, 0, |blocks|, a, []);
    SweepsSkip(blocks, 0, |blocks|, Dropped(a), []);
  }

  /** A jump from rest with the default impulse and gravity: `vy` is -10
      after the jump and -9.5 after one frame, and the player is airborne.
      The ground it stood on only touches it, so it may be solid; nothing
      solid may overlap the player after either move. */
  lemma JumpArc(p: Player, blocks: seq<Block>, cmds: seq<Command>, pressed: set<Key>)
    requires p.grounded && p.deathTimer == 0 && p.vy == 0.0 && p.tun.jumpAcc == DEFAULT_TUNABLES.jumpAcc
    requires var a := Accelerated(Jumped(p), 0.5, pressed);
      forall k :: 0 <= k < |blocks| ==> !Solid(blocks[k], a.rect) && !Solid(blocks[k], Dropped(a).rect)
    ensures Jumped(p).vy == -10.0 && !Jumped(p).grounded
    ensures var o := Update(Jumped(p), blocks, 0.5, cmds, pressed);
      o.p.vy == -9.5 && !o.p.grounded && o.p.rect.y == p.rect.y - 9 && o.fired == []
  {
    FreeFall(Jumped(p), blocks, 0.5, cmds, pressed);
  }
}
