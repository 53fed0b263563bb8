/** The engine's state and its per-frame loop. The module-level registries
    of the original (players, blocks, moves, the event registry, held keys,
    gravity, the active camera) are the fields of one `World`; every callback
    the engine calls is appended to `log` instead of being run. */
module Engine {
  import opened Common
  import opened Geometry
  import opened Simulation
  import opened Mover
  import opened Dispatch
  import opened Cameras

  /** What `on(event, command)` did with the command. */
  datatype OnResult =
    | Appended  // "playerdeath": added to the death commands
    | Ignored   // an unknown event name
    | Crashed   // "keydown": the registry entry is a dict, and appending to it raises

  const DEFAULT_GRAVITY: real := 0.5

  class World {
    var players: seq<Player>
    var blocks: seq<Block>
    var moves: seq<Move>
    var keydown: map<Key, seq<Command>>
    var held: seq<Binding>
    var deathCommands: seq<Command>
    var gravity: real
    var cameras: seq<Camera>
    var activeCamera: Option<nat>
    var log: seq<Event>

    /** A camera target names an existing player or block. */
    predicate TargetValid(t: Option<Target>)
      reads this
    {
      TargetIn(t, |players|, |blocks|)
    }

    ghost predicate Valid()
      reads this
    {
      && MovesValid(blocks, moves)
      && DistinctKeys(held)
      && SingleActive(cameras, activeCamera)
      && forall i :: 0 <= i < |cameras| ==> TargetIn(cameras[i].target, |players|, |blocks|)
    }

    /** The engine as the module is imported: nothing registered, default
      gravity, no active camera. */
    constructor ()
      ensures Valid()
      ensures players == [] && blocks == [] && moves == [] && keydown == map[] && held == []
      ensures deathCommands == [] && gravity == DEFAULT_GRAVITY && cameras == [] && activeCamera == None
      ensures log == []
    {
      players, blocks, moves := [], [], [];
      keydown, held, deathCommands := map[], [], [];
      gravity := DEFAULT_GRAVITY;
      cameras, activeCamera := [], None;
      log := [];
    }

    // ---------------------------------------------------------- registration

    /** `Player(...)`: a new player of the given size is appended. */
    method AddPlayer(w: nat, h: nat, tun: Tunables) returns (id: nat)
      requires Valid()
      modifies this`players
      ensures Valid()
      ensures id == |old(players)| && players == old(players) + [NewPlayer(w, h, tun)]
    {
      id := |players|;
      players := players + [NewPlayer(w, h, tun)];
    }

    /** `Block(...)` / `Newblock(...)`: a new block is appended. */
    method AddBlock(b: Block) returns (id: nat)
      requires Valid()
      modifies this`blocks
      ensures Valid()
      ensures id == |old(blocks)| && blocks == old(blocks) + [b]
    {
      id := |blocks|;
      blocks := blocks + [b];
    }

    /** `Move(target, keyframes, speed)`: a new move starting at keyframe 0. */
    method AddMove(target: nat, keyframes: seq<(int, int)>, speed: int)
      requires Valid() && target < |blocks| && |keyframes| > 0
      modifies this`moves
      ensures Valid()
      ensures moves == old(moves) + [Move(target, keyframes, 0, speed)]
    {
      moves := moves + [Move(target, keyframes, 0, speed)];
    }

    /** `Click(key, command, repeat)`. */
    method Click(k: Key, c: Command, repeat: bool)
      requires Valid()
      modifies this`keydown, this`held
      ensures Valid()
      ensures keydown == AddKeyCommand(old(keydown), k, c)
      ensures held == if repeat then Bind(old(held), k, c) else old(held)
    {
      if k !in keydown {
        keydown := keydown[k := []];
      }
      keydown := keydown[k := keydown[k] + [c]];
      if repeat {
        BindDistinct(held, k, c);
        held := Bind(held, k, c);
      }
    }

    /** `on(event, command)`. */
    method On(event: string, c: Command) returns (r: OnResult)
      modifies this`deathCommands
      ensures event == "playerdeath" ==> r == Appended && deathCommands == old(deathCommands) + [c]
      ensures event == "keydown" ==> r == Crashed && deathCommands == old(deathCommands)
      ensures event != "playerdeath" && event != "keydown" ==> r == Ignored && deathCommands == old(deathCommands)
    {
      if event == "playerdeath" {
        deathCommands := deathCommands + [c];
        r := Appended;
      } else if event == "keydown" {
        r := Crashed;
      } else {
        r := Ignored;
      }
    }

    /** `Physics(gravity)`. */
    method SetPhysics(g: real)
      modifies this`gravity
      ensures gravity == g
    {
      gravity := g;
    }

    /** `Forcepush(x, y)`: every player's velocity gains (x, y). */
    method Forcepush(dx: real, dy: real)
      modifies this`players
      ensures |players| == |old(players)|
      ensures forall i :: 0 <= i < |players| ==>
        players[i] == old(players[i]).(vx := old(players[i]).vx + dx, vy := old(players[i]).vy + dy)
    {
      var i := 0;
      while i < |players|
        invariant 0 <= i <= |players| == |old(players)|
        invariant forall j :: 0 <= j < i ==>
          players[j] == old(players[j]).(vx := old(players[j]).vx + dx, vy := old(players[j]).vy + dy)
        invariant forall j :: i <= j < |players| ==> players[j] == old(players[j])
      {
        var p := players[i];
        players := players[i := p.(vx := p.vx + dx, vy := p.vy + dy)];
        i := i + 1;
      }
    }

    /** The `Camera` constructor: an active camera takes over from the
      previous active one. */
    method NewCamera(c: Camera) returns (id: nat)
      requires Valid() && TargetValid(c.target)
      modifies this`cameras, this`activeCamera
      ensures Valid()
      ensures id == |old(cameras)| && (cameras, activeCamera) == AddCamera(old(cameras), old(activeCamera), c)
    {
      if c.active {
        if activeCamera.Some? {
          var a := activeCamera.value;
          cameras := cameras[a := cameras[a].(active := false)];
        }
        activeCamera := Some(|cameras|);
      }
      id := |cameras|;
      cameras := cameras + [c];
    }

    // --------------------------------------------------------------- cameras

    /** The centre of a camera's target, if it has one. */
    function TargetCenter(t: Option<Target>): (r: Option<(int, int)>)
      reads this
      requires TargetValid(t)
      ensures r.Some? <==> t.Some?
      ensures t.Some? && t.value.OfPlayer? ==>
        var q := players[t.value.player].rect; r == Some((q.CenterX(), q.CenterY()))
      ensures t.Some? && t.value.OfBlock? ==>
        var q := blocks[t.value.block].rect; r == Some((q.CenterX(), q.CenterY()))
    {
      match t
      case None => None
      case Some(OfPlayer(i)) => Some((players[i].rect.CenterX(), players[i].rect.CenterY()))
      case Some(OfBlock(i)) => Some((blocks[i].rect.CenterX(), blocks[i].rect.CenterY()))
    }

    /** Where the frame loop draws a rectangle: through the active camera if
      there is one, otherwise at its world position. */
    function ScreenRect(r: Rect): (v: View)
      reads this
      requires Valid()
      ensures activeCamera.None? ==> v == View(r.x as real, r.y as real, r.w as real, r.h as real)
      ensures activeCamera.Some? ==>
        var c := cameras[activeCamera.value];
        v == Apply(c, TargetCenter(c.target), r) && v.w == r.w as real * c.zoom && v.h == r.h as real * c.zoom
    {
      match activeCamera
      case None => View(r.x as real, r.y as real, r.w as real, r.h as real)
      case Some(a) => Apply(cameras[a], TargetCenter(cameras[a].target), r)
    }

    // ---------------------------------------------------------------- player

    /** `Player.jump`. */
    method Jump(p: nat)
      requires p < |players|
      modifies this`players
      ensures players == old(players)[p := Jumped(old(players[p]))]
    {
      var me := players[p];
      if me.grounded && me.deathTimer == 0 {
        players := players[p := me.(vy := me.tun.jumpAcc, grounded := false)];
      }
    }

    /** `Player._die`: the new state is `AfterDeath`, and every `playerdeath`
      command is called once, in registration order. */
    method Die(p: nat)
      requires p < |players|
      modifies this`players, this`log
      ensures players == old(players)[p := AfterDeath(old(players[p]), blocks)]
      ensures log == old(log) + DeathTrace(deathCommands)
    {
      var me := players[p];
      me := me.(dead := true, vx := 0.0, vy := 0.0);
      var spawn := FirstSpawn(blocks, 0);
      if spawn.Some? {
        me := me.(rect := Respawn(me.rect, blocks[spawn.value].rect));
      }
      me := me.(deathTimer := 1);
      players := players[p := me];
      var i := 0;
      while i < |deathCommands|
        invariant 0 <= i <= |deathCommands|
        invariant players == old(players)[p := AfterDeath(old(players[p]), blocks)]
        invariant log == old(log) + DeathTrace(deathCommands)[..i]
      {
        assert DeathTrace(deathCommands)[..i + 1] == DeathTrace(deathCommands)[..i] + [DeathCommand(deathCommands[i])];
        log := log + [DeathCommand(deathCommands[i])];
        i := i + 1;
      }
      assert DeathTrace(deathCommands)[..i] == DeathTrace(deathCommands);
    }

    /** The horizontal collision loop of `Player.update`: it runs as
      `SweepX` says, stopping at the first hazard. */
    method SweepHorizontal(start: Player) returns (me: Player, hit: bool)
      modifies this`log
      ensures var s := SweepX(blocks, 0, start, []);
        me == s.p && hit == s.Hit? && log == old(log) + s.fired
    {
      me := start;
      ghost var fired: seq<Event> := [];
      var i := 0;
      while i < |blocks|
        invariant 0 <= i <= |blocks|
        invariant log == old(log) + fired
        invariant SweepX(blocks, i, me, fired) == SweepX(blocks, 0, start, [])
      {
        var b := blocks[i];
        if !b.passable && Overlaps(me.rect, b.rect) {
          if b.danger {
            return me, true;
          }
          if me.vx > 0.0 {
            me := me.(rect := me.rect.(x := b.rect.x - me.rect.w));
          } else if me.vx < 0.0 {
            me := me.(rect := me.rect.(x := b.rect.x + b.rect.w));
          }
          me := me.(vx := 0.0);
          if b.onCollide.Some? {
            log := log + [Collided(i)];
          }
          fired := fired + CollideEvent(b, i);
        }
        i := i + 1;
      }
      hit := false;
    }

    /** The ladder nudge: step up 2 units at a time while overlapping. */
    method ClimbLadder(before: Player, ladder: Rect) returns (me: Player)
      requires Overlaps(before.rect, ladder)
      ensures me == before.(rect := before.rect.(y := ClimbOut(before.rect, ladder)))
    {
      me := before;
      while Overlaps(me.rect, ladder)
        invariant me == before.(rect := before.rect.(y := me.rect.y))
        invariant me.rect.y <= before.rect.y && (before.rect.y - me.rect.y) % 2 == 0
        invariant ladder.y - 2 < me.rect.y + me.rect.h
        decreases me.rect.y + me.rect.h - ladder.y
      {
        me := me.(rect := me.rect.(y := me.rect.y - 2));
      }
      ClimbOutUnique(before.rect, ladder, me.rect.y);
    }

    /** The vertical collision loop of `Player.update`, continuing the trace
      `fired` of the horizontal loop that already ends the log. */
    method SweepVertical(start: Player, ghost base: seq<Event>, ghost fired0: seq<Event>) returns (me: Player, hit: bool)
      requires log == base + fired0
      modifies this`log
      ensures var s := SweepY(blocks, 0, start, fired0);
        me == s.p && hit == s.Hit? && log == base + s.fired
    {
      me := start;
      ghost var fired := fired0;
      var i := 0;
      while i < |blocks|
        invariant 0 <= i <= |blocks|
        invariant log == base + fired
        invariant SweepY(blocks, i, me, fired) == SweepY(blocks, 0, start, fired0)
      {
        var b := blocks[i];
        if !b.passable && Overlaps(me.rect, b.rect) {
          if b.ladder && me.vy < 0.0 {
            me := ClimbLadder(me, b.rect);
          } else if b.danger {
            return me, true;
          } else {
            if me.vy > 0.0 {
              me := me.(rect := me.rect.(y := b.rect.y - me.rect.h), vy := 0.0, grounded := true);
            } else if me.vy < 0.0 {
              me := me.(rect := me.rect.(y := b.rect.y + b.rect.h), vy := 0.0);
            }
            if b.onCollide.Some? {
              log := log + [Collided(i)];
            }
            fired := fired + CollideEvent(b, i);
          }
        }
        i := i + 1;
      }
      hit := false;
    }

    /** `Player.update`, in place: the new player state and the callbacks
      fired are those of `Update`. */
    method UpdatePlayer(p: nat, pressed: set<Key>)
      requires p < |players|
      modifies this`players, this`log
      ensures var o := Update(old(players[p]), blocks, gravity, deathCommands, pressed);
        players == old(players)[p := o.p] && log == old(log) + o.fired
    {
      var me := players[p];
      if me.deathTimer > 0 {
        players := players[p := me.(deathTimer := me.deathTimer - 1)];
        return;
      }

      // Horizontal input, gravity, and the horizontal move.
      me := me.(vx := WalkVelocity(me.tun, me.vx, pressed));
      me := me.(vy := me.vy + gravity);
      me := me.(rect := me.rect.(x := me.rect.x + Trunc(me.vx)));
      assert me == Accelerated(old(players[p]), gravity, pressed);

      var hit;
      ghost var sx := SweepX(blocks, 0, me, []);
      me, hit := SweepHorizontal(me);
      if hit {
        players := players[p := me];
        Die(p);
        return;
      }

      // The vertical move.
      me := me.(rect := me.rect.(y := me.rect.y + Trunc(me.vy)));
      me := me.(grounded := false);
      assert me == Dropped(sx.p);
      me, hit := SweepVertical(me, old(log), sx.fired);
      if hit {
        players := players[p := me];
        Die(p);
        return;
      }
      players := players[p := me];
    }

    // ---------------------------------------------------------------- moves

    /** One pass of the loop in `_update_moves`: move `i` drags its block
      towards its keyframe and, on arrival, aims at the next keyframe. */
    method StepMoveAt(i: nat)
      requires i < |moves| && MovesValid(blocks, moves)
      modifies this`blocks, this`moves
      ensures var a := StepMove(old(blocks), old(moves[i]));
        blocks == a.blocks && moves == old(moves)[i := a.move]
    {
      var mv := moves[i];
      assert mv in moves;
      var r := blocks[mv.target].rect;
      var pos := mv.keyframes[mv.index];
      r := r.(x := r.x + Clamp(pos.0 - r.x, mv.speed));
      r := r.(y := r.y + Clamp(pos.1 - r.y, mv.speed));
      blocks := blocks[mv.target := blocks[mv.target].(rect := r)];
      if (r.x, r.y) == pos {
        moves := moves[i := mv.(index := (mv.index + 1) % |mv.keyframes|)];
      }
    }

    /** `_update_moves`, in place. */
    method UpdateMoves()
      requires MovesValid(blocks, moves)
      modifies this`blocks, this`moves
      ensures MovesValid(blocks, moves)
      ensures (blocks, moves) == MovesFrom(old(blocks), old(moves), 0)
    {
      var i := 0;
      while i < |moves|
        invariant 0 <= i <= |moves|
        invariant |blocks| == |old(blocks)| && |moves| == |old(moves)| && MovesValid(blocks, moves)
        invariant MovesFrom(blocks, moves, i) == MovesFrom(old(blocks), old(moves), 0)
      {
        MovesFromStep(blocks, moves, i);
        StepMoveAt(i);
        i := i + 1;
      }
    }

    // ---------------------------------------------------------------- input

    /** `_update_held_keys`. */
    method UpdateHeldKeys(pressed: set<Key>)
      modifies this`log
      ensures log == old(log) + HeldTrace(held, |held|, pressed)
    {
      var i := 0;
      while i < |held|
        invariant 0 <= i <= |held|
        invariant log == old(log) + HeldTrace(held, i, pressed)
      {
        if held[i].key in pressed {
          log := log + [KeyHeld(held[i].key, held[i].cmd)];
        }
        i := i + 1;
      }
    }

    /** A mouse click at (px, py): the `onclick` of every block under the
      pointer, in list order. */
    method ClickAt(px: int, py: int)
      modifies this`log
      ensures log == old(log) + ClickTrace(blocks, |blocks|, px, py)
    {
      var j := 0;
      while j < |blocks|
        invariant 0 <= j <= |blocks|
        invariant log == old(log) + ClickTrace(blocks, j, px, py)
      {
        if ContainsPoint(blocks[j].rect, px, py) && blocks[j].onClick.Some? {
          log := log + [Clicked(j)];
        }
        j := j + 1;
      }
    }

    /** A key-down event: the key's commands, in registration order. */
    method PressKey(k: Key)
      modifies this`log
      ensures log == old(log) + KeyTrace(keydown, k)
    {
      if k in keydown {
        var cmds := keydown[k];
        var j := 0;
        while j < |cmds|
          invariant 0 <= j <= |cmds|
          invariant log == old(log) + KeyTrace(keydown, k)[..j]
        {
          assert KeyTrace(keydown, k)[..j + 1] == KeyTrace(keydown, k)[..j] + [KeyPressed(k, cmds[j])];
          log := log + [KeyPressed(k, cmds[j])];
          j := j + 1;
        }
        assert KeyTrace(keydown, k)[..j] == KeyTrace(keydown, k);
      }
    }

    /** The callbacks of one input event. */
    method HandleEvent(ev: Input)
      modifies this`log
      ensures log == old(log) + EventTrace(blocks, keydown, ev)
    {
      match ev {
        case MouseDown(px, py) => ClickAt(px, py);
        case KeyDown(k) => PressKey(k);
        case Quit =>
        case OtherInput =>
      }
    }

    /** The event loop of one frame: clicks hit-test every block, key-downs
      fire the key's commands; a quit event only ends the run after the frame. */
    method DispatchEvents(events: seq<Input>) returns (running: bool)
      modifies this`log
      ensures running <==> Quit !in events
      ensures log == old(log) + DispatchTrace(blocks, keydown, events, |events|)
    {
      running := true;
      var e := 0;
      while e < |events|
        invariant 0 <= e <= |events|
        invariant running <==> Quit !in events[..e]
        invariant log == old(log) + DispatchTrace(blocks, keydown, events, e)
      {
        if events[e].Quit? {
          running := false;
        }
        HandleEvent(events[e]);
        assert events[..e + 1] == events[..e] + [events[e]];
        e := e + 1;
      }
      assert events[..e] == events;
    }

    /** The players' updates of one frame, in list order. */
    method UpdatePlayers(pressed: set<Key>)
      modifies this`players, this`log
      ensures |players| == |old(players)|
      ensures forall i :: 0 <= i < |players| ==>
        players[i] == Update(old(players[i]), blocks, gravity, deathCommands, pressed).p
      ensures log == old(log) + PlayersTrace(old(players), |old(players)|, blocks, gravity, deathCommands, pressed)
    {
      var i := 0;
      while i < |players|
        invariant 0 <= i <= |players| == |old(players)|
        invariant forall j :: 0 <= j < i ==>
          players[j] == Update(old(players[j]), blocks, gravity, deathCommands, pressed).p
        invariant forall j :: i <= j < |players| ==> players[j] == old(players[j])
        invariant log == old(log) + PlayersTrace(old(players), i, blocks, gravity, deathCommands, pressed)
      {
        UpdatePlayer(i, pressed);
        i := i + 1;
      }
    }

    /** One iteration of `mainloop` up to drawing: input events, held keys,
      every player's update in list order, then the moves. */
    method Frame(pressed: set<Key>, events: seq<Input>) returns (running: bool)
      requires Valid()
      modifies this`players, this`blocks, this`moves, this`log
      ensures Valid()
      ensures running <==> Quit !in events
      ensures log == old(log)
        + DispatchTrace(old(blocks), keydown, events, |events|)
        + HeldTrace(held, |held|, pressed)
        + PlayersTrace(old(players), |old(players)|, old(blocks), gravity, deathCommands, pressed)
      ensures |players| == |old(players)|
      ensures forall i :: 0 <= i < |players| ==>
        players[i] == Update(old(players[i]), old(blocks), gravity, deathCommands, pressed).p
      ensures (blocks, moves) == MovesFrom(old(blocks), old(moves), 0)
    {
      running := DispatchEvents(events);
      UpdateHeldKeys(pressed);
      UpdatePlayers(pressed);
      UpdateMoves();
    }
  }
}
