/** Scripted motion: each registered move drags its target block towards the
    current keyframe by at most `speed` per axis per frame, and moves on to
    the next keyframe (cyclically) only when the block sits exactly on it. */
module Mover {
  import opened Geometry

  /** A registered move. `target` is the index of the block it drives;
      `index` selects the keyframe currently aimed at. */
  datatype Move = Move(target: nat, keyframes: seq<(int, int)>, index: nat, speed: int)

  /** Every move drives an existing block and aims at one of its keyframes. */
  ghost predicate MovesValid(blocks: seq<Block>, moves: seq<Move>) {
    forall m :: m in moves ==> m.target < |blocks| && m.index < |m.keyframes|
  }

  /** `max(-speed, min(speed, d))`: the step along one axis. For a
      non-negative speed it has the sign of the distance, never passes the
      keyframe, and is the whole distance when that is within reach. */
  function Clamp(d: int, speed: int): (step: int)
    ensures speed >= 0 ==> -speed <= step <= speed
    ensures speed >= 0 ==> (0 <= step <= d || d <= step <= 0)
    ensures speed >= 0 ==> (step == d || step == speed || step == -speed)
    ensures -speed <= d <= speed ==> step == d
  {
    var m := if speed <= d then speed else d;
    if -speed >= m then -speed else m
  }

  datatype Advance = Advance(blocks: seq<Block>, move: Move)

  /** One frame of one move (the body of the loop in `_update_moves`). */
  function StepMove(blocks: seq<Block>, mv: Move): (a: Advance)
    requires mv.target < |blocks| && mv.index < |mv.keyframes|
    ensures |a.blocks| == |blocks|
    ensures forall j :: 0 <= j < |blocks| && j != mv.target ==> a.blocks[j] == blocks[j]
    ensures var was := blocks[mv.target].rect; var now := a.blocks[mv.target].rect;
      && a.blocks[mv.target] == blocks[mv.target].(rect := now)
      && now == was.(x := now.x, y := now.y)
      && now.x - was.x == Clamp(mv.keyframes[mv.index].0 - was.x, mv.speed)
      && now.y - was.y == Clamp(mv.keyframes[mv.index].1 - was.y, mv.speed)
      && a.move == mv.(index := a.move.index)
      && a.move.index < |mv.keyframes|
      && ((now.x, now.y) == mv.keyframes[mv.index] ==> a.move.index == (mv.index + 1) % |mv.keyframes|)
      && ((now.x, now.y) != mv.keyframes[mv.index] ==> a.move.index == mv.index)
  {
    var pos := mv.keyframes[mv.index];
    var r := blocks[mv.target].rect;
    var nx := r.x + Clamp(pos.0 - r.x, mv.speed);
    var ny := r.y + Clamp(pos.1 - r.y, mv.speed);
    var idx := if (nx, ny) == pos then (mv.index + 1) % |mv.keyframes| else mv.index;
    Advance(blocks[mv.target := blocks[mv.target].(rect := r.(x := nx, y := ny))], mv.(index := idx))
  }

  /** One step never overshoots: the remaining distance on each axis shrinks
      by exactly the step and keeps its sign; with a positive speed the step
      is at most `speed`. */
  lemma NoOvershoot(blocks: seq<Block>, mv: Move)
    requires mv.target < |blocks| && mv.index < |mv.keyframes| && mv.speed > 0
    ensures var before := blocks[mv.target].rect;
            var after := StepMove(blocks, mv).blocks[mv.target].rect;
            var (tx, ty) := mv.keyframes[mv.index];
      && -mv.speed <= after.x - before.x <= mv.speed
      && -mv.speed <= after.y - before.y <= mv.speed
      && (tx - before.x >= 0 ==> 0 <= tx - after.x <= tx - before.x)
      && (tx - before.x <= 0 ==> tx - before.x <= tx - after.x <= 0)
      && (ty - before.y >= 0 ==> 0 <= ty - after.y <= ty - before.y)
      && (ty - before.y <= 0 ==> ty - before.y <= ty - after.y <= 0)
  {
  }

  /** `_update_moves` from move `i` on: the moves run in list order, each one
      seeing the block positions left by the moves before it. */
  function MovesFrom(blocks: seq<Block>, moves: seq<Move>, i: nat): (a: (seq<Block>, seq<Move>))
    requires i <= |moves| && MovesValid(blocks, moves)
    ensures |a.0| == |blocks| && |a.1| == |moves| && MovesValid(a.0, a.1)
    ensures forall j :: 0 <= j < |blocks| ==> a.0[j] == blocks[j].(rect := a.0[j].rect)
    ensures forall j :: 0 <= j < |moves| ==> a.1[j] == moves[j].(index := a.1[j].index)
    decreases |moves| - i
  {
    if i == |moves| then (blocks, moves)
    else
      var adv := StepMove(blocks, moves[i]);
      var ms := moves[i := adv.move];
      assert MovesValid(adv.blocks, ms) by {
        forall m | m in ms ensures m.target < |adv.blocks| && m.index < |m.keyframes| {
          var k :| 0 <= k < |ms| && ms[k] == m;
          assert k != i ==> moves[k] in moves;
        }
      }
      MovesFrom(adv.blocks, ms, i + 1)
  }

  /** Running move `i` keeps every move valid, and `MovesFrom` at `i` is
      that step followed by `MovesFrom` at `i + 1`. */
  lemma MovesFromStep(blocks: seq<Block>, moves: seq<Move>, i: nat)
    requires i < |moves| && MovesValid(blocks, moves)
    ensures var a := StepMove(blocks, moves[i]);
      && MovesValid(a.blocks, moves[i := a.move])
      && MovesFrom(blocks, moves, i) == MovesFrom(a.blocks, moves[i := a.move], i + 1)
  {
    var a := StepMove(blocks, moves[i]);
    var ms := moves[i := a.move];
    assert moves[i] in moves;
    forall m | m in ms ensures m.target < |a.blocks| && m.index < |m.keyframes| {
      var k :| 0 <= k < |ms| && ms[k] == m;
      assert k != i ==> moves[k] in moves;
    }
  }

  /** A block that no remaining move targets keeps its rectangle. */
  lemma {:induction false} MovesFromUntargeted(blocks: seq<Block>, moves: seq<Move>, i: nat, j: nat)
    requires i <= |moves| && MovesValid(blocks, moves) && j < |blocks|
    requires forall m :: m in moves[i..] ==> m.target != j
    ensures MovesFrom(blocks, moves, i).0[j] == blocks[j]
    decreases |moves| - i
  {
    if i < |moves| {
      var a := StepMove(blocks, moves[i]);
      var ms := moves[i := a.move];
      MovesFromStep(blocks, moves, i);
      assert moves[i] in moves[i..];
      assert ms[i + 1..] == moves[i + 1..];
      forall m | m in ms[i + 1..] ensures m.target != j {
        assert m in moves[i..];
      }
      MovesFromUntargeted(a.blocks, ms, i + 1, j);
    }
  }

  /** `n` frames of one move on its own (no other move driving its block). */
  function Frames(blocks: seq<Block>, mv: Move, n: nat): (a: Advance)
    requires mv.target < |blocks| && mv.index < |mv.keyframes|
    ensures |a.blocks| == |blocks| && a.move == mv.(index := a.move.index) && a.move.index < |mv.keyframes|
    decreases n
  {
    if n == 0 then Advance(blocks, mv)
    else
      var a := StepMove(blocks, mv);
      Frames(a.blocks, a.move, n - 1)
  }

  /** A mover never skips a keyframe: with a positive speed, a block whose
      distance to the keyframe is at most `n * speed` on both axes sits
      exactly on it after some frame m <= n, and at that frame the index
      moves on to the next keyframe. */
  lemma {:induction false} MoveArrives(blocks: seq<Block>, mv: Move, n: nat)
    requires mv.target < |blocks| && mv.index < |mv.keyframes| && mv.speed > 0 && n > 0
    requires var r := blocks[mv.target].rect;
      && -(n * mv.speed) <= mv.keyframes[mv.index].0 - r.x <= n * mv.speed
      && -(n * mv.speed) <= mv.keyframes[mv.index].1 - r.y <= n * mv.speed
    ensures exists m :: (1 <= m <= n &&
      var a := Frames(blocks, mv, m);
      && (a.blocks[mv.target].rect.x, a.blocks[mv.target].rect.y) == mv.keyframes[mv.index]
      && a.move.index == (mv.index + 1) % |mv.keyframes|)
    decreases n
  {
    var a := StepMove(blocks, mv);
    var now := a.blocks[mv.target].rect;
    assert Frames(blocks, mv, 1) == Frames(a.blocks, a.move, 0);
    if (now.x, now.y) != mv.keyframes[mv.index] {
      var ns := n * mv.speed;
      assert (n - 1) * mv.speed == ns - mv.speed;
      assert n > 1;
      MoveArrives(a.blocks, a.move, n - 1);
      var m :| 1 <= m <= n - 1 &&
        var b := Frames(a.blocks, a.move, m);
        && (b.blocks[mv.target].rect.x, b.blocks[mv.target].rect.y) == a.move.keyframes[a.move.index]
        && b.move.index == (a.move.index + 1) % |a.move.keyframes|;
      assert Frames(blocks, mv, m + 1) == Frames(a.blocks, a.move, m);
    }
  }
}
