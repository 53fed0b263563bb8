/** Cameras: the world-to-screen transform of a camera that follows a target,
    and the registry that keeps at most one camera active. */
module Cameras {
  import opened Common
  import opened Geometry

  /** The display is 800 by 600 pixels. */
  const SCREEN_WIDTH: int := 800
  const SCREEN_HEIGHT: int := 600

  /** What a camera follows: a player or a block, by index. */
  datatype Target = OfPlayer(player: nat) | OfBlock(block: nat)

  /** A target names one of `players` players or `blocks` blocks. */
  predicate TargetIn(t: Option<Target>, players: nat, blocks: nat) {
    match t
    case None => true
    case Some(OfPlayer(i)) => i < players
    case Some(OfBlock(i)) => i < blocks
  }

  datatype Camera = Camera(
    target: Option<Target>,
    targetPlayer: bool,
    xoffset: real,
    yoffset: real,
    zoom: real,
    active: bool)

  /** A screen rectangle before pygame converts it to integers. */
  datatype View = View(x: real, y: real, w: real, h: real)

  /** The followed point: the target's centre, or the origin without one. */
  function Focus(center: Option<(int, int)>): (int, int) {
    if center.Some? then center.value else (0, 0)
  }

  /** `Camera.get_cam_pos`: the world point drawn at the screen's top-left.
      The target's centre sits half a screen right and down of it, shifted
      back by the offsets. */
  function CamPos(c: Camera, center: Option<(int, int)>): (p: (real, real))
    ensures p.0 + (SCREEN_WIDTH as real) / 2.0 - c.xoffset == Focus(center).0 as real
    ensures p.1 + (SCREEN_HEIGHT as real) / 2.0 - c.yoffset == Focus(center).1 as real
  {
    var (tx, ty) := Focus(center);
    (tx as real - (SCREEN_WIDTH as real) / 2.0 + c.xoffset,
     ty as real - (SCREEN_HEIGHT as real) / 2.0 + c.yoffset)
  }

  /** `Camera.apply`: translate by the camera position, then scale position
      and size by `zoom` about the screen's top-left. */
  function Apply(c: Camera, center: Option<(int, int)>, r: Rect): (v: View)
    ensures v.x == (r.x as real - CamPos(c, center).0) * c.zoom
    ensures v.y == (r.y as real - CamPos(c, center).1) * c.zoom
    ensures v.w == r.w as real * c.zoom && v.h == r.h as real * c.zoom
  {
    var (cx, cy) := CamPos(c, center);
    View((r.x as real - cx) * c.zoom, (r.y as real - cy) * c.zoom, r.w as real * c.zoom, r.h as real * c.zoom)
  }

  /** The world point drawn at a screen point, for a camera with non-zero zoom. */
  function Unapply(c: Camera, center: Option<(int, int)>, sx: real, sy: real): (real, real)
    requires c.zoom != 0.0
  {
    (sx / c.zoom + CamPos(c, center).0, sy / c.zoom + CamPos(c, center).1)
  }

  /** The transform is invertible for a non-zero zoom: the top-left corner
      of every rectangle maps back to itself. */
  lemma ApplyRoundTrip(c: Camera, center: Option<(int, int)>, r: Rect)
    requires c.zoom != 0.0
    ensures var v := Apply(c, center, r);
      Unapply(c, center, v.x, v.y) == (r.x as real, r.y as real)
  {
    var v := Apply(c, center, r);
    var (cx, cy) := CamPos(c, center);
    assert v.x / c.zoom == r.x as real - cx by {
      assert v.x == (r.x as real - cx) * c.zoom;
    }
    assert v.y / c.zoom == r.y as real - cy by {
      assert v.y == (r.y as real - cy) * c.zoom;
    }
  }

  /** The camera follows its target: a rectangle whose corner is at the
      target's centre is drawn at the same screen point wherever the target
      is, half a screen in, with the offsets subtracted, times `zoom`. */
  lemma FollowsTarget(c: Camera, tx: int, ty: int, r: Rect)
    requires r.x == tx && r.y == ty
    ensures var v := Apply(c, Some((tx, ty)), r);
      v.x == ((SCREEN_WIDTH as real) / 2.0 - c.xoffset) * c.zoom &&
      v.y == ((SCREEN_HEIGHT as real) / 2.0 - c.yoffset) * c.zoom
  {
  }

  /** Distances between drawn rectangles are world distances times `zoom`. */
  lemma ApplyScalesDistances(c: Camera, center: Option<(int, int)>, a: Rect, b: Rect)
    ensures Apply(c, center, a).x - Apply(c, center, b).x == (a.x - b.x) as real * c.zoom
    ensures Apply(c, center, a).y - Apply(c, center, b).y == (a.y - b.y) as real * c.zoom
  {
    var (cx, cy) := CamPos(c, center);
    assert (a.x as real - cx) * c.zoom - (b.x as real - cx) * c.zoom == (a.x as real - b.x as real) * c.zoom;
    assert (a.y as real - cy) * c.zoom - (b.y as real - cy) * c.zoom == (a.y as real - b.y as real) * c.zoom;
  }

  // ---------------------------------------------------- the active camera

  /** The active-camera handle names the one camera whose flag is set, and
      no other camera has its flag set. */
  ghost predicate SingleActive(cams: seq<Camera>, active: Option<nat>) {
    && (forall i :: 0 <= i < |cams| && cams[i].active ==> active == Some(i))
    && (active.Some? ==> active.value < |cams| && cams[active.value].active)
  }

  /** At most one camera is active. */
  lemma AtMostOneActive(cams: seq<Camera>, active: Option<nat>, i: nat, j: nat)
    requires SingleActive(cams, active)
    requires i < |cams| && j < |cams| && cams[i].active && cams[j].active
    ensures i == j
  {
  }

  /** The `Camera` constructor on the registry: an active camera clears the
      previous active camera's flag and becomes the active camera; an
      inactive one is only added. */
  function AddCamera(cams: seq<Camera>, active: Option<nat>, c: Camera): (r: (seq<Camera>, Option<nat>))
    requires SingleActive(cams, active)
    ensures SingleActive(r.0, r.1)
    ensures |r.0| == |cams| + 1 && r.0[|cams|] == c
    ensures forall i :: 0 <= i < |cams| ==> r.0[i] == cams[i].(active := r.0[i].active)
    ensures c.active ==> r.1 == Some(|cams|)
    ensures !c.active ==> r == (cams + [c], active)
  {
    if c.active then
      var cs := if active.Some? then cams[active.value := cams[active.value].(active := false)] else cams;
      (cs + [c], Some(|cams|))
    else (cams + [c], active)
  }
}
