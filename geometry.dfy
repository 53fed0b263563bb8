/** World geometry: integer rectangles as pygame's `Rect` treats them, and the
    blocks of a level with their fixed flag set. */
module Geometry {
  import opened Common

  /** An axis-aligned rectangle: top-left corner and size. Sizes come from
      surfaces, which are never negative. */
  datatype Rect = Rect(x: int, y: int, w: nat, h: nat) {
    function Right(): int { x + w }
    function Bottom(): int { y + h }
    /** `Rect.centerx`: pygame halves the width with integer division. */
    function CenterX(): int { x + w / 2 }
    function CenterY(): int { y + h / 2 }
  }

  /** `Rect.collidepoint`: half-open on both axes. */
  predicate ContainsPoint(r: Rect, px: int, py: int) {
    r.x <= px < r.x + r.w && r.y <= py < r.y + r.h
  }

  /** `Rect.colliderect`: strict overlap on both axes; a rectangle of zero
      width or height collides with nothing. Two rectangles collide exactly
      when some pixel lies in both. */
  predicate Overlaps(a: Rect, b: Rect)
    ensures Overlaps(a, b) <==> exists px, py :: ContainsPoint(a, px, py) && ContainsPoint(b, px, py)
  {
    var o := && a.w > 0 && a.h > 0 && b.w > 0 && b.h > 0
             && a.x < b.x + b.w && b.x < a.x + a.w
             && a.y < b.y + b.h && b.y < a.y + a.h;
    var px := if a.x < b.x then b.x else a.x;
    var py := if a.y < b.y then b.y else a.y;
    assert o ==> ContainsPoint(a, px, py) && ContainsPoint(b, px, py);
    o
  }

  /** `r` rests on top of `b`: its bottom edge is `b`'s top edge and the two
      share some horizontal extent. */
  predicate StandsOn(r: Rect, b: Rect) {
    r.y + r.h == b.y && r.x < b.x + b.w && b.x < r.x + r.w
  }

  /** Python's `int()` on a float: truncation toward zero. */
  function Trunc(v: real): (n: int)
    ensures 0.0 <= v ==> 0 <= n && n as real <= v < n as real + 1.0
    ensures v < 0.0 ==> n <= 0 && n as real - 1.0 < v <= n as real
  {
    if v >= 0.0 then v.Floor else -((-v).Floor)
  }

  /** A level block. `onClick` and `onCollide` are the optional callbacks;
      the four flags are always present (absent in the source means false). */
  datatype Block = Block(
    rect: Rect,
    onClick: Option<Command>,
    onCollide: Option<Command>,
    danger: bool,
    spawn: bool,
    passable: bool,
    ladder: bool)
}
