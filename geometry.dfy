/** Axis-aligned rectangles as pygame's Rect holds them, the overlap test
    behind `colliderect`/`spritecollide`, and one axis pass of collision
    resolution (the loop shared by `Player.collide` and `Enemy.collide`). */
module Geometry {

  /** A pygame Rect: integer top-left corner and size. */
  datatype Rect = Rect(x: int, y: int, w: int, h: int) {
    predicate Valid() { w > 0 && h > 0 }
    /** The pixel (px, py) is one of the rectangle's. */
    predicate Contains(px: int, py: int) { x <= px < x + w && y <= py < y + h }
    function Left(): int { x }
    function Right(): int { x + w }
    function Top(): int { y }
    function Bottom(): int { y + h }
  }

  function Abs(n: int): (r: nat)
    ensures r == n || r == -n
  {
    if n < 0 then -n else n
  }

  function Max(a: int, b: int): int { if a < b then b else a }

  /** `colliderect` (pygame 2): the open interiors intersect, so two
      rectangles that only share an edge do not collide, and a rectangle
      without area collides with nothing. They overlap exactly when they
      share a pixel, and then they share the one at the larger of their
      left edges and the larger of their top edges. */
  function Overlaps(a: Rect, b: Rect): (r: bool)
    ensures r ==> a.Valid() && b.Valid()
    ensures r <==> a.Contains(Max(a.x, b.x), Max(a.y, b.y)) && b.Contains(Max(a.x, b.x), Max(a.y, b.y))
  {
    a.Valid() && b.Valid() &&
    a.Left() < b.Right() && b.Left() < a.Right() &&
    a.Top() < b.Bottom() && b.Top() < a.Bottom()
  }

  /** The integer a pygame Rect field keeps when it is assigned the rational
      n / d: the fraction is truncated toward zero. */
  function TruncDiv(n: int, d: int): (q: int)
    requires d > 0
    ensures 0 <= n ==> 0 <= q * d <= n < q * d + d
    ensures n < 0 ==> q * d - d < n <= q * d <= 0
  {
    if n >= 0 then
      DivBounds(n, d);
      n / d
    else
      DivBounds(-n, d);
      -((-n) / d)
  }

  lemma DivBounds(m: nat, d: int)
    requires d > 0
    ensures 0 <= (m / d) * d <= m < (m / d) * d + d
  {
    assert m == d * (m / d) + m % d;
  }

  /** `spritecollide(sprite, group, False)`: the positions, in group order,
      of the rectangles that overlap `r`. */
  function Collided(r: Rect, rects: seq<Rect>): (hits: seq<nat>)
    ensures forall k :: 0 <= k < |hits| ==> hits[k] < |rects|
    decreases |rects|
  {
    if |rects| == 0 then []
    else
      var front := Collided(r, rects[..|rects| - 1]);
      if Overlaps(r, rects[|rects| - 1]) then front + [|rects| - 1] else front
  }

  /** Every position `Collided` lists is that of an overlapping rectangle. */
  lemma {:induction false} CollidedSound(r: Rect, rects: seq<Rect>)
    ensures forall k :: 0 <= k < |Collided(r, rects)| ==> Overlaps(r, rects[Collided(r, rects)[k]])
    decreases |rects|
  {
    if |rects| > 0 {
      var n := |rects| - 1;
      CollidedSound(r, rects[..n]);
    }
  }

  /** Nothing is listed exactly when nothing overlaps. */
  lemma CollidedNone(r: Rect, rects: seq<Rect>)
    ensures |Collided(r, rects)| == 0 <==> forall i :: 0 <= i < |rects| ==> !Overlaps(r, rects[i])
  {
    CollidedSound(r, rects);
    forall i | 0 <= i < |rects| && Overlaps(r, rects[i])
      ensures i in Collided(r, rects)
    {
      CollidedComplete(r, rects, i);
    }
  }

  /** `Collided` lists the positions in group order, each once. */
  lemma {:induction false} CollidedAscends(r: Rect, rects: seq<Rect>, k: int, l: int)
    requires 0 <= k < l < |Collided(r, rects)|
    ensures Collided(r, rects)[k] < Collided(r, rects)[l]
    decreases |rects|
  {
    var n := |rects| - 1;
    var front := Collided(r, rects[..n]);
    if l < |front| {
      CollidedAscends(r, rects[..n], k, l);
    }
  }

  /** So no position comes up twice. */
  lemma CollidedOnce(r: Rect, rects: seq<Rect>, i: int)
    requires 0 <= i < |Collided(r, rects)|
    ensures Collided(r, rects)[i] !in Collided(r, rects)[..i]
  {
    forall k | 0 <= k < i
      ensures Collided(r, rects)[k] != Collided(r, rects)[i]
    {
      CollidedAscends(r, rects, k, i);
    }
  }

  /** No overlapping rectangle is missed by `Collided`. */
  lemma {:induction false} CollidedComplete(r: Rect, rects: seq<Rect>, i: int)
    requires 0 <= i < |rects| && Overlaps(r, rects[i])
    ensures i in Collided(r, rects)
    decreases |rects|
  {
    var n := |rects| - 1;
    if i < n {
      assert rects[..n][i] == rects[i];
      CollidedComplete(r, rects[..n], i);
    }
  }

  /** One iteration of the collide loop: the leading edge on each axis
      along which the sprite moves is put against the opposite edge of `b`. */
  function SnapTo(r: Rect, dirX: int, dirY: int, b: Rect): (s: Rect)
    ensures s.w == r.w && s.h == r.h
    ensures dirX > 0 ==> s.Right() == b.Left()
    ensures dirX < 0 ==> s.Left() == b.Right()
    ensures dirX == 0 ==> s.x == r.x
    ensures dirY > 0 ==> s.Bottom() == b.Top()
    ensures dirY < 0 ==> s.Top() == b.Bottom()
    ensures dirY == 0 ==> s.y == r.y
  {
    var rx := if dirX > 0 then r.(x := b.Left() - r.w) else r;
    var rx' := if dirX < 0 then rx.(x := b.Right()) else rx;
    var ry := if dirY > 0 then rx'.(y := b.Top() - rx'.h) else rx';
    if dirY < 0 then ry.(y := b.Bottom()) else ry
  }

  /** A later snap on the same axes overrides an earlier one: this is why the
      last overlapped block decides where the sprite ends up. */
  lemma SnapOverrides(r: Rect, dirX: int, dirY: int, a: Rect, b: Rect)
    ensures SnapTo(SnapTo(r, dirX, dirY, a), dirX, dirY, b) == SnapTo(r, dirX, dirY, b)
  {
  }

  /** Where one collide pass leaves the rectangle: untouched when nothing
      overlaps, otherwise snapped against the last overlapped rectangle. */
  function Resolve(r: Rect, dirX: int, dirY: int, rects: seq<Rect>): (s: Rect)
    ensures s.w == r.w && s.h == r.h
  {
    var hits := Collided(r, rects);
    if |hits| == 0 then r else SnapTo(r, dirX, dirY, rects[hits[|hits| - 1]])
  }

  /** A collide pass keeps the size, moves only along the axes of motion,
      changes nothing when nothing overlaps, and otherwise leaves the
      leading edges against the last rectangle that overlapped. */
  lemma ResolveEffect(r: Rect, dirX: int, dirY: int, rects: seq<Rect>)
    ensures var s := Resolve(r, dirX, dirY, rects);
            s.w == r.w && s.h == r.h &&
            (dirX == 0 ==> s.x == r.x) &&
            (dirY == 0 ==> s.y == r.y) &&
            ((forall i :: 0 <= i < |rects| ==> !Overlaps(r, rects[i])) ==> s == r)
    ensures var s := Resolve(r, dirX, dirY, rects);
            var hits := Collided(r, rects);
            |hits| > 0 ==>
              var last := rects[hits[|hits| - 1]];
              Overlaps(r, last) &&
              (dirX > 0 ==> s.Right() == last.Left()) &&
              (dirX < 0 ==> s.Left() == last.Right()) &&
              (dirY > 0 ==> s.Bottom() == last.Top()) &&
              (dirY < 0 ==> s.Top() == last.Bottom())
  {
    CollidedSound(r, rects);
    CollidedNone(r, rects);
  }

  /** A rectangle that only touches a block edge to edge does not collide
      with it, so a collide pass against it changes nothing. */
  lemma TouchingIsNotACollision(r: Rect, b: Rect, dirX: int, dirY: int)
    requires r.Right() == b.Left() || r.Left() == b.Right() ||
             r.Bottom() == b.Top() || r.Top() == b.Bottom()
    ensures !Overlaps(r, b)
    ensures Resolve(r, dirX, dirY, [b]) == r
  {
    CollidedNone(r, [b]);
  }

  /** After a horizontal snap against a block of positive size, the sprite no
      longer overlaps that block (and likewise for a vertical snap). */
  lemma SnapSeparates(r: Rect, dirX: int, dirY: int, b: Rect)
    requires r.Valid() && b.Valid()
    requires dirX != 0 || dirY != 0
    ensures !Overlaps(SnapTo(r, dirX, dirY, b), b)
  {
  }
}
