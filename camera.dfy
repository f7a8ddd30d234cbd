/** The scrolling camera (`mario/camera.py`): a pygame Rect whose `x` is the
    negated horizontal scroll offset. The map is drawn shifted by `x`, and
    the window of the world that is on screen is what enemies test to wake
    up. */
module Cameras {
  import opened Geometry
  import opened Sprites

  /** The accumulator of `__set_right_border` after its loop, started at
      `start`: the greatest of `start` and every right edge in `rects`. */
  function Widest(start: int, rects: seq<Rect>): int
    decreases |rects|
  {
    if |rects| == 0 then start
    else
      var m := Widest(start, rects[..|rects| - 1]);
      if m < rects[|rects| - 1].Right() then rects[|rects| - 1].Right() else m
  }

  /** `Widest` is the maximum: no right edge exceeds it, it is at least the
      start, and it is the start or one of the edges. */
  lemma {:induction false} WidestIsMaximum(start: int, rects: seq<Rect>)
    ensures start <= Widest(start, rects)
    ensures forall i :: 0 <= i < |rects| ==> rects[i].Right() <= Widest(start, rects)
    ensures Widest(start, rects) == start ||
            exists i :: 0 <= i < |rects| && rects[i].Right() == Widest(start, rects)
    decreases |rects|
  {
    if |rects| > 0 {
      var n := |rects| - 1;
      WidestIsMaximum(start, rects[..n]);
      assert forall i :: 0 <= i < n ==> rects[..n][i] == rects[i];
    }
  }

  /** The new `x` after `scroll`, for a camera at `x` of the given width and
      level width, when the player's right edge is at `right`. The test
      `right > -x + width / 2` is done on exact halves (both sides doubled);
      the assigned `width / 2 - right` is truncated toward zero like every
      float a pygame Rect field receives. */
  function Scrolled(x: int, width: int, levelWidth: int, right: int): int
  {
    if 2 * right > width - 2 * x && Abs(x - width) < levelWidth
    then TruncDiv(width - 2 * right, 2)
    else x
  }

  /** `scroll` never moves the camera backward, and when it moves it puts
      the player's right edge at mid-screen, to within half a pixel (exactly
      for an even width, when the offset also strictly grows). */
  lemma ScrollsForward(x: int, width: int, levelWidth: int, right: int)
    ensures Scrolled(x, width, levelWidth, right) <= x
    ensures Scrolled(x, width, levelWidth, right) != x ==>
            -1 <= width - 2 * Scrolled(x, width, levelWidth, right) - 2 * right <= 1
    ensures Scrolled(x, width, levelWidth, right) != x && width % 2 == 0 ==>
            right == -Scrolled(x, width, levelWidth, right) + width / 2
    ensures width % 2 == 0 && 2 * right > width - 2 * x && Abs(x - width) < levelWidth ==>
            Scrolled(x, width, levelWidth, right) < x
  {
  }

  /** `scroll` moves the camera exactly when the player is right of
      mid-screen and the clamp test on the old `x` passes; the clamp is not
      applied to the new `x`, so one call can take the camera past it. */
  lemma ScrollGuard(x: int, width: int, levelWidth: int, right: int)
    requires width % 2 == 0
    ensures Scrolled(x, width, levelWidth, right) != x <==>
            2 * right > width - 2 * x && Abs(x - width) < levelWidth
  {
    ScrollsForward(x, width, levelWidth, right);
  }

  /** The clamp overshoots: a camera just inside the clamp that catches up
      with a player far ahead ends up beyond it. */
  lemma ScrollOvershoots()
    ensures Abs(-100 - 640) < 800
    ensures Scrolled(-100, 640, 800, 1000) == -680
    ensures !(Abs(-680 - 640) < 800)
  {
  }

  /** A second `scroll` with the player where it was changes nothing. */
  lemma ScrollIdempotent(x: int, width: int, levelWidth: int, right: int)
    ensures Scrolled(Scrolled(x, width, levelWidth, right), width, levelWidth, right) ==
            Scrolled(x, width, levelWidth, right)
  {
    var x1 := Scrolled(x, width, levelWidth, right);
    if x1 != x {
      assert x1 == TruncDiv(width - 2 * right, 2);
    }
  }

  class Camera {
    const player: Player
    var x: int
    var y: int
    const width: int
    const height: int
    var levelWidth: int

    /** The camera never shows anything left of the level's start. */
    predicate Valid()
      reads this
    {
      x <= 0
    }

    /** `Camera(player, left, top, width, height, all_sprites)`; `sprites`
        are the rectangles of `all_sprites` in group order. */
    constructor (player: Player, left: int, top: int, width: int, height: int, sprites: seq<Rect>)
      ensures left <= 0 ==> Valid()
      ensures this.player == player && x == left && y == top
      ensures this.width == width && this.height == height
      ensures levelWidth == Widest(0, sprites) - 3
    {
      this.player := player;
      x, y := left, top;
      this.width, this.height := width, height;
      levelWidth := 0;
      new;
      SetRightBorder(sprites);
    }

    /** `__set_right_border`: the largest right edge, counting the current
        value, less 3. */
    method SetRightBorder(sprites: seq<Rect>)
      modifies this`levelWidth
      ensures levelWidth == Widest(old(levelWidth), sprites) - 3
    {
      var i := 0;
      while i < |sprites|
        invariant 0 <= i <= |sprites|
        invariant levelWidth == Widest(old(levelWidth), sprites[..i])
      {
        assert sprites[..i + 1][..i] == sprites[..i];
        if levelWidth < sprites[i].Right() {
          levelWidth := sprites[i].Right();
        }
        i := i + 1;
      }
      assert sprites[..i] == sprites;
      levelWidth := levelWidth - 3;
    }

    /** `scroll`: only `x` changes, as `Scrolled` says. */
    method Scroll()
      modifies this`x
      ensures x <= old(x)
      ensures x == Scrolled(old(x), width, levelWidth, player.rect.Right())
    {
      if 2 * player.rect.Right() > width - 2 * x && Abs(x - width) < levelWidth {
        x := TruncDiv(width - 2 * player.rect.Right(), 2);
      }
      ScrollsForward(old(x), width, levelWidth, player.rect.Right());
    }

    /** The `rect` property: the window of the world on screen. */
    function View(): (r: Rect)
      reads this
      ensures Valid() ==> r.Left() == -x && r.Right() == -x + width
      ensures r.Top() == Abs(y) && r.h == height
    {
      Rect(Abs(x), Abs(y), width, height)
    }

    /** With the camera at the top, a sprite is in the window exactly when
        its rectangle as drawn (shifted by `x`) overlaps the screen. */
    lemma ViewIsScreen(s: Rect)
      requires Valid() && y == 0
      ensures Overlaps(s, View()) <==> Overlaps(s.(x := s.x + x), Rect(0, 0, width, height))
    {
    }
  }
}
