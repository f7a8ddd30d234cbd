/** The sprites of one level and what each of them does in one tick:
    the player (`Player`), the patrolling enemies (`Enemy`, of which
    `Turtle` and `Mushroom` differ only in their pictures), the static
    blocks (`Block`, `Box`, `Brick`, `Floor`, `Pipe`) and the coin that a
    box throws up (`Coin`).

    Every field a method of the source updates in place is a field here.
    Speeds and the player's left border are stored doubled (`speedX2 ==
    2 * speed_x`), as the source adds 1.5, GRAVITY / 2 and screen_width / 2
    to them. Whenever the source stores a non-integer into a Rect field the
    Rect keeps the value truncated toward zero (`TruncDiv`). */
module Sprites {
  import opened Geometry
  import opened Physics

  datatype BlockKind = FloorBlock | BrickBlock | PipeBlock | PlainBlock | BoxBlock

  /** A static block of the `blocks` group. Only a box's `isDie` ever changes
      (it then shows its empty picture); it stays solid. */
  datatype Block = Block(kind: BlockKind, rect: Rect, isDie: bool)

  function RectsOf(blocks: seq<Block>): (rs: seq<Rect>)
    ensures |rs| == |blocks|
    ensures forall i :: 0 <= i < |blocks| ==> rs[i] == blocks[i].rect
  {
    seq(|blocks|, i requires 0 <= i < |blocks| => blocks[i].rect)
  }

  /** The hit positions, in order, that `box_collide` bumps: those that
      hold a box, provided the player moves up (`dirY < 0`). */
  function BoxesAmong(dirY: int, hits: seq<nat>, blocks: seq<Block>): (boxes: seq<nat>)
    ensures forall k :: 0 <= k < |boxes| ==> boxes[k] < |blocks| && blocks[boxes[k]].kind == BoxBlock
    ensures |boxes| <= |hits|
    ensures dirY >= 0 ==> boxes == []
  {
    if |hits| == 0 then []
    else
      var front := BoxesAmong(dirY, hits[..|hits| - 1], blocks);
      var last := hits[|hits| - 1];
      if dirY < 0 && last < |blocks| && blocks[last].kind == BoxBlock then front + [last] else front
  }

  /** While moving up, every hit position that holds a box is bumped. */
  lemma {:induction false} BoxesAmongComplete(dirY: int, hits: seq<nat>, blocks: seq<Block>, k: nat)
    requires dirY < 0 && k < |hits| && hits[k] < |blocks| && blocks[hits[k]].kind == BoxBlock
    ensures hits[k] in BoxesAmong(dirY, hits, blocks)
  {
    var n := |hits| - 1;
    if k < n {
      assert hits[..n][k] == hits[k];
      BoxesAmongComplete(dirY, hits[..n], blocks, k);
    }
  }

  /** The boxes are bumped in hit order: each is a hit position, and when
      the hits ascend (group order), so do the boxes. */
  lemma {:induction false} BoxesAmongInOrder(dirY: int, hits: seq<nat>, blocks: seq<Block>)
    requires forall a, b :: 0 <= a < b < |hits| ==> hits[a] < hits[b]
    ensures forall k :: 0 <= k < |BoxesAmong(dirY, hits, blocks)| ==> BoxesAmong(dirY, hits, blocks)[k] in hits
    ensures forall a, b :: 0 <= a < b < |BoxesAmong(dirY, hits, blocks)| ==>
              BoxesAmong(dirY, hits, blocks)[a] < BoxesAmong(dirY, hits, blocks)[b]
  {
    if |hits| > 0 {
      var n := |hits| - 1;
      var front := BoxesAmong(dirY, hits[..n], blocks);
      BoxesAmongInOrder(dirY, hits[..n], blocks);
      forall k | 0 <= k < |front| ensures front[k] in hits && front[k] < hits[n] {
        var i :| 0 <= i < n && hits[..n][i] == front[k];
        assert hits[i] == front[k];
      }
    }
  }

  /** Which positions are bumped depends only on the blocks' kinds, not on
      whether a box was hit before. */
  lemma {:induction false} BoxesAmongIgnoresMarks(dirY: int, hits: seq<nat>, bs: seq<Block>, bs': seq<Block>)
    requires |bs'| == |bs| && forall j :: 0 <= j < |bs| ==> bs'[j].kind == bs[j].kind
    ensures BoxesAmong(dirY, hits, bs') == BoxesAmong(dirY, hits, bs)
  {
    if |hits| > 0 {
      BoxesAmongIgnoresMarks(dirY, hits[..|hits| - 1], bs, bs');
    }
  }

  /** The rectangles of the blocks at the given positions. */
  function RectsAt(bs: seq<Block>, ps: seq<nat>): (rs: seq<Rect>)
    ensures |rs| == |ps|
    ensures forall k :: 0 <= k < |ps| && ps[k] < |bs| ==> rs[k] == bs[ps[k]].rect
  {
    if |ps| == 0 then []
    else RectsAt(bs, ps[..|ps| - 1]) + [if ps[|ps| - 1] < |bs| then bs[ps[|ps| - 1]].rect else Rect(0, 0, 0, 0)]
  }

  /** Where `Coin(x, bottom)` is placed: its bottom on `bottom`. */
  function CoinRect(x: int, bottom: int, w: int, h: int): (r: Rect)
    ensures r.Left() == x && r.Bottom() == bottom && r.w == w && r.h == h
  {
    Rect(x, bottom - h, w, h)
  }

  // -----------------------------------------------------------------------

  /** The pickup a hit box throws up: it rises 3 px per tick while its timer
      is below 20, then falls 3 px per tick, and is killed at timer 40. */
  class Coin {
    var rect: Rect
    var timer: int
    /** `kill()`: no longer in any group, so no longer updated. */
    var removed: bool
    /** The top edge the coin had when it was created. */
    ghost const spawnY: int

    ghost predicate Valid()
      reads this
    {
      rect.Valid() && 0 <= timer <= CoinLife &&
      rect.y == spawnY + CoinLift(timer) &&
      (removed <==> timer >= CoinLife)
    }

    constructor (x: int, bottom: int, w: int, h: int)
      requires w > 0 && h > 0
      ensures Valid()
      ensures rect == CoinRect(x, bottom, w, h) && timer == 0 && !removed
      ensures spawnY == rect.y
    {
      rect := CoinRect(x, bottom, w, h);
      timer := 0;
      removed := false;
      spawnY := bottom - h;
    }

    /** `Coin.animate`. */
    method Animate()
      requires Valid() && !removed
      modifies this
      ensures Valid()
      ensures timer == old(timer) + 1
      ensures rect == old(rect).(y := old(rect.y) + if timer < 20 then -3 else 3)
      ensures removed <==> timer == CoinLife
    {
      timer := timer + 1;
      if timer < 20 {
        rect := rect.(y := rect.y - 3);
      } else {
        rect := rect.(y := rect.y + 3);
      }
      if timer >= CoinLife {
        removed := true;
      }
    }
  }

  // -----------------------------------------------------------------------

  /** The changing fields of an enemy. */
  datatype EnemyState = EnemyState(rect: Rect, speedX: int, isActive: bool, isDie: bool,
                                   animationFrame: int, removed: bool)
  {
    /** Asleep enemies stand still, awake live ones walk one pixel a frame,
        and an enemy is killed once it has been dying for more than 30
        frames. */
    predicate Valid()
    {
      rect.Valid() &&
      -1 <= speedX <= 1 &&
      (!isActive ==> speedX == 0) &&
      (isActive && !isDie ==> speedX != 0) &&
      (removed <==> isDie && animationFrame > 30)
    }
  }

  /** A patrolling enemy (Turtle or Mushroom). It falls at the constant
      speed GRAVITY, stands still until it first overlaps the camera's view,
      then walks left and turns round at every block it runs into. */
  class Enemy {
    var rect: Rect
    var speedX: int
    /** Enemies fall at the pull of gravity. */
    const speedY: int := Gravity
    var isActive: bool
    var isDie: bool
    var animationFrame: int
    /** `kill()`: no longer in any group, so no longer updated. */
    var removed: bool

    predicate Valid()
      reads this
    {
      State().Valid()
    }

    /** Every field that changes, as one value. */
    function State(): EnemyState
      reads this
    {
      EnemyState(rect, speedX, isActive, isDie, animationFrame, removed)
    }

    constructor (x: int, bottom: int, w: int, h: int)
      requires w > 0 && h > 0
      ensures Valid()
      ensures rect == Rect(x, bottom - h, w, h)
      ensures speedX == 0 && !isActive && !isDie && animationFrame == 0 && !removed
    {
      rect := Rect(x, bottom - h, w, h);
      speedX := 0;
      isActive := false;
      isDie := false;
      animationFrame := 0;
      removed := false;
    }

    /** `Enemy.collide`: the same edge snaps as the player's, but the speeds
        are left alone; reports whether anything overlapped. */
    method Collide(dirX: int, dirY: int, blocks: seq<Block>) returns (hit: bool)
      modifies this`rect
      ensures hit <==> |Collided(old(rect), RectsOf(blocks))| > 0
      ensures rect == Resolve(old(rect), dirX, dirY, RectsOf(blocks))
    {
      var rects := RectsOf(blocks);
      var hits := Collided(rect, rects);
      var i := 0;
      while i < |hits|
        invariant 0 <= i <= |hits|
        invariant rect == if i == 0 then old(rect) else SnapTo(old(rect), dirX, dirY, rects[hits[i - 1]])
      {
        var b := rects[hits[i]];
        if i > 0 {
          SnapOverrides(old(rect), dirX, dirY, rects[hits[i - 1]], b);
        }
        if dirX > 0 {
          rect := rect.(x := b.Left() - rect.w);
        }
        if dirX < 0 {
          rect := rect.(x := b.Right());
        }
        if dirY > 0 {
          rect := rect.(y := b.Top() - rect.h);
        }
        if dirY < 0 {
          rect := rect.(y := b.Bottom());
        }
        i := i + 1;
      }
      hit := |hits| > 0;
    }

    /** `inverse_direction`. */
    method InverseDirection()
      modifies this`speedX
      ensures speedX == -old(speedX)
    {
      speedX := -speedX;
    }

    /** `Enemy.move`: fall by speed_y and land on the last block hit, then
        step by speed_x, snap against the last block hit and turn round
        exactly when that horizontal pass hit something. */
    method Move(blocks: seq<Block>)
      requires Valid()
      modifies this`rect, this`speedX
      ensures Valid()
      ensures State() == EnemyMoved(old(State()), RectsOf(blocks))
    {
      ghost var s := State();
      ghost var rects := RectsOf(blocks);
      rect := rect.(y := rect.y + speedY);
      var hitY := Collide(0, speedY, blocks);
      ghost var fallen := rect;
      assert fallen == Resolve(s.rect.(y := s.rect.y + Gravity), 0, Gravity, rects);
      rect := rect.(x := rect.x + speedX);
      ghost var stepped := rect;
      var hitX := Collide(speedX, 0, blocks);
      assert hitX <==> |Collided(stepped, rects)| > 0;
      if hitX {
        InverseDirection();
      }
      EnemyMovedStages(s, rects, fallen, stepped, rect, speedX);
      EnemyMovedValid(s, rects);
    }

    /** `BasicMovableSprite.animate`, less the choice of picture: a dying
        enemy is frozen and killed once its frame counter passes 30. */
    method Animate()
      requires Valid()
      modifies this
      ensures Valid()
      ensures animationFrame == old(animationFrame) + 1
      ensures speedX == if isDie then 0 else old(speedX)
      ensures removed <==> isDie && animationFrame > 30
      ensures rect == old(rect) && isActive == old(isActive) && isDie == old(isDie)
      ensures State() == EnemyAnimated(old(State()))
    {
      animationFrame := animationFrame + 1;
      if isDie {
        speedX := 0;
        if animationFrame > 30 {
          removed := true;
        }
      }
    }

    /** `Enemy.update`: move, animate, then wake up the first time the enemy
        overlaps `view`, the camera's visible window (`camera.rect`). */
    method Update(blocks: seq<Block>, view: Rect)
      requires Valid() && !removed
      modifies this
      ensures Valid()
      ensures State() == EnemyTicked(old(State()), RectsOf(blocks), view)
    {
      Move(blocks);
      Animate();
      if !isActive && Overlaps(rect, view) {
        speedX := -1;
        isActive := true;
      }
    }
  }

  /** `Enemy.move` on the enemy's state: fall by GRAVITY and land on the
      last block hit, then step by speed_x, snap against the last block hit
      and turn round exactly when that horizontal pass hit something. */
  function EnemyMoved(s: EnemyState, rects: seq<Rect>): EnemyState
  {
    var fallen := Resolve(s.rect.(y := s.rect.y + Gravity), 0, Gravity, rects);
    var stepped := fallen.(x := fallen.x + s.speedX);
    s.(rect := Resolve(stepped, s.speedX, 0, rects),
       speedX := if |Collided(stepped, rects)| > 0 then -s.speedX else s.speedX)
  }

  lemma EnemyMovedStages(s: EnemyState, rects: seq<Rect>, fallen: Rect, stepped: Rect, r: Rect, speedX: int)
    requires fallen == Resolve(s.rect.(y := s.rect.y + Gravity), 0, Gravity, rects)
    requires stepped == fallen.(x := fallen.x + s.speedX)
    requires r == Resolve(stepped, s.speedX, 0, rects)
    requires speedX == if |Collided(stepped, rects)| > 0 then -s.speedX else s.speedX
    ensures EnemyMoved(s, rects) == s.(rect := r, speedX := speedX)
  {
  }

  /** Moving keeps an enemy's invariant. */
  lemma EnemyMovedValid(s: EnemyState, rects: seq<Rect>)
    requires s.Valid()
    ensures EnemyMoved(s, rects).Valid()
  {
  }

  /** `BasicMovableSprite.animate` on the enemy's state. */
  function EnemyAnimated(s: EnemyState): EnemyState
  {
    var frame := s.animationFrame + 1;
    s.(animationFrame := frame, speedX := if s.isDie then 0 else s.speedX,
       removed := s.removed || (s.isDie && frame > 30))
  }

  /** `Enemy.update` on the enemy's state, with `view` the camera's window. */
  function EnemyTicked(s: EnemyState, rects: seq<Rect>, view: Rect): EnemyState
  {
    var a := EnemyAnimated(EnemyMoved(s, rects));
    if !a.isActive && Overlaps(a.rect, view) then a.(speedX := -1, isActive := true) else a
  }

  /** Over one update an enemy keeps its invariant; an asleep one does not
      move sideways and wakes up, walking left, exactly when it ends up in
      the camera's window; an awake live one keeps walking at one pixel a
      frame and a dying one stands; the frame counter advances, and a
      dying enemy is removed once it passes frame 30. */
  lemma EnemyTickedEffect(s: EnemyState, rects: seq<Rect>, view: Rect)
    requires s.Valid() && !s.removed
    ensures var t := EnemyTicked(s, rects, view);
            t.Valid() &&
            (!s.isActive ==> t.rect.x == s.rect.x) &&
            (t.isActive <==> s.isActive || Overlaps(t.rect, view)) &&
            (!s.isActive && t.isActive ==> t.speedX == -1) &&
            (t.isActive && !t.isDie ==> t.speedX == 1 || t.speedX == -1) &&
            (s.isActive && t.isDie ==> t.speedX == 0) &&
            t.isDie == s.isDie && t.animationFrame == s.animationFrame + 1 &&
            (t.removed <==> t.isDie && t.animationFrame > 30)
  {
    var fallen := Resolve(s.rect.(y := s.rect.y + Gravity), 0, Gravity, rects);
    ResolveEffect(s.rect.(y := s.rect.y + Gravity), 0, Gravity, rects);
    var stepped := fallen.(x := fallen.x + s.speedX);
    ResolveEffect(stepped, s.speedX, 0, rects);
  }

  /** Every enemy falls by GRAVITY each update, unless it lands: then its
      bottom rests on the top of the last block it fell into. */
  lemma EnemyTickedFalls(s: EnemyState, rects: seq<Rect>, view: Rect)
    ensures var dropped := s.rect.(y := s.rect.y + Gravity);
            var hits := Collided(dropped, rects);
            var t := EnemyTicked(s, rects, view);
            t.rect.h == s.rect.h &&
            (|hits| == 0 ==> t.rect.y == s.rect.y + Gravity) &&
            (|hits| > 0 ==> t.rect.Bottom() == rects[hits[|hits| - 1]].Top())
  {
    var dropped := s.rect.(y := s.rect.y + Gravity);
    ResolveEffect(dropped, 0, Gravity, rects);
    CollidedNone(dropped, rects);
    var fallen := Resolve(dropped, 0, Gravity, rects);
    ResolveEffect(fallen.(x := fallen.x + s.speedX), s.speedX, 0, rects);
  }

  /** An awake live enemy walks on by speed_x when its step hits no block;
      when it does, it stops against the last block hit and turns round. */
  lemma EnemyTickedWalks(s: EnemyState, rects: seq<Rect>, view: Rect)
    requires s.Valid() && s.isActive && !s.isDie
    ensures var fallen := Resolve(s.rect.(y := s.rect.y + Gravity), 0, Gravity, rects);
            var stepped := fallen.(x := fallen.x + s.speedX);
            var hits := Collided(stepped, rects);
            var t := EnemyTicked(s, rects, view);
            (|hits| == 0 ==> t.rect.x == s.rect.x + s.speedX && t.speedX == s.speedX) &&
            (|hits| > 0 ==> t.speedX == -s.speedX &&
                            (s.speedX < 0 ==> t.rect.Left() == rects[hits[|hits| - 1]].Right()) &&
                            (s.speedX > 0 ==> t.rect.Right() == rects[hits[|hits| - 1]].Left()))
  {
    var dropped := s.rect.(y := s.rect.y + Gravity);
    FallKeepsX(dropped, rects);
    var fallen := Resolve(dropped, 0, Gravity, rects);
    StepAcross(fallen.(x := fallen.x + s.speedX), s.speedX, rects);
    assert EnemyTicked(s, rects, view) == EnemyAnimated(EnemyMoved(s, rects));
  }

  /** The vertical pass does not move a sprite sideways. */
  lemma FallKeepsX(r: Rect, rects: seq<Rect>)
    ensures Resolve(r, 0, Gravity, rects).x == r.x
  {
    ResolveEffect(r, 0, Gravity, rects);
  }

  /** A horizontal pass leaves the sprite where it stepped when nothing
      overlaps, else against the last block on the side it moves to. */
  lemma StepAcross(r: Rect, dirX: int, rects: seq<Rect>)
    ensures var hits := Collided(r, rects);
            var q := Resolve(r, dirX, 0, rects);
            (|hits| == 0 ==> q == r) &&
            (|hits| > 0 && dirX < 0 ==> q.Left() == rects[hits[|hits| - 1]].Right()) &&
            (|hits| > 0 && dirX > 0 ==> q.Right() == rects[hits[|hits| - 1]].Left())
  {
  }

  /** The enemies at `a` and `b` are two different objects (a group holds
      each sprite once). */
  predicate Apart(enemies: seq<Enemy>, a: int, b: int)
  {
    0 <= a < |enemies| && 0 <= b < |enemies| && enemies[a] != enemies[b]
  }

  /** The enemies' changing fields, in group order. */
  function States(enemies: seq<Enemy>): (ss: seq<EnemyState>)
    reads enemies
    ensures |ss| == |enemies|
  {
    if |enemies| == 0 then []
    else States(enemies[..|enemies| - 1]) + [enemies[|enemies| - 1].State()]
  }

  /** Each state is that of the enemy at the same position. */
  lemma {:induction false} StatesIndex(enemies: seq<Enemy>)
    ensures forall i :: 0 <= i < |enemies| ==> States(enemies)[i] == enemies[i].State()
  {
    if |enemies| > 0 {
      StatesIndex(enemies[..|enemies| - 1]);
    }
  }

  lemma StatesValid(enemies: seq<Enemy>)
    requires forall j :: 0 <= j < |enemies| ==> enemies[j].Valid()
    ensures forall j :: 0 <= j < |enemies| ==> States(enemies)[j].Valid()
  {
    StatesIndex(enemies);
  }

  lemma ValidStates(enemies: seq<Enemy>)
    requires forall j :: 0 <= j < |enemies| ==> States(enemies)[j].Valid()
    ensures forall j :: 0 <= j < |enemies| ==> enemies[j].Valid()
  {
    StatesIndex(enemies);
    forall j | 0 <= j < |enemies| ensures enemies[j].Valid() {
      assert States(enemies)[j].Valid();
    }
  }

  /** Enemies whose fields did not change have the same states. */
  twostate lemma StatesKept(enemies: seq<Enemy>)
    requires forall j :: 0 <= j < |enemies| ==> unchanged(enemies[j])
    ensures States(enemies) == old(States(enemies))
  {
  }

  function PlacesOf(ss: seq<EnemyState>): (rs: seq<Rect>)
  {
    seq(|ss|, i requires 0 <= i < |ss| => ss[i].rect)
  }

  /** What `enemy_collide` reads of the enemies at the given positions. */
  function FoesAt(hits: seq<nat>, ss: seq<EnemyState>): (foes: seq<Foe>)
  {
    seq(|hits|, k requires 0 <= k < |hits| =>
      if hits[k] < |ss| then Foe(ss[hits[k]].rect.y, ss[hits[k]].isDie) else Foe(0, true))
  }

  /** What meeting the player, whose bottom is `bottom`, does to an enemy:
      a stomped one starts dying with its frame counter reset; otherwise
      nothing changes. */
  function Stomped(bottom: int, s: EnemyState): (t: EnemyState)
    ensures s.Valid() ==> t.Valid()
    ensures t.rect == s.rect && t.speedX == s.speedX && t.isActive == s.isActive && t.removed == s.removed
    ensures t.isDie <==> s.isDie || Stomps(bottom, Foe(s.rect.y, s.isDie))
    ensures Stomps(bottom, Foe(s.rect.y, s.isDie)) ==> t.animationFrame == 0
    ensures !Stomps(bottom, Foe(s.rect.y, s.isDie)) ==> t == s
  {
    if Stomps(bottom, Foe(s.rect.y, s.isDie)) then s.(isDie := true, animationFrame := 0) else s
  }

  /** The enemies after the player met those at `hits`, in order. */
  function StompAll(bottom: int, ss: seq<EnemyState>, hits: seq<nat>): seq<EnemyState>
  {
    if |hits| == 0 then ss
    else
      var front := StompAll(bottom, ss, hits[..|hits| - 1]);
      var p := hits[|hits| - 1];
      if p < |front| then front[p := Stomped(bottom, front[p])] else front
  }

  /** When no enemy is met twice, each enemy is met once with the state it
      started in: the met ones are `Stomped`, the others unchanged. */
  lemma {:induction false} StompAllEffect(bottom: int, ss: seq<EnemyState>, hits: seq<nat>)
    requires forall a, b :: 0 <= a < b < |hits| ==> hits[a] < hits[b]
    ensures |StompAll(bottom, ss, hits)| == |ss|
    ensures forall j :: 0 <= j < |ss| ==>
              StompAll(bottom, ss, hits)[j] == if j in hits then Stomped(bottom, ss[j]) else ss[j]
  {
    if |hits| > 0 {
      var front := hits[..|hits| - 1];
      var p := hits[|hits| - 1];
      StompAllEffect(bottom, ss, front);
      assert hits == front + [p];
      assert p !in front by {
        forall k | 0 <= k < |front| ensures front[k] != p {
          assert front[k] == hits[k];
        }
      }
    }
  }

  /** An enemy that is not met keeps its state. */
  lemma {:induction false} StompAllMisses(bottom: int, ss: seq<EnemyState>, hits: seq<nat>, j: nat)
    requires j < |ss| && j !in hits
    ensures |StompAll(bottom, ss, hits)| == |ss|
    ensures StompAll(bottom, ss, hits)[j] == ss[j]
  {
    if |hits| > 0 {
      var front := hits[..|hits| - 1];
      assert hits == front + [hits[|hits| - 1]];
      StompAllMisses(bottom, ss, front, j);
    }
  }

  /** Meeting enemies never breaks an enemy's invariant. */
  lemma {:induction false} StompAllValid(bottom: int, ss: seq<EnemyState>, hits: seq<nat>)
    requires forall j :: 0 <= j < |ss| ==> ss[j].Valid()
    ensures |StompAll(bottom, ss, hits)| == |ss|
    ensures forall j :: 0 <= j < |ss| ==> StompAll(bottom, ss, hits)[j].Valid()
  {
    if |hits| > 0 {
      StompAllValid(bottom, ss, hits[..|hits| - 1]);
    }
  }

  /** A prefix one longer is the prefix and the next element. */
  lemma Grow<T>(s: seq<T>, i: nat)
    requires i < |s|
    ensures s[..i + 1] == s[..i] + [s[i]]
  {
  }

  /** Meeting one more enemy, `p`, that was not met before extends both
      folds of `enemy_collide` by one step. */
  lemma MeetStep(bottom: int, f0: Fighter, met: seq<Foe>, ss: seq<EnemyState>, done: seq<nat>,
                 p: nat, f: Fighter, now: seq<EnemyState>)
    requires f == Encounter(bottom, f0, met) && now == StompAll(bottom, ss, done)
    requires p < |now| && p < |ss| && now[p] == ss[p]
    ensures Encounter(bottom, f0, met + [Foe(ss[p].rect.y, ss[p].isDie)]) ==
            Meet(bottom, f, Foe(ss[p].rect.y, ss[p].isDie))
    ensures StompAll(bottom, ss, done + [p]) == now[p := Stomped(bottom, now[p])]
  {
    assert (met + [Foe(ss[p].rect.y, ss[p].isDie)])[..|met|] == met;
    assert (done + [p])[..|done|] == done;
  }

  // -----------------------------------------------------------------------

  /** Every field of a player, as one value. */
  datatype Body = Body(rect: Rect, speedX2: int, speedY2: int, jumpForce: int,
                       onGround: bool, jumpBan: bool, isLeft: bool, isRight: bool,
                       animationFrame: int, leftBorder2: int, isDie: bool,
                       dieAnimation: bool, score: int, coins: int)

  /** What stopping against the block `b` does to the player: the leading
      edge goes against it, the speed on each axis of motion drops to zero,
      a landing (moving down) puts the player on the ground with the jump
      accumulator reset, and a hit from below latches the jump. */
  function Stopped(p: Body, dirX: int, dirY: int, b: Rect): Body
  {
    p.(rect := SnapTo(p.rect, dirX, dirY, b),
       speedX2 := if dirX != 0 then 0 else p.speedX2,
       speedY2 := if dirY != 0 then 0 else p.speedY2,
       onGround := p.onGround || dirY > 0,
       jumpForce := if dirY > 0 then 0 else p.jumpForce,
       jumpBan := p.jumpBan || dirY < 0)
  }

  /** Stopping against `a` and then `b` is stopping against `b` alone. */
  lemma StoppedOverrides(p: Body, dirX: int, dirY: int, a: Rect, b: Rect)
    ensures Stopped(Stopped(p, dirX, dirY, a), dirX, dirY, b) == Stopped(p, dirX, dirY, b)
  {
    SnapOverrides(p.rect, dirX, dirY, a, b);
  }

  /** What bumping into the box `box` from below does to the player: the
      head goes against the box's bottom, the jump stops and latches, and
      200 points are scored. */
  function Bump(b: Body, box: Rect): (c: Body)
    ensures c.rect.Top() == box.Bottom() && !Overlaps(c.rect, box)
    ensures c.rect == b.rect.(y := c.rect.y)
    ensures c.speedY2 == 0 && c.jumpBan && c.score == b.score + 200
    ensures c == b.(rect := c.rect, speedY2 := c.speedY2, jumpBan := c.jumpBan, score := c.score)
  {
    b.(rect := b.rect.(y := box.Bottom()), speedY2 := 0, jumpBan := true, score := b.score + 200)
  }

  /** The blocks once the boxes at the given positions have been hit, in
      order. */
  function MarkHit(bs: seq<Block>, ps: seq<nat>): (marked: seq<Block>)
    ensures |marked| == |bs|
    ensures forall k :: 0 <= k < |ps| && ps[k] < |bs| ==> marked[ps[k]].isDie
  {
    if |ps| == 0 then bs
    else
      var front := MarkHit(bs, ps[..|ps| - 1]);
      var p := ps[|ps| - 1];
      if p < |front| then front[p := front[p].(isDie := true)] else front
  }

  /** Hitting boxes changes nothing but their `isDie` flags: every block
      keeps its kind and place, and is marked exactly when it was marked
      before or is one of the hit positions. */
  lemma {:induction false} MarkHitEffect(bs: seq<Block>, ps: seq<nat>)
    ensures |MarkHit(bs, ps)| == |bs|
    ensures forall j :: 0 <= j < |bs| ==>
              MarkHit(bs, ps)[j] == bs[j].(isDie := bs[j].isDie || j in ps)
  {
    if |ps| > 0 {
      var front := ps[..|ps| - 1];
      MarkHitEffect(bs, front);
      assert ps == front + [ps[|ps| - 1]];
    }
  }

  /** Kind and place of the block at `h` are those it started with. */
  lemma MarkHitKeeps(bs: seq<Block>, ps: seq<nat>, h: nat)
    requires h < |bs|
    ensures |MarkHit(bs, ps)| == |bs|
    ensures MarkHit(bs, ps)[h].kind == bs[h].kind && MarkHit(bs, ps)[h].rect == bs[h].rect
  {
    MarkHitEffect(bs, ps);
  }

  /** The loop of `box_collide` one box further: the box at `boxes[i]`
      still has its place when it is reached, and all three folds grow by
      that box. */
  lemma BoxStep(b: Body, bs: seq<Block>, boxes: seq<nat>, i: nat, coinW: int, coinH: int)
    requires i < |boxes| && boxes[i] < |bs|
    ensures |MarkHit(bs, boxes[..i])| == |bs|
    ensures MarkHit(bs, boxes[..i])[boxes[i]].rect == RectsAt(bs, boxes)[i]
    ensures MarkHit(bs, boxes[..i + 1]) ==
            MarkHit(bs, boxes[..i])[boxes[i] := MarkHit(bs, boxes[..i])[boxes[i]].(isDie := true)]
    ensures BumpAll(b, RectsAt(bs, boxes)[..i + 1]) == Bump(BumpAll(b, RectsAt(bs, boxes)[..i]), RectsAt(bs, boxes)[i])
    ensures CoinSpots(RectsAt(bs, boxes)[..i + 1], coinW, coinH) ==
            CoinSpots(RectsAt(bs, boxes)[..i], coinW, coinH) +
            [CoinRect(RectsAt(bs, boxes)[i].x, RectsAt(bs, boxes)[i].Top(), coinW, coinH)]
  {
    MarkHitKeeps(bs, boxes[..i], boxes[i]);
    Grow(boxes, i);
    Grow(RectsAt(bs, boxes), i);
    assert (boxes[..i] + [boxes[i]])[..i] == boxes[..i];
    var bumped := RectsAt(bs, boxes);
    assert (bumped[..i] + [bumped[i]])[..i] == bumped[..i];
  }

  /** Where the coins popped out of the given boxes appear: each stands on
      top of its box, at the box's x. */
  function CoinSpots(boxes: seq<Rect>, w: int, h: int): (spots: seq<Rect>)
    ensures |spots| == |boxes|
    ensures forall k :: 0 <= k < |boxes| ==> spots[k] == CoinRect(boxes[k].x, boxes[k].Top(), w, h)
  {
    if |boxes| == 0 then []
    else CoinSpots(boxes[..|boxes| - 1], w, h) + [CoinRect(boxes[|boxes| - 1].x, boxes[|boxes| - 1].Top(), w, h)]
  }

  /** Bumping into the given boxes, in order. */
  function BumpAll(b: Body, boxes: seq<Rect>): (c: Body)
    ensures c.score == b.score + 200 * |boxes|
    ensures |boxes| > 0 ==> c.rect.Top() == boxes[|boxes| - 1].Bottom() && c.speedY2 == 0 && c.jumpBan
  {
    if |boxes| == 0 then b else Bump(BumpAll(b, boxes[..|boxes| - 1]), boxes[|boxes| - 1])
  }

  /** After a run of bumps the player sits under the last box with its
      vertical speed cut, and has scored 200 points a box. */
  lemma {:induction false} BumpAllEffect(b: Body, boxes: seq<Rect>)
    ensures BumpAll(b, boxes) ==
            if |boxes| == 0 then b
            else b.(rect := b.rect.(y := boxes[|boxes| - 1].Bottom()), speedY2 := 0, jumpBan := true,
                    score := b.score + 200 * |boxes|)
  {
    if |boxes| > 0 {
      BumpAllEffect(b, boxes[..|boxes| - 1]);
    }
  }

  /** Where a `Player.collide` pass leaves the player: the edges where
      `Resolve` puts them and, when anything overlapped, stopped as by the
      last overlapped block (see `Stopped`). */
  function Pushed(p: Body, dirX: int, dirY: int, rects: seq<Rect>): Body
  {
    var hits := Collided(p.rect, rects);
    if |hits| == 0 then p else Stopped(p, dirX, dirY, rects[hits[|hits| - 1]])
  }

  /** A collide pass with nothing overlapping changes nothing. */
  lemma PushedClear(p: Body, dirX: int, dirY: int, rects: seq<Rect>)
    requires forall i :: 0 <= i < |rects| ==> !Overlaps(p.rect, rects[i])
    ensures Pushed(p, dirX, dirY, rects) == p
  {
    CollidedNone(p.rect, rects);
  }

  /** Against `b`, the last block of the group that overlapped: moving
      right puts the right edge on its left edge, moving left the left edge
      on its right edge, and the horizontal speed drops to zero; moving
      down puts the bottom on its top, lands the player and resets the
      jump; moving up puts the top on its bottom and latches the jump.
      Fields no pass touches keep their values. */
  lemma PushedAgainstLast(p: Body, dirX: int, dirY: int, rects: seq<Rect>, b: Rect)
    requires |Collided(p.rect, rects)| > 0
    requires b == rects[Collided(p.rect, rects)[|Collided(p.rect, rects)| - 1]]
    ensures Overlaps(p.rect, b)
    ensures var q := Pushed(p, dirX, dirY, rects);
            (dirX > 0 ==> q.rect.Right() == b.Left() && q.speedX2 == 0) &&
            (dirX < 0 ==> q.rect.Left() == b.Right() && q.speedX2 == 0) &&
            (dirY > 0 ==> q.rect.Bottom() == b.Top() && q.onGround && q.jumpForce == 0 && q.speedY2 == 0) &&
            (dirY < 0 ==> q.rect.Top() == b.Bottom() && q.speedY2 == 0 && q.jumpBan)
    ensures var q := Pushed(p, dirX, dirY, rects);
            q.score == p.score && q.coins == p.coins && q.animationFrame == p.animationFrame &&
            q.dieAnimation == p.dieAnimation && q.leftBorder2 == p.leftBorder2
  {
    CollidedSound(p.rect, rects);
  }

  /** The blocks keep their places whatever boxes are hit. */
  lemma MarkHitPlaces(bs: seq<Block>, ps: seq<nat>)
    ensures RectsOf(MarkHit(bs, ps)) == RectsOf(bs)
  {
    MarkHitEffect(bs, ps);
  }

  /** Who `box_collide` bumps: while moving up, exactly the boxes that
      overlap the player, in group order, whether or not they were hit
      before; nothing at all otherwise. */
  lemma BoxCollideTargets(dirY: int, r: Rect, bs: seq<Block>)
    ensures var boxes := BoxesAmong(dirY, Collided(r, RectsOf(bs)), bs);
            (forall j :: 0 <= j < |bs| ==>
               (j in boxes <==> dirY < 0 && bs[j].kind == BoxBlock && Overlaps(r, bs[j].rect))) &&
            (forall a, b :: 0 <= a < b < |boxes| ==> boxes[a] < boxes[b])
  {
    var rects := RectsOf(bs);
    var hits := Collided(r, rects);
    var boxes := BoxesAmong(dirY, hits, bs);
    forall a, b | 0 <= a < b < |hits| ensures hits[a] < hits[b] {
      CollidedAscends(r, rects, a, b);
    }
    BoxesAmongInOrder(dirY, hits, bs);
    CollidedSound(r, rects);
    forall j | 0 <= j < |bs| && j in boxes
      ensures dirY < 0 && bs[j].kind == BoxBlock && Overlaps(r, bs[j].rect)
    {
      var i :| 0 <= i < |hits| && hits[i] == j;
      assert Overlaps(r, rects[hits[i]]);
    }
    forall j | 0 <= j < |bs| && dirY < 0 && bs[j].kind == BoxBlock && Overlaps(r, bs[j].rect)
      ensures j in boxes
    {
      CollidedComplete(r, rects, j);
      var k :| 0 <= k < |hits| && hits[k] == j;
      BoxesAmongComplete(dirY, hits, bs, k);
    }
  }

  /** A box is bumped again however often it was hit: against the group
      after any boxes were hit, the same player bumps the same boxes. */
  lemma BoxesBumpedAgain(dirY: int, r: Rect, bs: seq<Block>, ps: seq<nat>)
    ensures var marked := MarkHit(bs, ps);
            BoxesAmong(dirY, Collided(r, RectsOf(marked)), marked) ==
            BoxesAmong(dirY, Collided(r, RectsOf(bs)), bs)
  {
    MarkHitEffect(bs, ps);
    MarkHitPlaces(bs, ps);
    BoxesAmongIgnoresMarks(dirY, Collided(r, RectsOf(bs)), bs, MarkHit(bs, ps));
  }

  /** The player after the gravity step of `move`. */
  function Dropped(p: Body, bs: seq<Block>): Body
  {
    Fallen(Pushed(p.(rect := p.rect.(x := StepX(p.rect.x, p.speedX2))), p.speedX2, 0, RectsOf(bs)))
  }

  /** Gravity and the vertical step. */
  function Fallen(p: Body): Body
  {
    var sy := Fall(p.speedY2, p.dieAnimation);
    p.(speedY2 := sy, rect := p.rect.(y := StepY(p.rect.y, sy)))
  }

  /** The tail of `move` for a player who is not dying, from the dropped
      player `d`: the box bumps, then the vertical collide pass. */
  function Landed(d: Body, bs: seq<Block>, coinW: int, coinH: int): (Body, seq<Block>, seq<Rect>)
  {
    var rects := RectsOf(bs);
    var boxes := BoxesAmong(d.speedY2, Collided(d.rect, rects), bs);
    var bumped := RectsAt(bs, boxes);
    var lifted := BumpAll(d, bumped);
    (Pushed(lifted, 0, lifted.speedY2, rects), MarkHit(bs, boxes), CoinSpots(bumped, coinW, coinH))
  }

  /** What `move` does: the horizontal step and collide pass, gravity, the
      vertical step and then, unless the player is dying, the box bumps
      and the vertical collide pass (whose direction is speed_y as the
      bumps left it). The result is the player, the blocks and the places
      of the coins spawned. */
  function Moved(p: Body, bs: seq<Block>, coinW: int, coinH: int): (Body, seq<Block>, seq<Rect>)
  {
    var dropped := Dropped(p, bs);
    if dropped.dieAnimation then (dropped, bs, []) else Landed(dropped, bs, coinW, coinH)
  }

  lemma LandedStages(d: Body, bs: seq<Block>, coinW: int, coinH: int, lifted: Body,
                     q: Body, bs': seq<Block>, coins: seq<Rect>)
    requires var boxes := BoxesAmong(d.speedY2, Collided(d.rect, RectsOf(bs)), bs);
             var bumped := RectsAt(bs, boxes);
             lifted == BumpAll(d, bumped) && bs' == MarkHit(bs, boxes) &&
             coins == CoinSpots(bumped, coinW, coinH)
    requires q == Pushed(lifted, 0, lifted.speedY2, RectsOf(bs))
    ensures Landed(d, bs, coinW, coinH) == (q, bs', coins)
  {
  }

  /** A collide pass changes only the rectangle, the speeds, the ground
      flag, the accumulator and the latch; a speed it changes drops to
      zero, and only on an axis of motion. */
  lemma PushedKeeps(p: Body, dirX: int, dirY: int, rects: seq<Rect>)
    ensures var q := Pushed(p, dirX, dirY, rects);
            q == p.(rect := q.rect, speedX2 := q.speedX2, speedY2 := q.speedY2, onGround := q.onGround,
                    jumpForce := q.jumpForce, jumpBan := q.jumpBan) &&
            (q.speedX2 == p.speedX2 || (q.speedX2 == 0 && dirX != 0)) &&
            (q.speedY2 == p.speedY2 || (q.speedY2 == 0 && dirY != 0)) &&
            (dirY == 0 ==> q.rect.y == p.rect.y && q.onGround == p.onGround &&
                           q.jumpForce == p.jumpForce && q.jumpBan == p.jumpBan)
  {
  }

  /** `move` never moves a block, spawns one coin for each 200 points it
      scores, keeps the downward speed within GRAVITY, and leaves the death
      animation, the frame counter, the coins and the left border alone. */
  lemma MovedEffect(p: Body, bs: seq<Block>, coinW: int, coinH: int)
    ensures RectsOf(Moved(p, bs, coinW, coinH).1) == RectsOf(bs)
    ensures Moved(p, bs, coinW, coinH).0.score == p.score + 200 * |Moved(p, bs, coinW, coinH).2|
    ensures p.speedY2 <= 2 * Gravity ==> Moved(p, bs, coinW, coinH).0.speedY2 <= 2 * Gravity
    ensures Moved(p, bs, coinW, coinH).0 ==
            Moved(p, bs, coinW, coinH).0.(dieAnimation := p.dieAnimation, isDie := p.isDie,
                                          animationFrame := p.animationFrame, coins := p.coins,
                                          leftBorder2 := p.leftBorder2)
  {
    var rects := RectsOf(bs);
    var stepped := p.(rect := p.rect.(x := StepX(p.rect.x, p.speedX2)));
    var across := Pushed(stepped, p.speedX2, 0, rects);
    PushedKeeps(stepped, p.speedX2, 0, rects);
    var sy := Fall(across.speedY2, across.dieAnimation);
    var dropped := across.(speedY2 := sy, rect := across.rect.(y := StepY(across.rect.y, sy)));
    if p.dieAnimation {
      assert Moved(p, bs, coinW, coinH) == (dropped, bs, []);
    } else {
      var boxes := BoxesAmong(sy, Collided(dropped.rect, rects), bs);
      var bumped := RectsAt(bs, boxes);
      var lifted := BumpAll(dropped, bumped);
      BumpAllEffect(dropped, bumped);
      var q := Pushed(lifted, 0, lifted.speedY2, rects);
      PushedKeeps(lifted, 0, lifted.speedY2, rects);
      MarkHitPlaces(bs, boxes);
      assert Moved(p, bs, coinW, coinH) == (q, MarkHit(bs, boxes), CoinSpots(bumped, coinW, coinH));
    }
  }

  /** A dying player falls through the blocks: none is bumped, no coin
      appears, the vertical collide pass is skipped, and speed_y grows by
      GRAVITY / 2 while it is not positive. */
  lemma MovedWhileDying(p: Body, bs: seq<Block>, coinW: int, coinH: int)
    requires p.dieAnimation
    ensures Moved(p, bs, coinW, coinH).1 == bs && Moved(p, bs, coinW, coinH).2 == []
    ensures Moved(p, bs, coinW, coinH).0.speedY2 == Fall(p.speedY2, true)
    ensures Moved(p, bs, coinW, coinH).0.rect.y == StepY(p.rect.y, Fall(p.speedY2, true))
  {
    var stepped := p.(rect := p.rect.(x := StepX(p.rect.x, p.speedX2)));
    PushedKeeps(stepped, p.speedX2, 0, RectsOf(bs));
  }

  /** `change_direction` (see `Steer`): left wins over right and faces the
      player left, right faces it right, no key keeps the facing. */
  function Steered(b: Body, left: bool, right: bool): (c: Body)
    ensures c.speedX2 == Steer(b.speedX2, left, right)
    ensures left ==> c.isLeft && !c.isRight
    ensures !left && right ==> !c.isLeft && c.isRight
    ensures !left && !right ==> c.isLeft == b.isLeft && c.isRight == b.isRight
    ensures c == b.(speedX2 := c.speedX2, isLeft := c.isLeft, isRight := c.isRight)
  {
    b.(speedX2 := Steer(b.speedX2, left, right),
       isLeft := if left then true else if right then false else b.isLeft,
       isRight := if left then false else if right then true else b.isRight)
  }

  /** `jump` (see `JumpStep`): a granted jump sets speed_y to -6 - GRAVITY. */
  function Jumped(b: Body, up: bool): (c: Body)
    ensures JumpGranted(Jumper(b.jumpForce, b.jumpBan, b.onGround), up) ==>
              c.speedY2 == -2 * (6 + Gravity) && c.jumpForce == b.jumpForce + 6 && !c.onGround && !c.jumpBan
    ensures !JumpGranted(Jumper(b.jumpForce, b.jumpBan, b.onGround), up) ==>
              c.speedY2 == b.speedY2 && c.jumpForce == b.jumpForce && c.onGround == b.onGround &&
              (c.jumpBan <==> up || !b.onGround)
    ensures ForceOk(b.jumpForce) ==> ForceOk(c.jumpForce)
    ensures c == b.(jumpForce := c.jumpForce, jumpBan := c.jumpBan, onGround := c.onGround, speedY2 := c.speedY2)
  {
    var j := Jumper(b.jumpForce, b.jumpBan, b.onGround);
    var j' := JumpStep(j, up);
    b.(jumpForce := j'.force, jumpBan := j'.ban, onGround := j'.onGround,
       speedY2 := if JumpGranted(j, up) then -2 * (6 + Gravity) else b.speedY2)
  }

  /** `border` on a player of the given screen width: x is raised to the
      left border, then the border is pushed so the right edge is within
      half a screen of it. */
  function Bordered(b: Body, screenWidth: int): Body
  {
    var r := if 2 * b.rect.x < b.leftBorder2 then b.rect.(x := TruncDiv(b.leftBorder2, 2)) else b.rect;
    var border := if 2 * r.Right() > b.leftBorder2 + screenWidth then 2 * r.Right() - screenWidth
                  else b.leftBorder2;
    b.(rect := r, leftBorder2 := border)
  }

  /** The border only ever moves right; afterwards the player is no further
      left than the old border (half a pixel less when the border is a
      half-integer, as the stored x is truncated) and its right edge within
      half a screen of the new one; a player already right of the border is
      not moved; a moved border sits exactly half a screen left of the
      right edge; only x ever changes in the rectangle. */
  lemma BorderedRatchet(b: Body, screenWidth: int)
    ensures var c := Bordered(b, screenWidth);
            c.leftBorder2 >= b.leftBorder2 &&
            2 * c.rect.Right() <= c.leftBorder2 + screenWidth &&
            2 * c.rect.x >= b.leftBorder2 - 1 &&
            (b.leftBorder2 % 2 == 0 ==> 2 * c.rect.x >= b.leftBorder2) &&
            (2 * b.rect.x >= b.leftBorder2 ==> c.rect == b.rect) &&
            (c.leftBorder2 != b.leftBorder2 ==> 2 * c.rect.Right() == c.leftBorder2 + screenWidth) &&
            c.rect == b.rect.(x := c.rect.x) &&
            c == b.(rect := c.rect, leftBorder2 := c.leftBorder2)
  {
  }

  /** `Player.animate`, less the choice of picture: the frame counter
      advances, except that a skid (pressing against the direction of
      motion on the ground) restarts it; during the death sequence `is_die`
      is raised once the counter passes 200. */
  function Animated(b: Body, left: bool, right: bool): (c: Body)
    ensures var skid := !b.dieAnimation && b.onGround && ((right && b.speedX2 < 0) || (left && b.speedX2 > 0));
            c.animationFrame == if skid then 0 else b.animationFrame + 1
    ensures c.isDie <==> b.isDie || (b.dieAnimation && c.animationFrame > 200)
    ensures c == b.(animationFrame := c.animationFrame, isDie := c.isDie)
  {
    var skid := !b.dieAnimation && b.onGround && b.speedX2 != 0 &&
                ((right && b.speedX2 < 0) || (left && b.speedX2 > 0));
    var frame := if skid then 0 else b.animationFrame + 1;
    b.(animationFrame := frame, isDie := b.isDie || (b.dieAnimation && frame > 200))
  }

  /** The player after n animation ticks with no keys held. */
  function AnimatedFor(b: Body, n: nat): Body
  {
    if n == 0 then b else Animated(AnimatedFor(b, n - 1), false, false)
  }

  /** The death timer: from `die` (frame counter 0), `is_die` is raised on
      exactly the 201st animation tick and stays raised. */
  lemma {:induction false} DeathTimer(b: Body, n: nat)
    requires b.dieAnimation && b.animationFrame == 0 && !b.isDie
    ensures AnimatedFor(b, n).dieAnimation
    ensures AnimatedFor(b, n).animationFrame == n
    ensures AnimatedFor(b, n).isDie <==> n > 200
  {
    if n > 0 {
      DeathTimer(b, n - 1);
    }
  }

  /** The fields `enemy_collide` may change, as a `Fighter`. */
  function FightOf(b: Body): Fighter
  {
    Fighter(b.speedX2, b.speedY2, b.animationFrame, b.dieAnimation, b.score, b.coins)
  }

  /** `b` with the fields `enemy_collide` may change taken from `f`. */
  function WithFight(b: Body, f: Fighter): Body
  {
    b.(speedX2 := f.speedX2, speedY2 := f.speedY2, animationFrame := f.frame,
       dieAnimation := f.dying, score := f.score, coins := f.coins)
  }

  /** `enemy_collide` against enemies in the states `ss`. */
  function Fought(b: Body, ss: seq<EnemyState>): Body
  {
    var hits := Collided(b.rect, PlacesOf(ss));
    WithFight(b, Encounter(b.rect.Bottom(), FightOf(b), FoesAt(hits, ss)))
  }

  /** The enemies, in the states `ss`, after `enemy_collide` with the
      player at `r`. */
  function Trampled(r: Rect, ss: seq<EnemyState>): seq<EnemyState>
  {
    StompAll(r.Bottom(), ss, Collided(r, PlacesOf(ss)))
  }

  /** The player after the part of `update` that runs while it is not
      dying. */
  function Acted(b: Body, ss: seq<EnemyState>, left: bool, right: bool, up: bool, screenWidth: int): Body
  {
    Bordered(Jumped(Fought(Steered(b, left, right), ss), up), screenWidth)
  }

  lemma ActedStages(b: Body, ss: seq<EnemyState>, left: bool, right: bool, up: bool, screenWidth: int,
                    steered: Body, fought: Body, jumped: Body, bordered: Body)
    requires steered == Steered(b, left, right)
    requires fought == WithFight(steered, Encounter(steered.rect.Bottom(), FightOf(steered),
                                   FoesAt(Collided(steered.rect, PlacesOf(ss)), ss)))
    requires jumped == Jumped(fought, up) && bordered == Bordered(jumped, screenWidth)
    ensures bordered == Acted(b, ss, left, right, up, screenWidth)
  {
  }

  /** One `Player.update`: the player, the blocks, the places of the coins
      spawned and the enemies afterwards. */
  function Ticked(p: Body, bs: seq<Block>, ss: seq<EnemyState>, left: bool, right: bool, up: bool,
                  coinW: int, coinH: int, screenWidth: int): (Body, seq<Block>, seq<Rect>, seq<EnemyState>)
  {
    var (moved, bs', coins) := Moved(p, bs, coinW, coinH);
    if moved.dieAnimation then (Animated(moved, left, right), bs', coins, ss)
    else (Animated(Acted(moved, ss, left, right, up, screenWidth), left, right), bs', coins, Trampled(moved.rect, ss))
  }

  lemma TickedStages(p: Body, bs: seq<Block>, ss: seq<EnemyState>, left: bool, right: bool, up: bool,
                     coinW: int, coinH: int, screenWidth: int, moved: Body, acted: Body, ss': seq<EnemyState>)
    requires moved == Moved(p, bs, coinW, coinH).0
    requires moved.dieAnimation ==> acted == moved && ss' == ss
    requires !moved.dieAnimation ==> acted == Acted(moved, ss, left, right, up, screenWidth) && ss' == Trampled(moved.rect, ss)
    ensures Ticked(p, bs, ss, left, right, up, coinW, coinH, screenWidth) ==
            (Animated(acted, left, right), Moved(p, bs, coinW, coinH).1, Moved(p, bs, coinW, coinH).2, ss')
  {
  }

  /** No enemy joins or leaves the group when the player meets enemies. */
  lemma {:induction false} StompAllLength(bottom: int, ss: seq<EnemyState>, hits: seq<nat>)
    ensures |StompAll(bottom, ss, hits)| == |ss|
  {
    if |hits| > 0 {
      StompAllLength(bottom, ss, hits[..|hits| - 1]);
    }
  }

  /** Over one `Player.update` no block moves and no enemy joins or leaves
      the group; the score grows by 200 for every coin a box throws up and
      by 200 for every enemy stomped, and the coin count by one for every
      stomp (there are none while the player is dying). */
  lemma TickedRewards(p: Body, bs: seq<Block>, ss: seq<EnemyState>, left: bool, right: bool, up: bool,
                      coinW: int, coinH: int, screenWidth: int)
    ensures var t := Ticked(p, bs, ss, left, right, up, coinW, coinH, screenWidth);
            var moved := Moved(p, bs, coinW, coinH).0;
            var stomps := if moved.dieAnimation then 0
                          else StompCount(moved.rect.Bottom(), FoesAt(Collided(moved.rect, PlacesOf(ss)), ss));
            RectsOf(t.1) == RectsOf(bs) && |t.3| == |ss| &&
            t.0.score == p.score + 200 * |t.2| + 200 * stomps &&
            t.0.coins == p.coins + stomps
  {
    MovedEffect(p, bs, coinW, coinH);
    var moved := Moved(p, bs, coinW, coinH).0;
    if !moved.dieAnimation {
      var steered := Steered(moved, left, right);
      var foes := FoesAt(Collided(moved.rect, PlacesOf(ss)), ss);
      EncounterRewards(moved.rect.Bottom(), FightOf(steered), foes);
      StompAllLength(moved.rect.Bottom(), ss, Collided(moved.rect, PlacesOf(ss)));
    }
  }

  /** The player. `dieAnimation` is the death sequence under way; `isDie`
      is raised when it has run for more than 200 frames, and the game then
      takes a life. */
  class Player {
    const screenWidth: int
    var rect: Rect
    var speedX2: int
    var speedY2: int
    var jumpForce: int
    var onGround: bool
    var jumpBan: bool
    var isLeft: bool
    var isRight: bool
    var animationFrame: int
    var leftBorder2: int
    var isDie: bool
    var dieAnimation: bool
    var score: int
    var coins: int

    function Snapshot(): Body
      reads this
    {
      Body(rect, speedX2, speedY2, jumpForce, onGround, jumpBan, isLeft, isRight,
           animationFrame, leftBorder2, isDie, dieAnimation, score, coins)
    }

    function Fight(): Fighter
      reads this
    {
      FightOf(Snapshot())
    }

    /** The invariant every tick keeps: the jump accumulator is a multiple
        of 6 in [0, 150], |speed_x| <= 40.5, speed_y <= GRAVITY, a dying
        player does not move sideways, and `is_die` is raised exactly when
        the death animation has run past frame 200. */
    predicate Valid()
      reads this
    {
      rect.Valid() && ForceOk(jumpForce) &&
      -MaxRun2 - 1 <= speedX2 <= MaxRun2 + 1 &&
      speedY2 <= 2 * Gravity &&
      (dieAnimation ==> speedX2 == 0) &&
      (isDie <==> dieAnimation && animationFrame > 200)
    }

    constructor (x: int, bottom: int, w: int, h: int, screenWidth: int, score: int, coins: int)
      requires w > 0 && h > 0
      ensures Valid()
      ensures this.screenWidth == screenWidth
      ensures Snapshot() == Body(Rect(x, bottom - h, w, h), 0, 0, 0, true, false, false, false,
                                 0, 0, false, false, score, coins)
    {
      this.screenWidth := screenWidth;
      rect := Rect(x, bottom - h, w, h);
      speedX2, speedY2 := 0, 0;
      jumpForce := 0;
      onGround, jumpBan := true, false;
      isLeft, isRight := false, false;
      animationFrame := 0;
      leftBorder2 := 0;
      isDie, dieAnimation := false, false;
      this.score, this.coins := score, coins;
    }

    /** One iteration of `Player.collide`'s loop: snap against `b` and stop
        on the axes of motion. */
    method StopAgainst(dirX: int, dirY: int, b: Rect)
      requires Valid()
      modifies this`rect, this`speedX2, this`speedY2, this`onGround, this`jumpForce, this`jumpBan
      ensures Valid()
      ensures Snapshot() == Stopped(old(Snapshot()), dirX, dirY, b)
    {
      rect := SnapTo(rect, dirX, dirY, b);
      if dirX != 0 {
        speedX2 := 0;
      }
      if dirY > 0 {
        onGround := true;
        jumpForce := 0;
      }
      if dirY != 0 {
        speedY2 := 0;
      }
      if dirY < 0 {
        jumpBan := true;
      }
    }

    /** `Player.collide`: for every block that overlapped before the loop,
        in group order, put the leading edge against it and stop on that
        axis; a hit from above lands the player (on ground, accumulator
        reset), a hit from below latches the jump. Reports whether anything
        overlapped; when nothing did, nothing changes. */
    method Collide(dirX: int, dirY: int, blocks: seq<Block>) returns (hit: bool)
      requires Valid()
      modifies this
      ensures Valid()
      ensures hit <==> |Collided(old(rect), RectsOf(blocks))| > 0
      ensures Snapshot() == Pushed(old(Snapshot()), dirX, dirY, RectsOf(blocks))
    {
      var rects := RectsOf(blocks);
      var hits := Collided(rect, rects);
      var i := 0;
      while i < |hits|
        invariant 0 <= i <= |hits|
        invariant Snapshot() == if i == 0 then old(Snapshot()) else Stopped(old(Snapshot()), dirX, dirY, rects[hits[i - 1]])
      {
        var b := rects[hits[i]];
        if i > 0 {
          StoppedOverrides(old(Snapshot()), dirX, dirY, rects[hits[i - 1]], b);
        }
        StopAgainst(dirX, dirY, b);
        i := i + 1;
      }
      hit := |hits| > 0;
    }

    /** One box hit of `box_collide`: the player is bumped (see `Bump`)
        and the box at `h` is marked hit. */
    method BumpBox(blocks: array<Block>, h: int)
      requires Valid() && 0 <= h < blocks.Length
      modifies this, blocks
      ensures Valid()
      ensures blocks[..] == old(blocks[..])[h := old(blocks[h]).(isDie := true)]
      ensures Snapshot() == Bump(old(Snapshot()), old(blocks[h].rect))
    {
      rect := rect.(y := blocks[h].rect.Bottom());
      speedY2 := 0;
      jumpBan := true;
      blocks[h] := blocks[h].(isDie := true);
      score := score + 200;
    }

    /** `box_collide`: moving up (`dirY < 0`) into boxes. Every box that
        overlapped before the loop is bumped, in group order, so the player
        ends up against the last one, and a coin appears standing on each
        bumped box. A box that was hit before is neither skipped nor
        removed, so it scores again. The coins' places are returned. */
    method BoxCollide(dirY: int, blocks: array<Block>, coinW: int, coinH: int) returns (spawned: seq<Rect>)
      requires Valid()
      modifies this, blocks
      ensures Valid()
      ensures var boxes := BoxesAmong(dirY, Collided(old(rect), RectsOf(old(blocks[..]))), old(blocks[..]));
              var bumped := RectsAt(old(blocks[..]), boxes);
              blocks[..] == MarkHit(old(blocks[..]), boxes) &&
              Snapshot() == BumpAll(old(Snapshot()), bumped) &&
              spawned == CoinSpots(bumped, coinW, coinH)
    {
      ghost var bs := blocks[..];
      var boxes := BoxesAmong(dirY, Collided(rect, RectsOf(blocks[..])), blocks[..]);
      ghost var bumped := RectsAt(blocks[..], boxes);
      spawned := [];
      var i := 0;
      while i < |boxes|
        invariant 0 <= i <= |boxes|
        invariant Valid()
        invariant blocks[..] == MarkHit(bs, boxes[..i])
        invariant Snapshot() == BumpAll(old(Snapshot()), bumped[..i])
        invariant spawned == CoinSpots(bumped[..i], coinW, coinH)
      {
        var h := boxes[i];
        BoxStep(old(Snapshot()), bs, boxes, i, coinW, coinH);
        spawned := spawned + [CoinRect(blocks[h].rect.x, blocks[h].rect.Top(), coinW, coinH)];
        BumpBox(blocks, h);
        i := i + 1;
      }
      assert boxes[..i] == boxes;
      assert bumped[..i] == bumped;
    }

    /** `die`: start the death sequence. Every caller checks first that it
        has not started yet. */
    method Die()
      requires !dieAnimation
      modifies this`dieAnimation, this`speedY2, this`animationFrame, this`speedX2
      ensures Fight() == Died(old(Fight()))
    {
      dieAnimation := true;
      speedY2 := -8 * Gravity;
      animationFrame := 0;
      speedX2 := 0;
    }

    /** One iteration of `enemy_collide`, for the enemy at `p`, which
        overlaps the player, whose bottom is `bottom`: a live enemy whose top
        the bottom reaches less than 10 px past is stomped (it starts dying,
        the player bounces up and scores 200 points and a coin); any other
        contact with a live enemy starts the player's death, unless it has
        already started. */
    method MeetEnemy(enemies: seq<Enemy>, p: nat, bottom: int)
      requires p < |enemies|
      requires forall a, b :: 0 <= a < b < |enemies| ==> Apart(enemies, a, b)
      modifies this`speedX2, this`speedY2, this`animationFrame, this`dieAnimation, this`score, this`coins
      modifies enemies[p]
      ensures Fight() == Meet(bottom, old(Fight()), Foe(old(States(enemies))[p].rect.y, old(States(enemies))[p].isDie))
      ensures States(enemies) == old(States(enemies))[p := Stomped(bottom, old(States(enemies))[p])]
    {
      StatesIndex(enemies);
      var e := enemies[p];
      if bottom - StompTolerance < e.rect.y && !e.isDie {
        e.isDie := true;
        e.animationFrame := 0;
        speedY2 := -6 * Gravity;
        score := score + 200;
        coins := coins + 1;
      } else if !dieAnimation && !e.isDie {
        Die();
      }
      forall j | 0 <= j < |enemies| && j != p
        ensures enemies[j] != e
      {
        if j < p {
          assert Apart(enemies, j, p);
        } else {
          assert Apart(enemies, p, j);
        }
      }
      StatesIndex(enemies);
    }

    /** The `enemy_collide` loop one iteration further: the enemy at `p`,
        not met before, is met, which extends both folds by one. */
    method MeetNext(enemies: seq<Enemy>, bottom: int, p: nat, ghost ss: seq<EnemyState>,
                    ghost done: seq<nat>, ghost met: seq<Foe>, ghost f0: Fighter)
      requires forall a, b :: 0 <= a < b < |enemies| ==> Apart(enemies, a, b)
      requires p < |enemies| && p < |ss|
      requires Fight() == Encounter(bottom, f0, met)
      requires States(enemies) == StompAll(bottom, ss, done) && States(enemies)[p] == ss[p]
      modifies this`speedX2, this`speedY2, this`animationFrame, this`dieAnimation, this`score, this`coins
      modifies enemies[p]
      ensures Fight() == Encounter(bottom, f0, met + [Foe(ss[p].rect.y, ss[p].isDie)])
      ensures States(enemies) == StompAll(bottom, ss, done + [p])
    {
      ghost var f := Fight();
      ghost var now := States(enemies);
      MeetEnemy(enemies, p, bottom);
      MeetStep(bottom, f0, met, ss, done, p, f, now);
    }

    /** The loop of `enemy_collide`: the enemies at `hits`, none listed
        twice, are met in order; `foes` is what the player sees of them
        before the loop. */
    method MeetAll(enemies: seq<Enemy>, bottom: int, hits: seq<nat>, ghost ss: seq<EnemyState>,
                   ghost foes: seq<Foe>)
      requires forall a, b :: 0 <= a < b < |enemies| ==> Apart(enemies, a, b)
      requires |ss| == |enemies| && States(enemies) == ss && |foes| == |hits|
      requires forall k :: 0 <= k < |hits| ==> hits[k] < |ss| && hits[k] !in hits[..k]
      requires forall k :: 0 <= k < |hits| ==> foes[k] == Foe(ss[hits[k]].rect.y, ss[hits[k]].isDie)
      modifies this`speedX2, this`speedY2, this`animationFrame, this`dieAnimation, this`score, this`coins
      modifies enemies
      ensures Fight() == Encounter(bottom, old(Fight()), foes)
      ensures Snapshot() == WithFight(old(Snapshot()), Fight())
      ensures States(enemies) == StompAll(bottom, ss, hits)
    {
      var i := 0;
      while i < |hits|
        invariant 0 <= i <= |hits|
        invariant Fight() == Encounter(bottom, old(Fight()), foes[..i])
        invariant States(enemies) == StompAll(bottom, ss, hits[..i])
      {
        var p := hits[i];
        StompAllMisses(bottom, ss, hits[..i], p);
        MeetNext(enemies, bottom, p, ss, hits[..i], foes[..i], old(Fight()));
        Grow(hits, i);
        Grow(foes, i);
        i := i + 1;
      }
      assert foes[..|hits|] == foes;
      assert hits[..|hits|] == hits;
    }

    /** `enemy_collide`: every enemy that overlapped the player before the
        loop is met, in group order (see `MeetEnemy`). The player goes
        through `Encounter` with the enemies as they were before the loop
        (each is met once), and the enemies go through `StompAll`. Only the
        player's speeds, frame counter, death animation, score and coins
        change. */
    method EnemyCollide(enemies: seq<Enemy>)
      requires Valid()
      requires forall j :: 0 <= j < |enemies| ==> enemies[j].Valid()
      requires forall a, b :: 0 <= a < b < |enemies| ==> Apart(enemies, a, b)
      modifies this`speedX2, this`speedY2, this`animationFrame, this`dieAnimation, this`score, this`coins
      modifies enemies
      ensures Valid()
      ensures forall j :: 0 <= j < |enemies| ==> enemies[j].Valid()
      ensures Snapshot() == WithFight(old(Snapshot()), Fight())
      ensures Fight() == Encounter(rect.Bottom(), old(Fight()),
                                   FoesAt(Collided(rect, PlacesOf(old(States(enemies)))), old(States(enemies))))
      ensures States(enemies) == Trampled(rect, old(States(enemies)))
    {
      ghost var ss := States(enemies);
      var hits := Collided(rect, PlacesOf(States(enemies)));
      ghost var foes := FoesAt(hits, ss);
      forall k | 0 <= k < |hits| ensures hits[k] < |ss| && hits[k] !in hits[..k] {
        CollidedOnce(rect, PlacesOf(ss), k);
      }
      StatesValid(enemies);
      MeetAll(enemies, rect.Bottom(), hits, ss, foes);
      EncounterSteady(rect.Bottom(), old(Fight()), foes, isDie);
      StompAllValid(rect.Bottom(), ss, hits);
      ValidStates(enemies);
    }

    /** `move`: step sideways by the biased speed and collide on that
        axis; apply gravity and step vertically; then, unless dying, bump
        boxes overhead and collide vertically. Returns the places of the
        coins the bumped boxes throw up. */
    method Move(blocks: array<Block>, coinW: int, coinH: int) returns (spawned: seq<Rect>)
      requires Valid()
      modifies this, blocks
      ensures Valid()
      ensures (Snapshot(), blocks[..], spawned) == Moved(old(Snapshot()), old(blocks[..]), coinW, coinH)
    {
      Drop(blocks[..]);
      spawned := [];
      if !dieAnimation {
        spawned := Land(blocks, coinW, coinH);
      }
    }

    /** The first half of `move`: the horizontal step and collide pass,
        gravity and the vertical step. */
    method Drop(blocks: seq<Block>)
      requires Valid()
      modifies this
      ensures Valid()
      ensures Snapshot() == Dropped(old(Snapshot()), blocks)
    {
      rect := rect.(x := StepX(rect.x, speedX2));
      var hitX := Collide(speedX2, 0, blocks);
      ghost var across := Snapshot();
      speedY2 := Fall(speedY2, dieAnimation);
      rect := rect.(y := StepY(rect.y, speedY2));
      assert Snapshot() == Fallen(across);
    }

    /** The second half of `move`, for a player who is not dying:
        `box_collide`, then the vertical collide pass in the direction of
        speed_y as the bumps left it. */
    method Land(blocks: array<Block>, coinW: int, coinH: int) returns (spawned: seq<Rect>)
      requires Valid()
      modifies this, blocks
      ensures Valid()
      ensures (Snapshot(), blocks[..], spawned) == Landed(old(Snapshot()), old(blocks[..]), coinW, coinH)
    {
      ghost var d := Snapshot();
      ghost var bs := blocks[..];
      ghost var boxes := BoxesAmong(speedY2, Collided(rect, RectsOf(bs)), bs);
      spawned := BoxCollide(speedY2, blocks, coinW, coinH);
      MarkHitPlaces(bs, boxes);
      ghost var lifted := Snapshot();
      var hitY := Collide(0, speedY2, blocks[..]);
      LandedStages(d, bs, coinW, coinH, lifted, Snapshot(), blocks[..], spawned);
    }

    /** The part of `Player.update` that runs only while the player is
        not dying: `change_direction`, `enemy_collide`, `jump` and
        `border`, in this order (the later ones run even when
        `enemy_collide` starts the death sequence). */
    method Act(left: bool, right: bool, up: bool, enemies: seq<Enemy>)
      requires Valid() && !dieAnimation
      requires forall j :: 0 <= j < |enemies| ==> enemies[j].Valid()
      requires forall a, b :: 0 <= a < b < |enemies| ==> Apart(enemies, a, b)
      modifies this`speedX2, this`isLeft, this`isRight, this`speedY2, this`animationFrame, this`dieAnimation
      modifies this`score, this`coins, this`jumpForce, this`jumpBan, this`onGround, this`rect, this`leftBorder2
      modifies enemies
      ensures Valid()
      ensures forall j :: 0 <= j < |enemies| ==> enemies[j].Valid()
      ensures Snapshot() == Acted(old(Snapshot()), old(States(enemies)), left, right, up, screenWidth)
      ensures States(enemies) == Trampled(old(rect), old(States(enemies)))
    {
      ghost var b := Snapshot();
      ghost var ss := States(enemies);
      label Start:
      ChangeDirection(left, right);
      StatesKept@Start(enemies);
      ghost var steered := Snapshot();
      EnemyCollide(enemies);
      ghost var fought := Snapshot();
      label Met:
      Jump(up);
      ghost var jumped := Snapshot();
      Border();
      StatesKept@Met(enemies);
      ActedStages(b, ss, left, right, up, screenWidth, steered, fought, jumped, Snapshot());
    }

    /** `Player.update` for one tick with the given keys: `move`; then,
        unless the death sequence was under way at the start of the tick,
        `Act`; then `animate`. Returns the places of the coins `move`
        spawned. */
    method Update(left: bool, right: bool, up: bool, blocks: array<Block>, enemies: seq<Enemy>,
                  coinW: int, coinH: int) returns (spawned: seq<Rect>)
      requires Valid()
      requires forall j :: 0 <= j < |enemies| ==> enemies[j].Valid()
      requires forall a, b :: 0 <= a < b < |enemies| ==> Apart(enemies, a, b)
      modifies this, blocks, enemies
      ensures Valid()
      ensures forall j :: 0 <= j < |enemies| ==> enemies[j].Valid()
      ensures (Snapshot(), blocks[..], spawned, States(enemies)) ==
              Ticked(old(Snapshot()), old(blocks[..]), old(States(enemies)), left, right, up,
                     coinW, coinH, screenWidth)
    {
      ghost var p := Snapshot();
      ghost var bs := blocks[..];
      ghost var ss := States(enemies);
      label Start:
      spawned := Move(blocks, coinW, coinH);
      StatesKept@Start(enemies);
      ghost var moved := Snapshot();
      if !dieAnimation {
        Act(left, right, up, enemies);
      }
      ghost var acted := Snapshot();
      label Acted:
      Animate(left, right);
      StatesKept@Acted(enemies);
      TickedStages(p, bs, ss, left, right, up, coinW, coinH, screenWidth, moved, acted, States(enemies));
    }

    /** `change_direction`: left wins over right and turns the player to the
        left; the speed follows `Steer`. */
    method ChangeDirection(left: bool, right: bool)
      requires Valid() && !dieAnimation
      modifies this`speedX2, this`isLeft, this`isRight
      ensures Valid()
      ensures Snapshot() == Steered(old(Snapshot()), left, right)
    {
      if left {
        if speedX2 > -MaxRun2 {
          speedX2 := speedX2 - 2;
        }
        isLeft := true;
        isRight := false;
      } else if right {
        if speedX2 < MaxRun2 {
          speedX2 := speedX2 + 2;
        }
        isLeft := false;
        isRight := true;
      } else if Abs(speedX2) <= 6 {
        speedX2 := 0;
      } else {
        // copysign(1.5 * -1, -1 * speed_x): 1.5 against the speed's sign
        speedX2 := speedX2 + if speedX2 > 0 then -3 else 3;
      }
    }

    /** `jump`: the accumulator and its latch follow `JumpStep`; a granted
        jump sets speed_y to -6 - GRAVITY. */
    method Jump(up: bool)
      requires Valid()
      modifies this`jumpForce, this`jumpBan, this`onGround, this`speedY2
      ensures Valid()
      ensures Snapshot() == Jumped(old(Snapshot()), up)
    {
      if up && jumpForce < JumpCap && !jumpBan {
        jumpForce := jumpForce + 6;
        speedY2 := -2 * (6 + Gravity);
        onGround := false;
      } else {
        jumpBan := true;
      }
      if !up && onGround {
        jumpBan := false;
      }
    }

    /** `border`: the player cannot go left of `left_border_x`, which only
        ever grows so that the right edge stays within half a screen of it. */
    method Border()
      requires Valid()
      modifies this`rect, this`leftBorder2
      ensures Valid()
      ensures Snapshot() == Bordered(old(Snapshot()), screenWidth)
    {
      if 2 * rect.x < leftBorder2 {
        rect := rect.(x := TruncDiv(leftBorder2, 2));
      }
      if 2 * rect.Right() > leftBorder2 + screenWidth {
        leftBorder2 := 2 * rect.Right() - screenWidth;
      }
    }

    /** `Player.animate`, less the choice of picture: the frame counter
        advances, except that a skid (pressing against the direction of
        motion on the ground) restarts it; during the death sequence `is_die`
        is raised once the counter passes 200. */
    method Animate(left: bool, right: bool)
      requires Valid()
      modifies this`animationFrame, this`isDie
      ensures Valid()
      ensures Snapshot() == Animated(old(Snapshot()), left, right)
    {
      animationFrame := animationFrame + 1;
      if dieAnimation {
        if animationFrame > 200 {
          isDie := true;
        }
      } else if speedX2 == 0 && onGround {
      } else if !onGround {
      } else if right && speedX2 < 0 {
        animationFrame := 0;
      } else if left && speedX2 > 0 {
        animationFrame := 0;
      }
    }
  }
}
