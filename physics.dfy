/** The per-tick rules of the sprites, stated on values: the horizontal
    speed rule of `Player.change_direction`, the jump latch of `Player.jump`,
    the stomp-or-die rule of `Player.enemy_collide` and the flight of a
    `Coin`. The classes in module Sprites are proved against these.

    Speeds are stored doubled (`speedX2 == 2 * speed_x`), because the source
    adds 1.5 and GRAVITY / 2 to them. */
module Physics {
  import opened Geometry

  /** GRAVITY: the downward speed added per tick, and the enemies' fall speed. */
  const Gravity: int := 5

  /** Twice the largest speed_x that holding a key still increases from. */
  const MaxRun2: int := 80

  /** The jump accumulator stops growing at 5 * 30. */
  const JumpCap: int := 150

  /** How far (in pixels) the player's bottom may reach past an enemy's top
      for the contact to still count as a stomp. */
  const StompTolerance: int := 10

  function Min(a: int, b: int): int { if a <= b then a else b }

  // ---------------------------------------------------------------------
  // change_direction: the horizontal speed rule

  /** The doubled speed_x after one `change_direction` with the given keys:
      left wins over right; with no key the speed coasts toward zero by 1.5
      and snaps to zero once |speed_x| <= 3. */
  function Steer(s: int, left: bool, right: bool): (r: int)
    ensures left ==> (s > -MaxRun2 ==> r == s - 2) && (s <= -MaxRun2 ==> r == s)
    ensures !left && right ==> (s < MaxRun2 ==> r == s + 2) && (s >= MaxRun2 ==> r == s)
    ensures -MaxRun2 - 1 <= s <= MaxRun2 + 1 ==> -MaxRun2 - 1 <= r <= MaxRun2 + 1
    ensures !left && !right ==> Abs(r) <= Abs(s) && (s >= 0 ==> r >= 0) && (s <= 0 ==> r <= 0)
    ensures !left && !right && Abs(s) <= 6 ==> r == 0
    ensures !left && !right && Abs(s) > 6 ==> Abs(r) == Abs(s) - 3
  {
    if left then (if s > -MaxRun2 then s - 2 else s)
    else if right then (if s < MaxRun2 then s + 2 else s)
    else if Abs(s) <= 6 then 0
    else if s > 0 then s - 3
    else s + 3
  }

  /** The doubled speed after n ticks with the same keys held. */
  function Repeat(s: int, n: nat, left: bool, right: bool): int
  {
    if n == 0 then s else Steer(Repeat(s, n - 1, left, right), left, right)
  }

  /** Holding left from a standstill: speed_x drops by one per tick and stays
      at -40 from the 40th tick on. */
  lemma {:induction false} RunningLeftFromRest(n: nat)
    ensures Repeat(0, n, true, false) == -2 * Min(n, 40)
  {
    if n > 0 {
      RunningLeftFromRest(n - 1);
    }
  }

  /** Holding right from a standstill: speed_x grows by one per tick and
      stays at 40 from the 40th tick on. */
  lemma {:induction false} RunningRightFromRest(n: nat)
    ensures Repeat(0, n, false, true) == 2 * Min(n, 40)
  {
    if n > 0 {
      RunningRightFromRest(n - 1);
    }
  }

  /** With no key held the speed loses at least 1.5 per tick and never
      changes sign. */
  lemma {:induction false} CoastingDecays(s: int, n: nat)
    ensures Abs(Repeat(s, n, false, false)) <= Max(0, Abs(s) - 3 * n)
    ensures s >= 0 ==> Repeat(s, n, false, false) >= 0
    ensures s <= 0 ==> Repeat(s, n, false, false) <= 0
  {
    if n > 0 {
      CoastingDecays(s, n - 1);
    }
  }

  /** With no key held the player stops dead after finitely many ticks:
      from |speed_x| <= 1.5 * n + 1.5 it is exactly zero after n ticks. */
  lemma CoastingStops(s: int, n: nat)
    requires n >= 1 && Abs(s) <= 3 * n + 3
    ensures Repeat(s, n, false, false) == 0
  {
    CoastingDecays(s, n - 1);
  }

  // ---------------------------------------------------------------------
  // move: the steps along each axis

  /** `rect.x += (speed_x - 9) / 10` when speed_x < 0, else
      `rect.x += (speed_x + 9) / 10`, with `sx2 == 2 * speed_x` and the sum
      truncated toward zero when stored. To the right of x = 0 a player at
      rest stays put, so does one at speed_x = 0.5, any rightward speed of
      at least 1 moves a pixel or more, and any leftward speed at all moves
      at least a pixel. */
  function StepX(x: int, sx2: int): (r: int)
    ensures sx2 >= 0 && x >= 0 ==> x <= r && 20 * (r - x) <= sx2 + 18
    ensures sx2 == 0 && x >= 0 ==> r == x
    ensures sx2 >= 2 && x >= 0 ==> r >= x + 1
    ensures sx2 == 1 && x >= 0 ==> r == x
    ensures sx2 < 0 && 20 * x + sx2 - 18 >= 0 ==> r < x && 20 * (x - r) < 38 - sx2
  {
    if sx2 < 0 then TruncDiv(20 * x + sx2 - 18, 20) else TruncDiv(20 * x + sx2 + 18, 20)
  }

  /** The doubled speed_y after the gravity step of `move`: GRAVITY (half of
      it while dying) is added only while speed_y <= 0, so a downward speed
      is never increased and never exceeds GRAVITY. */
  function Fall(sy2: int, dying: bool): (r: int)
    ensures r >= sy2
    ensures r > sy2 <==> sy2 <= 0
    ensures sy2 <= 2 * Gravity ==> r <= 2 * Gravity
    ensures dying && sy2 <= 0 ==> r == sy2 + Gravity
    ensures !dying && sy2 <= 0 ==> r == sy2 + 2 * Gravity
  {
    if sy2 <= 0 then sy2 + (if dying then Gravity else 2 * Gravity) else sy2
  }

  /** `rect.top += speed_y`, truncated toward zero when stored. */
  function StepY(y: int, sy2: int): (r: int)
    ensures sy2 % 2 == 0 ==> r == y + sy2 / 2
  {
    TruncDiv(2 * y + sy2, 2)
  }

  /** The doubled speed_y after n gravity steps with nothing in the way. */
  function FallFor(sy2: int, n: nat, dying: bool): int
  {
    if n == 0 then sy2 else Fall(FallFor(sy2, n - 1, dying), dying)
  }

  /** The death leap: thrown up at 4 * GRAVITY by `die`, the player slows
      by GRAVITY / 2 a tick, and from the ninth tick on falls at a steady
      GRAVITY / 2. */
  lemma {:induction false} DeathLeap(n: nat)
    ensures FallFor(-8 * Gravity, n, true) == Min(-8 * Gravity + Gravity * n, Gravity)
  {
    if n > 0 {
      DeathLeap(n - 1);
    }
  }

  // ---------------------------------------------------------------------
  // jump: the accumulator and its latch

  /** The part of the player that `jump` reads and writes. */
  datatype Jumper = Jumper(force: int, ban: bool, onGround: bool)

  /** The accumulator is a multiple of 6 in [0, 150]. */
  predicate ForceOk(force: int) {
    0 <= force <= JumpCap && force % 6 == 0
  }

  /** `jump` pushes the player up this tick. */
  predicate JumpGranted(j: Jumper, up: bool) {
    up && j.force < JumpCap && !j.ban
  }

  /** The jumper after one `jump` with the up key as given. */
  function JumpStep(j: Jumper, up: bool): (j': Jumper)
    ensures ForceOk(j.force) ==> ForceOk(j'.force)
    ensures JumpGranted(j, up) ==> j'.force == j.force + 6 && !j'.onGround && !j'.ban
    ensures !JumpGranted(j, up) ==> j'.force == j.force && j'.onGround == j.onGround
    ensures !JumpGranted(j, up) ==> (j'.ban <==> up || !j.onGround)
    ensures j.ban && !j'.ban ==> !up && j.onGround
  {
    var pushed := if JumpGranted(j, up) then Jumper(j.force + 6, j.ban, false) else j.(ban := true);
    if !up && pushed.onGround then pushed.(ban := false) else pushed
  }

  /** The jumper after n ticks of holding the up key with no landing. */
  function HoldJump(j: Jumper, n: nat): Jumper
  {
    if n == 0 then j else JumpStep(HoldJump(j, n - 1), true)
  }

  /** Holding up in the air pushes the player at most until the accumulator
      reaches 150; a latched jump stays latched while the key is held. */
  lemma {:induction false} HeldJumpIsCapped(j: Jumper, n: nat)
    requires ForceOk(j.force)
    ensures HoldJump(j, n).force == if j.ban then j.force else Min(j.force + 6 * n, JumpCap)
    ensures j.ban ==> HoldJump(j, n).ban
    ensures n >= 1 && j.force + 6 * (n - 1) >= JumpCap ==> HoldJump(j, n).ban
    ensures HoldJump(j, n).ban ==> j.ban || HoldJump(j, n).force == JumpCap
    ensures ForceOk(HoldJump(j, n).force)
  {
    if n > 0 {
      HeldJumpIsCapped(j, n - 1);
    }
  }

  /** Releasing the key on the ground re-arms the jump: the next press with
      a landed (reset) accumulator pushes again. */
  lemma ReleaseOnGroundRearms(j: Jumper)
    requires j.onGround && j.force < JumpCap
    ensures !JumpStep(j, false).ban
    ensures JumpGranted(JumpStep(j, false), true)
  {
  }

  // ---------------------------------------------------------------------
  // enemy_collide: stomp or die

  /** What `enemy_collide` reads of one overlapping enemy. */
  datatype Foe = Foe(top: int, dying: bool)

  /** What `enemy_collide` (and `die`) may change in the player. */
  datatype Fighter = Fighter(speedX2: int, speedY2: int, frame: int, dying: bool, score: int, coins: int)

  /** The player's bottom reaches less than 10 px past the top of a live enemy. */
  predicate Stomps(bottom: int, f: Foe) {
    bottom - StompTolerance < f.top && !f.dying
  }

  /** Any other contact with a live enemy is deadly. */
  predicate Lethal(bottom: int, f: Foe) {
    !(bottom - StompTolerance < f.top) && !f.dying
  }

  /** `die`: start the death animation and throw the player up. */
  function Died(p: Fighter): (q: Fighter)
    ensures q.dying && q.frame == 0 && q.speedX2 == 0 && q.speedY2 == -8 * Gravity
    ensures q.score == p.score && q.coins == p.coins
  {
    p.(dying := true, speedY2 := -8 * Gravity, frame := 0, speedX2 := 0)
  }

  /** One iteration of the `enemy_collide` loop: a stomp bounces the player
      up and scores 200 points and a coin; a lethal contact starts the death
      sequence unless it has started already; a dying enemy changes nothing. */
  function Meet(bottom: int, p: Fighter, f: Foe): (q: Fighter)
    ensures q.score == p.score + (if Stomps(bottom, f) then 200 else 0)
    ensures q.coins == p.coins + (if Stomps(bottom, f) then 1 else 0)
    ensures q.dying <==> p.dying || Lethal(bottom, f)
    ensures Stomps(bottom, f) ==> q == p.(speedY2 := -6 * Gravity, score := q.score, coins := q.coins)
    ensures Lethal(bottom, f) && !p.dying ==> q == Died(p)
    ensures p.dying && !Stomps(bottom, f) ==> q == p
    ensures f.dying ==> q == p
  {
    if Stomps(bottom, f) then
      p.(speedY2 := -6 * Gravity, score := p.score + 200, coins := p.coins + 1)
    else if !p.dying && !f.dying then
      Died(p)
    else
      p
  }

  /** The player after meeting the overlapping enemies in group order. */
  function Encounter(bottom: int, p: Fighter, foes: seq<Foe>): Fighter
  {
    if |foes| == 0 then p
    else Meet(bottom, Encounter(bottom, p, foes[..|foes| - 1]), foes[|foes| - 1])
  }

  /** The part of the player's invariant that an encounter touches: speed_x
      within the run cap (plus the slack skidding leaves), no sideways motion
      while dying, speed_y at most 2 * GRAVITY, and `is_die` raised exactly
      when the death animation has run past frame 200. */
  predicate Steady(p: Fighter, isDie: bool)
  {
    -MaxRun2 - 1 <= p.speedX2 <= MaxRun2 + 1 && p.speedY2 <= 2 * Gravity &&
    (p.dying ==> p.speedX2 == 0) && (isDie <==> p.dying && p.frame > 200)
  }

  /** Meeting enemies keeps that invariant. */
  lemma {:induction false} EncounterSteady(bottom: int, p: Fighter, foes: seq<Foe>, isDie: bool)
    requires Steady(p, isDie)
    ensures Steady(Encounter(bottom, p, foes), isDie)
  {
    if |foes| > 0 {
      EncounterSteady(bottom, p, foes[..|foes| - 1], isDie);
    }
  }

  /** The number of the given enemies that the player stomps. */
  function StompCount(bottom: int, foes: seq<Foe>): nat
  {
    if |foes| == 0 then 0
    else StompCount(bottom, foes[..|foes| - 1]) + (if Stomps(bottom, foes[|foes| - 1]) then 1 else 0)
  }

  /** Every stomp is worth 200 points and one coin; nothing else scores. */
  lemma {:induction false} EncounterRewards(bottom: int, p: Fighter, foes: seq<Foe>)
    ensures Encounter(bottom, p, foes).score == p.score + 200 * StompCount(bottom, foes)
    ensures Encounter(bottom, p, foes).coins == p.coins + StompCount(bottom, foes)
  {
    if |foes| > 0 {
      EncounterRewards(bottom, p, foes[..|foes| - 1]);
    }
  }

  /** The player ends up dying exactly when it already was or touched some
      live enemy without stomping it. */
  lemma {:induction false} EncounterDeath(bottom: int, p: Fighter, foes: seq<Foe>)
    ensures Encounter(bottom, p, foes).dying <==>
            p.dying || exists k :: 0 <= k < |foes| && Lethal(bottom, foes[k])
  {
    if |foes| > 0 {
      var front := foes[..|foes| - 1];
      EncounterDeath(bottom, p, front);
      if exists k :: 0 <= k < |front| && Lethal(bottom, front[k]) {
        var k :| 0 <= k < |front| && Lethal(bottom, front[k]);
        assert foes[k] == front[k];
      }
      if exists k :: 0 <= k < |foes| && Lethal(bottom, foes[k]) {
        var k :| 0 <= k < |foes| && Lethal(bottom, foes[k]);
        if k < |front| {
          assert front[k] == foes[k];
        }
      }
    }
  }

  /** `die` runs at most once: once the player is dying, further contacts
      neither reset the death animation nor touch speed_x. */
  lemma {:induction false} DyingIsNotRestarted(bottom: int, p: Fighter, foes: seq<Foe>)
    requires p.dying
    ensures Encounter(bottom, p, foes).frame == p.frame
    ensures Encounter(bottom, p, foes).speedX2 == p.speedX2
    ensures Encounter(bottom, p, foes).dying
  {
    if |foes| > 0 {
      DyingIsNotRestarted(bottom, p, foes[..|foes| - 1]);
    }
  }

  /** Touching only dying enemies changes nothing. */
  lemma {:induction false} DyingFoesAreHarmless(bottom: int, p: Fighter, foes: seq<Foe>)
    requires forall k :: 0 <= k < |foes| ==> foes[k].dying
    ensures Encounter(bottom, p, foes) == p
  {
    if |foes| > 0 {
      DyingFoesAreHarmless(bottom, p, foes[..|foes| - 1]);
    }
  }

  /** The tolerance on a player whose bottom is at y = 100: an enemy top at
      92 (8 px of overlap) is stomped, an enemy top at 85 (15 px) kills. */
  lemma StompExamples(p: Fighter)
    requires !p.dying
    ensures Encounter(100, p, [Foe(92, false)]) == p.(speedY2 := -30, score := p.score + 200, coins := p.coins + 1)
    ensures Encounter(100, p, [Foe(85, false)]) == Died(p)
  {
    assert [Foe(92, false)][..0] == [];
    assert [Foe(85, false)][..0] == [];
  }

  // ---------------------------------------------------------------------
  // Coin: the float-up / fall-down pickup

  /** A coin lives this many ticks. */
  const CoinLife: int := 40

  /** How far (downward positive) a coin has moved after t ticks: 3 px up
      per tick while the timer is below 20, then 3 px down per tick. */
  function CoinLift(t: nat): int
  {
    if t == 0 then 0 else CoinLift(t - 1) + (if t < 20 then -3 else 3)
  }

  /** The flight in closed form: the coin peaks 57 px up at tick 19 and is
      removed at tick 40, 6 px below where it appeared. */
  lemma {:induction false} CoinFlight(t: nat)
    ensures CoinLift(t) == if t < 20 then -3 * t else 3 * t - 114
    ensures CoinLift(t) >= -57
  {
    if t > 0 {
      CoinFlight(t - 1);
    }
  }
}
