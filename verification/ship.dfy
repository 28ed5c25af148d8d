/** The player's Spaceship: edge-gated movement, cooldown-gated firing, and
    the one-shot explosion when its health runs out.  Pressed keys and the
    current tick are inputs of each update. */
module Ship {
  import opened Constants
  import opened Rects
  import opened Options
  import opened Bullets
  import opened Explosions

  /** The keys `update` reads with `pygame.key.get_pressed()`. */
  datatype Keys = Keys(left: bool, right: bool, space: bool)

  /** `inGroup` is membership of the game's spaceship group: `kill()` clears
      it, but the game keeps updating the ship object. */
  datatype Spaceship = Spaceship(rect: Rect, healthStart: int, health: int, lastShot: int,
                                 explosionCreated: bool, inGroup: bool)

  /** `Spaceship(x, y, health, ...)` created at tick `now`. */
  function NewSpaceship(cx: int, cy: int, health: int, d: Dims, now: int): (s: Spaceship)
    ensures s.rect.CenterX() == cx && s.rect.CenterY() == cy
    ensures s.healthStart == PLAYER_START_HEALTH && s.health == health
    ensures s.lastShot == now && !s.explosionCreated && s.inGroup
  {
    Spaceship(CenteredAt(cx, cy, d), PLAYER_START_HEALTH, health, now, false, true)
  }

  /** The horizontal band the ship can occupy: it only moves left while its
      left edge is past 0 and right while its right edge is short of the
      screen width, so it overshoots by less than one step. */
  predicate OnScreen(s: Spaceship)
  {
    -PLAYER_SPEED < s.rect.Left() && s.rect.Right() < SCREEN_WIDTH + PLAYER_SPEED
  }

  /** `Spaceship._move` */
  function Steer(s: Spaceship, keys: Keys): (r: Spaceship)
    ensures r == s.(rect := r.rect)
    ensures r.rect == s.rect.(x := r.rect.x)
    ensures r.rect.x == s.rect.x - PLAYER_SPEED || r.rect.x == s.rect.x || r.rect.x == s.rect.x + PLAYER_SPEED
    ensures r.rect.x < s.rect.x ==> keys.left && s.rect.Left() > 0
    ensures r.rect.x > s.rect.x ==> keys.right && s.rect.Right() < SCREEN_WIDTH
    ensures keys.left && !keys.right && s.rect.Left() > 0 ==> r.rect.x == s.rect.x - PLAYER_SPEED
    ensures keys.right && !keys.left && s.rect.Right() < SCREEN_WIDTH ==> r.rect.x == s.rect.x + PLAYER_SPEED
    ensures !keys.left && !keys.right ==> r == s
    ensures keys.left && keys.right && OnScreen(s) ==>
              r.rect.x == s.rect.x + (if s.rect.Left() <= 0 && s.rect.Right() < SCREEN_WIDTH then PLAYER_SPEED else 0)
    ensures OnScreen(s) ==> OnScreen(r)
  {
    var s1 := if keys.left && s.rect.Left() > 0 then s.(rect := s.rect.ShiftX(-PLAYER_SPEED)) else s;
    if keys.right && s1.rect.Right() < SCREEN_WIDTH then s1.(rect := s1.rect.ShiftX(PLAYER_SPEED)) else s1
  }

  /** Whether `_shoot` fires at tick `now`. */
  predicate CanFire(s: Spaceship, keys: Keys, now: int)
  {
    keys.space && now - s.lastShot > PLAYER_COOLDOWN && s.health > 0
  }

  datatype ShootStep = ShootStep(ship: Spaceship, bullet: Option<Bullet>)

  /** `Spaceship._shoot`: a bullet from the middle of the ship's top edge. */
  function Shoot(s: Spaceship, keys: Keys, now: int, bulletLook: Dims): (r: ShootStep)
    ensures r.bullet.Some? <==> CanFire(s, keys, now)
    ensures r.bullet.Some? ==> r.ship == s.(lastShot := now)
    ensures r.bullet.Some? ==>
              r.bullet.value.rect.CenterX() == s.rect.CenterX() && r.bullet.value.rect.CenterY() == s.rect.Top()
    ensures r.bullet.None? ==> r.ship == s
  {
    if CanFire(s, keys, now) then
      ShootStep(s.(lastShot := now), Some(NewBullet(s.rect.CenterX(), s.rect.Top(), bulletLook)))
    else
      ShootStep(s, None)
  }

  datatype HealthCheck = HealthCheck(ship: Spaceship, explosions: seq<Explosion>)

  /** Game-state part of `Spaceship._update_health_bar` (the drawing is left
      out): at zero or negative health the ship leaves its group, leaving a
      size-3 explosion the first time only. */
  function CheckHealth(s: Spaceship): (r: HealthCheck)
    ensures s.health > 0 ==> r == HealthCheck(s, [])
    ensures s.health <= 0 ==> r.ship == s.(explosionCreated := true, inGroup := false)
    ensures s.health <= 0 && !s.explosionCreated ==>
              r.explosions == [NewExplosion(s.rect.CenterX(), s.rect.CenterY(), SHIP_DOWN_SIZE)]
    ensures s.explosionCreated ==> r.explosions == []
  {
    if s.health > 0 then HealthCheck(s, [])
    else if !s.explosionCreated then
      HealthCheck(s.(explosionCreated := true, inGroup := false),
            [NewExplosion(s.rect.CenterX(), s.rect.CenterY(), SHIP_DOWN_SIZE)])
    else
      HealthCheck(s.(inGroup := false), [])
  }

  datatype ShipFrame = ShipFrame(ship: Spaceship, bullets: seq<Bullet>, explosions: seq<Explosion>)

  /** `Spaceship.update`: move, shoot, (mask), health check. */
  function Update(s: Spaceship, keys: Keys, now: int, bulletLook: Dims): (r: ShipFrame)
    ensures r.ship.health == s.health && r.ship.healthStart == s.healthStart
    ensures r.ship.rect == Steer(s, keys).rect
    ensures |r.bullets| == 1 <==> CanFire(s, keys, now)
    ensures |r.bullets| <= 1 && |r.explosions| <= 1
    ensures r.ship.lastShot == (if CanFire(s, keys, now) then now else s.lastShot)
    ensures s.health > 0 ==> r.ship.inGroup == s.inGroup && r.ship.explosionCreated == s.explosionCreated
                             && r.explosions == []
    ensures s.health <= 0 ==> !r.ship.inGroup && r.ship.explosionCreated && r.bullets == []
    ensures |r.explosions| == 1 <==> s.health <= 0 && !s.explosionCreated
    ensures forall e :: e in r.explosions ==> e.size == SHIP_DOWN_SIZE && e.index == 0 && e.counter == 0
    // The bullet and the wreck come from the ship after it has moved.
    ensures |r.bullets| == 1 ==> r.bullets[0] == NewBullet(r.ship.rect.CenterX(), r.ship.rect.Top(), bulletLook)
    ensures |r.explosions| == 1 ==>
              r.explosions[0] == NewExplosion(r.ship.rect.CenterX(), r.ship.rect.CenterY(), SHIP_DOWN_SIZE)
    ensures OnScreen(s) ==> OnScreen(r.ship)
  {
    var steered := Steer(s, keys);
    var fired := Shoot(steered, keys, now, bulletLook);
    var wreck := CheckHealth(fired.ship);
    var shots := match fired.bullet case Some(b) => [b] case None => [];
    ShipFrame(wreck.ship, shots, wreck.explosions)
  }

  // ------------------------------------------------------- multi-frame runs

  /** One frame seen from the ship: keys, tick, and the health the alien
      bullets take after the ship's own update. */
  datatype ShipInput = ShipInput(keys: Keys, now: int, damage: nat)

  /** Ticks at which the ship fired, and how many size-3 explosions it left. */
  datatype ShipRun = ShipRun(ship: Spaceship, shotTimes: seq<int>, booms: nat)

  /** The ship after its own update and the frame's damage. */
  function After(s: Spaceship, p: ShipInput, bulletLook: Dims): Spaceship
  {
    var u := Update(s, p.keys, p.now, bulletLook);
    u.ship.(health := u.ship.health - p.damage)
  }

  function Fly(s: Spaceship, frames: seq<ShipInput>, bulletLook: Dims): ShipRun
    decreases |frames|
  {
    if |frames| == 0 then ShipRun(s, [], 0)
    else
      var u := Update(s, frames[0].keys, frames[0].now, bulletLook);
      var rest := Fly(After(s, frames[0], bulletLook), frames[1..], bulletLook);
      ShipRun(rest.ship,
             (if |u.bullets| == 1 then [frames[0].now] else []) + rest.shotTimes,
             |u.explosions| + rest.booms)
  }

  /** Successive shots are more than PLAYER_COOLDOWN ticks apart, the first
      one more than PLAYER_COOLDOWN after the previous shot (or creation), and
      the ship ends remembering its latest shot. */
  lemma {:induction false} ShotsSpaced(s: Spaceship, frames: seq<ShipInput>, bulletLook: Dims)
    ensures var f := Fly(s, frames, bulletLook);
            && (|f.shotTimes| > 0 ==> f.shotTimes[0] - s.lastShot > PLAYER_COOLDOWN)
            && (forall i :: 0 <= i < |f.shotTimes| - 1 ==> f.shotTimes[i + 1] - f.shotTimes[i] > PLAYER_COOLDOWN)
            && f.ship.lastShot == (if |f.shotTimes| > 0 then f.shotTimes[|f.shotTimes| - 1] else s.lastShot)
    decreases |frames|
  {
    if |frames| > 0 {
      var p := frames[0];
      var u := Update(s, p.keys, p.now, bulletLook);
      var s' := After(s, p, bulletLook);
      var rest := Fly(s', frames[1..], bulletLook);
      var f := Fly(s, frames, bulletLook);
      ShotsSpaced(s', frames[1..], bulletLook);
      assert s'.lastShot == u.ship.lastShot;
      if |u.bullets| == 1 {
        assert f.shotTimes == [p.now] + rest.shotTimes;
        assert s'.lastShot == p.now;
        forall i | 0 <= i < |f.shotTimes| - 1
          ensures f.shotTimes[i + 1] - f.shotTimes[i] > PLAYER_COOLDOWN
        {
          if i > 0 {
            assert f.shotTimes[i] == rest.shotTimes[i - 1];
            assert f.shotTimes[i + 1] == rest.shotTimes[i];
          }
        }
      } else {
        assert f.shotTimes == rest.shotTimes;
        assert s'.lastShot == s.lastShot;
      }
    }
  }

  /** Health never rises, and the ship fires only while its health is above
      zero. */
  lemma {:induction false} HealthOnlyFalls(s: Spaceship, frames: seq<ShipInput>, bulletLook: Dims)
    ensures Fly(s, frames, bulletLook).ship.health <= s.health
    ensures s.health <= 0 ==> Fly(s, frames, bulletLook).shotTimes == []
    decreases |frames|
  {
    if |frames| > 0 {
      var s' := After(s, frames[0], bulletLook);
      assert s'.health <= s.health;
      HealthOnlyFalls(s', frames[1..], bulletLook);
    }
  }

  /** However many frames follow, the ship leaves at most one size-3
      explosion: the number left plus the flag at the start equals the flag
      at the end.  Once health is at or below zero and one update has run,
      the flag is set, so a fresh ship that dies leaves exactly one. */
  lemma {:induction false} OneWreck(s: Spaceship, frames: seq<ShipInput>, bulletLook: Dims)
    ensures var f := Fly(s, frames, bulletLook);
            && f.booms + (if s.explosionCreated then 1 else 0) == (if f.ship.explosionCreated then 1 else 0)
            && (s.health <= 0 && |frames| > 0 ==> f.ship.explosionCreated && !f.ship.inGroup)
            && (s.explosionCreated ==> f.ship.explosionCreated)
    decreases |frames|
  {
    if |frames| > 0 {
      var p := frames[0];
      var u := Update(s, p.keys, p.now, bulletLook);
      var s' := After(s, p, bulletLook);
      assert s'.explosionCreated == u.ship.explosionCreated && s'.inGroup == u.ship.inGroup;
      OneWreck(s', frames[1..], bulletLook);
      if s.health <= 0 && |frames| > 1 {
        assert s'.health <= 0;
        StaysDown(s', frames[1..], bulletLook);
      }
    }
  }

  /** A ship at or below zero health stays out of its group. */
  lemma {:induction false} StaysDown(s: Spaceship, frames: seq<ShipInput>, bulletLook: Dims)
    requires s.health <= 0 && |frames| > 0
    ensures !Fly(s, frames, bulletLook).ship.inGroup
    decreases |frames|
  {
    var s' := After(s, frames[0], bulletLook);
    assert !s'.inGroup && s'.health <= 0;
    if |frames| > 1 {
      StaysDown(s', frames[1..], bulletLook);
    }
  }
}
