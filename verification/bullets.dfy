/** Player bullets (`Bullet`) and alien bullets (`AlienBullet`): straight-line
    flight, removal once off screen, and what a hit does to the other groups.
    Overlap tests are parameters: `rectHit` stands for pygame's rectangle
    collision and `maskHit` for its pixel-mask collision. */
module Bullets {
  import opened Constants
  import opened Rects
  import opened Aliens
  import opened Explosions

  datatype Bullet = Bullet(rect: Rect)
  datatype AlienBullet = AlienBullet(rect: Rect)

  /** `Bullet(x, y, ...)` */
  function NewBullet(cx: int, cy: int, d: Dims): (b: Bullet)
    ensures b.rect.CenterX() == cx && b.rect.CenterY() == cy
  {
    Bullet(CenteredAt(cx, cy, d))
  }

  /** `AlienBullet(x, y, ...)` */
  function NewAlienBullet(cx: int, cy: int, d: Dims): (b: AlienBullet)
    ensures b.rect.CenterX() == cx && b.rect.CenterY() == cy
  {
    AlienBullet(CenteredAt(cx, cy, d))
  }

  // ---------------------------------------------------------------- flight

  /** Position part of `Bullet._movement`. */
  function Climb(b: Bullet): Bullet
  {
    Bullet(b.rect.ShiftY(-PLAYER_BULLET_SPEED))
  }

  /** The kill test of `Bullet._movement`. */
  predicate OffTop(b: Bullet)
  {
    b.rect.y < PLAYER_BULLET_LIMIT
  }

  /** Position part of `AlienBullet._movement`. */
  function Fall(b: AlienBullet): AlienBullet
  {
    AlienBullet(b.rect.ShiftY(ENEMY_BULLET_SPEED))
  }

  /** The kill test of `AlienBullet._movement`. */
  predicate OffBottom(b: AlienBullet)
  {
    b.rect.Bottom() > ALIEN_BULLET_LIMIT
  }

  function ClimbN(b: Bullet, n: nat): Bullet
  {
    if n == 0 then b else Climb(ClimbN(b, n - 1))
  }

  function FallN(b: AlienBullet, n: nat): AlienBullet
  {
    if n == 0 then b else Fall(FallN(b, n - 1))
  }

  /** Number of updates after which a player bullet that hits nothing is
      removed: the first k >= 1 with y - k * PLAYER_BULLET_SPEED < -10. */
  function ClimbLifetime(b: Bullet): nat
  {
    if b.rect.y - PLAYER_BULLET_LIMIT < 0 then 1
    else (b.rect.y - PLAYER_BULLET_LIMIT) / PLAYER_BULLET_SPEED + 1
  }

  /** Number of updates after which an alien bullet that hits nothing is
      removed: the first k >= 1 with bottom + k * ENEMY_BULLET_SPEED > 810. */
  function FallLifetime(b: AlienBullet): nat
  {
    if ALIEN_BULLET_LIMIT - b.rect.Bottom() < 0 then 1
    else (ALIEN_BULLET_LIMIT - b.rect.Bottom()) / ENEMY_BULLET_SPEED + 1
  }

  /** A player bullet rises PLAYER_BULLET_SPEED pixels per update, keeps its
      column and size, and the update that removes it is exactly the
      ClimbLifetime-th one. */
  lemma {:induction false} ClimbFlight(b: Bullet, n: nat)
    ensures ClimbN(b, n).rect == b.rect.(y := b.rect.y - n * PLAYER_BULLET_SPEED)
    ensures n >= 1 ==> (OffTop(ClimbN(b, n)) <==> n >= ClimbLifetime(b))
  {
    if n > 0 {
      ClimbFlight(b, n - 1);
    }
  }

  /** An alien bullet falls ENEMY_BULLET_SPEED pixels per update, keeps its
      column and size, and the update that removes it is exactly the
      FallLifetime-th one. */
  lemma {:induction false} FallFlight(b: AlienBullet, n: nat)
    ensures FallN(b, n).rect == b.rect.(y := b.rect.y + n * ENEMY_BULLET_SPEED)
    ensures n >= 1 ==> (OffBottom(FallN(b, n)) <==> n >= FallLifetime(b))
  {
    if n > 0 {
      FallFlight(b, n - 1);
    }
  }

  // ------------------------------------------------- player bullet vs aliens

  /** The aliens `spritecollide(..., dokill=True)` leaves in the group. */
  function Spared(aliens: seq<Alien>, shot: Rect, rectHit: (Rect, Rect) -> bool): (r: seq<Alien>)
    ensures |r| <= |aliens|
    ensures forall a :: a in r <==> a in aliens && !rectHit(shot, a.rect)
    ensures |r| == |aliens| <==> forall i :: 0 <= i < |aliens| ==> !rectHit(shot, aliens[i].rect)
  {
    if |aliens| == 0 then []
    else
      var rest := Spared(aliens[1..], shot, rectHit);
      assert forall a :: a in aliens <==> a == aliens[0] || a in aliens[1..];
      if rectHit(shot, aliens[0].rect) then rest else [aliens[0]] + rest
  }

  /** What one player-bullet update leaves behind. */
  datatype BulletStep = BulletStep(bullet: Bullet, alive: bool, aliens: seq<Alien>, explosions: seq<Explosion>)

  predicate Hits(b: Bullet, aliens: seq<Alien>, rectHit: (Rect, Rect) -> bool)
  {
    exists i :: 0 <= i < |aliens| && rectHit(b.rect, aliens[i].rect)
  }

  /** `Bullet.update`: move, then collide.  The collision test runs even when
      the movement has just removed the bullet. */
  function UpdateBullet(b: Bullet, aliens: seq<Alien>, rectHit: (Rect, Rect) -> bool): (o: BulletStep)
    ensures o.bullet == Climb(b)
    ensures Hits(o.bullet, aliens, rectHit) ==>
              && !o.alive
              && (forall a :: a in o.aliens <==> a in aliens && !rectHit(o.bullet.rect, a.rect))
              && |o.aliens| < |aliens|
              && o.explosions == [NewExplosion(o.bullet.rect.CenterX(), o.bullet.rect.CenterY(), ALIEN_DOWN_SIZE)]
    ensures !Hits(o.bullet, aliens, rectHit) ==>
              && o.aliens == aliens
              && o.explosions == []
              && (o.alive <==> !OffTop(o.bullet))
  {
    var moved := Climb(b);
    var spared := Spared(aliens, moved.rect, rectHit);
    if |spared| < |aliens| then
      BulletStep(moved, false, spared, [NewExplosion(moved.rect.CenterX(), moved.rect.CenterY(), ALIEN_DOWN_SIZE)])
    else
      BulletStep(moved, !OffTop(moved), aliens, [])
  }

  /** What a whole group update leaves behind. */
  datatype BulletGroupStep = BulletGroupStep(bullets: seq<Bullet>, aliens: seq<Alien>, explosions: seq<Explosion>)

  /** No bullet of `bs`, once moved, overlaps alien `a`. */
  predicate Missed(a: Alien, bs: seq<Bullet>, rectHit: (Rect, Rect) -> bool)
  {
    forall j :: 0 <= j < |bs| ==> !rectHit(Climb(bs[j]).rect, a.rect)
  }

  /** Missing every bullet is missing the first one and all the rest. */
  lemma MissedSplit(bs: seq<Bullet>, rectHit: (Rect, Rect) -> bool)
    requires |bs| > 0
    ensures forall a :: Missed(a, bs, rectHit) <==> !rectHit(Climb(bs[0]).rect, a.rect) && Missed(a, bs[1..], rectHit)
  {
  }

  /** One bullet update leaves exactly the aliens its moved rectangle misses. */
  lemma FirstSpares(b: Bullet, aliens: seq<Alien>, rectHit: (Rect, Rect) -> bool)
    ensures forall a :: a in UpdateBullet(b, aliens, rectHit).aliens <==> a in aliens && !rectHit(Climb(b).rect, a.rect)
  {
  }

  /** None of the first `n` bullets of `bs`, once moved, overlaps alien `a`. */
  predicate MissedBefore(a: Alien, bs: seq<Bullet>, n: nat, rectHit: (Rect, Rect) -> bool)
    requires n <= |bs|
  {
    forall j :: 0 <= j < n ==> !rectHit(Climb(bs[j]).rect, a.rect)
  }

  /** Bullet `i` of the group, once moved, overlaps an alien that the
      bullets before it have left standing. */
  predicate Lands(bs: seq<Bullet>, i: nat, aliens: seq<Alien>, rectHit: (Rect, Rect) -> bool)
    requires i < |bs|
  {
    exists a :: a in aliens && MissedBefore(a, bs, i, rectHit) && rectHit(Climb(bs[i]).rect, a.rect)
  }

  /** Bullet `i` neither lands nor leaves the screen, so it keeps flying. */
  predicate Flies(bs: seq<Bullet>, i: nat, aliens: seq<Alien>, rectHit: (Rect, Rect) -> bool)
    requires i < |bs|
  {
    !OffTop(Climb(bs[i])) && !Lands(bs, i, aliens, rectHit)
  }

  /** The number of landing bullets among the first `n`. */
  function LandCount(bs: seq<Bullet>, aliens: seq<Alien>, rectHit: (Rect, Rect) -> bool, n: nat): nat
    requires n <= |bs|
  {
    if n == 0 then 0
    else LandCount(bs, aliens, rectHit, n - 1) + (if Lands(bs, n - 1, aliens, rectHit) then 1 else 0)
  }

  /** The number of flying bullets among the first `n`. */
  function FlyCount(bs: seq<Bullet>, aliens: seq<Alien>, rectHit: (Rect, Rect) -> bool, n: nat): nat
    requires n <= |bs|
  {
    if n == 0 then 0
    else FlyCount(bs, aliens, rectHit, n - 1) + (if Flies(bs, n - 1, aliens, rectHit) then 1 else 0)
  }

  /** The first bullet lands iff it hits any alien of the group. */
  lemma LandsFirst(bs: seq<Bullet>, aliens: seq<Alien>, rectHit: (Rect, Rect) -> bool)
    requires |bs| > 0
    ensures Lands(bs, 0, aliens, rectHit) <==> Hits(Climb(bs[0]), aliens, rectHit)
  {
    if Hits(Climb(bs[0]), aliens, rectHit) {
      var k :| 0 <= k < |aliens| && rectHit(Climb(bs[0]).rect, aliens[k].rect);
      assert MissedBefore(aliens[k], bs, 0, rectHit);
    }
  }

  /** Seen from the second bullet on, landing is landing among the aliens
      the first bullet spared. */
  lemma LandsShift(bs: seq<Bullet>, i: nat, aliens: seq<Alien>, rectHit: (Rect, Rect) -> bool)
    requires i + 1 < |bs|
    ensures Lands(bs, i + 1, aliens, rectHit)
            <==> Lands(bs[1..], i, UpdateBullet(bs[0], aliens, rectHit).aliens, rectHit)
  {
    var spared := UpdateBullet(bs[0], aliens, rectHit).aliens;
    FirstSpares(bs[0], aliens, rectHit);
    assert bs[1..][i] == bs[i + 1];
    assert forall a :: MissedBefore(a, bs, i + 1, rectHit) <==>
                       !rectHit(Climb(bs[0]).rect, a.rect) && MissedBefore(a, bs[1..], i, rectHit) by {
      assert forall j :: 0 <= j < i ==> bs[1..][j] == bs[j + 1];
    }
    if Lands(bs, i + 1, aliens, rectHit) {
      var a :| a in aliens && MissedBefore(a, bs, i + 1, rectHit) && rectHit(Climb(bs[i + 1]).rect, a.rect);
      assert a in spared;
    }
    if Lands(bs[1..], i, spared, rectHit) {
      var a :| a in spared && MissedBefore(a, bs[1..], i, rectHit) && rectHit(Climb(bs[1..][i]).rect, a.rect);
      assert MissedBefore(a, bs, i + 1, rectHit);
    }
  }

  /** The landing count splits into the first bullet and the rest. */
  lemma {:induction false} LandCountShift(bs: seq<Bullet>, aliens: seq<Alien>, rectHit: (Rect, Rect) -> bool, n: nat)
    requires 0 < n <= |bs|
    ensures LandCount(bs, aliens, rectHit, n)
            == (if Lands(bs, 0, aliens, rectHit) then 1 else 0)
               + LandCount(bs[1..], UpdateBullet(bs[0], aliens, rectHit).aliens, rectHit, n - 1)
  {
    if n > 1 {
      LandCountShift(bs, aliens, rectHit, n - 1);
      LandsShift(bs, n - 2, aliens, rectHit);
    }
  }

  /** The flying count splits into the first bullet and the rest. */
  lemma {:induction false} FlyCountShift(bs: seq<Bullet>, aliens: seq<Alien>, rectHit: (Rect, Rect) -> bool, n: nat)
    requires 0 < n <= |bs|
    ensures FlyCount(bs, aliens, rectHit, n)
            == (if Flies(bs, 0, aliens, rectHit) then 1 else 0)
               + FlyCount(bs[1..], UpdateBullet(bs[0], aliens, rectHit).aliens, rectHit, n - 1)
  {
    if n > 1 {
      FlyCountShift(bs, aliens, rectHit, n - 1);
      LandsShift(bs, n - 2, aliens, rectHit);
      assert bs[1..][n - 2] == bs[n - 1];
    }
  }

  /** `bullet_group.update()`: bullets update in group order, each one seeing
      the aliens the earlier ones left. */
  function UpdateBullets(bs: seq<Bullet>, aliens: seq<Alien>, rectHit: (Rect, Rect) -> bool): (o: BulletGroupStep)
    ensures |o.bullets| + |o.explosions| <= |bs|
    ensures |o.aliens| <= |aliens|
    ensures forall a :: a in o.aliens ==> a in aliens
    ensures |o.aliens| < |aliens| <==> |o.explosions| > 0
    ensures |o.explosions| == 0 ==> o.aliens == aliens
    ensures forall e :: e in o.explosions ==> e.size == ALIEN_DOWN_SIZE && e.index == 0 && e.counter == 0
    ensures forall c :: c in o.bullets ==> !OffTop(c) && exists b :: b in bs && c == Climb(b)
    // A bullet that misses every alien the group started with and is still
    // on screen survives: later bullets only see fewer aliens.
    ensures forall i :: 0 <= i < |bs| && !OffTop(Climb(bs[i])) && !Hits(Climb(bs[i]), aliens, rectHit) ==>
              Climb(bs[i]) in o.bullets
    // The aliens left are exactly those no moved bullet overlaps.
    ensures forall a :: a in o.aliens <==> a in aliens && Missed(a, bs, rectHit)
  {
    if |bs| == 0 then BulletGroupStep([], aliens, [])
    else
      var first := UpdateBullet(bs[0], aliens, rectHit);
      var rest := UpdateBullets(bs[1..], first.aliens, rectHit);
      assert forall b :: b in bs[1..] ==> b in bs;
      assert forall i :: 1 <= i < |bs| ==> bs[i] == bs[1..][i - 1];
      MissedSplit(bs, rectHit);
      FirstSpares(bs[0], aliens, rectHit);
      BulletGroupStep((if first.alive then [first.bullet] else []) + rest.bullets,
             rest.aliens,
             first.explosions + rest.explosions)
  }

  /** One step of the group update: the first bullet, then the rest against
      the aliens it spared. */
  lemma GroupStep(bs: seq<Bullet>, aliens: seq<Alien>, rectHit: (Rect, Rect) -> bool)
    requires |bs| > 0
    ensures var first := UpdateBullet(bs[0], aliens, rectHit);
            var rest := UpdateBullets(bs[1..], first.aliens, rectHit);
            && UpdateBullets(bs, aliens, rectHit).explosions == first.explosions + rest.explosions
            && UpdateBullets(bs, aliens, rectHit).bullets == (if first.alive then [first.bullet] else []) + rest.bullets
  {
  }

  /** Over the whole group, exactly one explosion per landing bullet. */
  lemma {:induction false} GroupLandCount(bs: seq<Bullet>, aliens: seq<Alien>, rectHit: (Rect, Rect) -> bool)
    ensures |UpdateBullets(bs, aliens, rectHit).explosions| == LandCount(bs, aliens, rectHit, |bs|)
    decreases |bs|
  {
    if |bs| > 0 {
      var first := UpdateBullet(bs[0], aliens, rectHit);
      var rest := UpdateBullets(bs[1..], first.aliens, rectHit);
      var k := if Lands(bs, 0, aliens, rectHit) then 1 else 0;
      assert |first.explosions| == k by {
        LandsFirst(bs, aliens, rectHit);
      }
      assert |rest.explosions| == LandCount(bs[1..], first.aliens, rectHit, |bs| - 1) by {
        GroupLandCount(bs[1..], first.aliens, rectHit);
      }
      assert LandCount(bs, aliens, rectHit, |bs|) == k + LandCount(bs[1..], first.aliens, rectHit, |bs| - 1) by {
        LandCountShift(bs, aliens, rectHit, |bs|);
      }
      assert UpdateBullets(bs, aliens, rectHit).explosions == first.explosions + rest.explosions by {
        GroupStep(bs, aliens, rectHit);
      }
    } else {
      assert UpdateBullets(bs, aliens, rectHit).explosions == [];
    }
  }

  /** Over the whole group, as many bullets survive as keep flying. */
  lemma {:induction false} GroupFlyCount(bs: seq<Bullet>, aliens: seq<Alien>, rectHit: (Rect, Rect) -> bool)
    ensures |UpdateBullets(bs, aliens, rectHit).bullets| == FlyCount(bs, aliens, rectHit, |bs|)
    decreases |bs|
  {
    if |bs| > 0 {
      var first := UpdateBullet(bs[0], aliens, rectHit);
      var rest := UpdateBullets(bs[1..], first.aliens, rectHit);
      GroupFlyCount(bs[1..], first.aliens, rectHit);
      LandsFirst(bs, aliens, rectHit);
      FlyCountShift(bs, aliens, rectHit, |bs|);
      var head: seq<Bullet> := if first.alive then [first.bullet] else [];
      assert UpdateBullets(bs, aliens, rectHit).bullets == head + rest.bullets;
      assert |head| == if Flies(bs, 0, aliens, rectHit) then 1 else 0;
    }
  }

  /** A bullet that stays on screen and does not land keeps flying, even when
      the aliens it overlaps were destroyed earlier in the same frame. */
  lemma {:induction false} GroupFlyers(bs: seq<Bullet>, aliens: seq<Alien>, rectHit: (Rect, Rect) -> bool)
    ensures forall i :: 0 <= i < |bs| && Flies(bs, i, aliens, rectHit) ==>
              Climb(bs[i]) in UpdateBullets(bs, aliens, rectHit).bullets
    decreases |bs|
  {
    if |bs| > 0 {
      var first := UpdateBullet(bs[0], aliens, rectHit);
      var rest := UpdateBullets(bs[1..], first.aliens, rectHit);
      var o := UpdateBullets(bs, aliens, rectHit);
      GroupFlyers(bs[1..], first.aliens, rectHit);
      LandsFirst(bs, aliens, rectHit);
      assert o.bullets == (if first.alive then [first.bullet] else []) + rest.bullets;
      forall i | 0 <= i < |bs| && Flies(bs, i, aliens, rectHit)
        ensures Climb(bs[i]) in o.bullets
      {
        if i > 0 {
          LandsShift(bs, i - 1, aliens, rectHit);
          assert bs[1..][i - 1] == bs[i];
          assert Flies(bs[1..], i - 1, first.aliens, rectHit);
        }
      }
    }
  }

  // ------------------------------------------------- alien bullet vs ship

  /** What one alien-bullet update leaves behind; `health` is the ship's. */
  datatype AlienBulletStep = AlienBulletStep(bullet: AlienBullet, alive: bool, health: int, explosions: seq<Explosion>)

  /** `AlienBullet.update`: move, then test against the ship, which is in its
      group exactly when `present`.  A hit costs one health point, with no
      lower bound. */
  function UpdateAlienBullet(b: AlienBullet, ship: Rect, present: bool, health: int,
                             maskHit: (Rect, Rect) -> bool): (o: AlienBulletStep)
    ensures o.bullet == Fall(b)
    ensures present && maskHit(o.bullet.rect, ship) ==>
              && !o.alive
              && o.health == health - 1
              && o.explosions == [NewExplosion(o.bullet.rect.CenterX(), o.bullet.rect.CenterY(), HIT_ON_SHIP_SIZE)]
    ensures !(present && maskHit(o.bullet.rect, ship)) ==>
              && o.health == health
              && o.explosions == []
              && (o.alive <==> !OffBottom(o.bullet))
  {
    var moved := Fall(b);
    if present && maskHit(moved.rect, ship) then
      AlienBulletStep(moved, false, health - 1,
             [NewExplosion(moved.rect.CenterX(), moved.rect.CenterY(), HIT_ON_SHIP_SIZE)])
    else
      AlienBulletStep(moved, !OffBottom(moved), health, [])
  }

  /** The number of alien bullets that, once moved, overlap the ship. */
  function HitCount(bs: seq<AlienBullet>, ship: Rect, maskHit: (Rect, Rect) -> bool): nat
  {
    if |bs| == 0 then 0
    else (if maskHit(Fall(bs[0]).rect, ship) then 1 else 0) + HitCount(bs[1..], ship, maskHit)
  }

  datatype AlienBulletGroupStep = AlienBulletGroupStep(bullets: seq<AlienBullet>, health: int, explosions: seq<Explosion>)

  /** `alien_bullet_group.update()`: every hit removes its bullet, takes
      exactly one health point and leaves one size-1 explosion. */
  function UpdateAlienBullets(bs: seq<AlienBullet>, ship: Rect, present: bool, health: int,
                              maskHit: (Rect, Rect) -> bool): (o: AlienBulletGroupStep)
    ensures |o.bullets| + |o.explosions| <= |bs|
    ensures o.health == health - |o.explosions|
    ensures !present ==> o.explosions == []
    ensures forall e :: e in o.explosions ==> e.size == HIT_ON_SHIP_SIZE && e.index == 0 && e.counter == 0
    ensures forall c :: c in o.bullets ==> !OffBottom(c) && exists b :: b in bs && c == Fall(b)
    ensures o.health == health - (if present then HitCount(bs, ship, maskHit) else 0)
    ensures forall c :: c in o.bullets ==> !(present && maskHit(c.rect, ship))
    ensures forall i :: 0 <= i < |bs| && !OffBottom(Fall(bs[i])) && !(present && maskHit(Fall(bs[i]).rect, ship)) ==>
              Fall(bs[i]) in o.bullets
  {
    if |bs| == 0 then AlienBulletGroupStep([], health, [])
    else
      var first := UpdateAlienBullet(bs[0], ship, present, health, maskHit);
      var rest := UpdateAlienBullets(bs[1..], ship, present, first.health, maskHit);
      assert forall b :: b in bs[1..] ==> b in bs;
      assert forall i :: 1 <= i < |bs| ==> bs[i] == bs[1..][i - 1];
      AlienBulletGroupStep((if first.alive then [first.bullet] else []) + rest.bullets,
              rest.health,
              first.explosions + rest.explosions)
  }

  /** When every alien bullet lands on a present ship, the ship loses one
      health point per bullet, whatever its health was: from 1 health, two
      simultaneous hits leave -1. */
  lemma {:induction false} EveryHitCounts(bs: seq<AlienBullet>, ship: Rect, health: int,
                                          maskHit: (Rect, Rect) -> bool)
    requires forall i :: 0 <= i < |bs| ==> maskHit(Fall(bs[i]).rect, ship)
    ensures UpdateAlienBullets(bs, ship, true, health, maskHit).health == health - |bs|
    ensures UpdateAlienBullets(bs, ship, true, health, maskHit).bullets == []
  {
    if |bs| > 0 {
      EveryHitCounts(bs[1..], ship, health - 1, maskHit);
    }
  }
}
