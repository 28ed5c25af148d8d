/** The game controller `SpaceInvadersGame`: its game variables, the sprite
    groups it owns, and `play_step`, one frame of the countdown / play / end
    screen sequence.  Everything pygame supplies inside a frame is an input:
    the pressed keys, the tick, the random roll behind `choice`, and the two
    overlap tests. */
module SpaceInvaders {
  import opened Constants
  import opened Rects
  import opened Aliens
  import opened Explosions
  import opened Bullets
  import opened Ship

  /** Image sizes of the sprites (all aliens share one). */
  datatype Looks = Looks(ship: Dims, bullet: Dims, alien: Dims, alienBullet: Dims)

  datatype Game = Game(
    countdown: int,
    gameOver: int,
    endTimer: int,
    lastCount: int,
    lastAlienShot: int,
    endingMusic: bool,
    looks: Looks,
    ship: Spaceship,
    bullets: seq<Bullet>,
    aliens: seq<Alien>,
    alienBullets: seq<AlienBullet>,
    explosions: seq<Explosion>)

  /** What one frame reads from the outside world.  `roll` picks the firing
      alien as `aliens[roll % |aliens|]`. */
  datatype Input = Input(keys: Keys, now: int, roll: nat,
                         rectHit: (Rect, Rect) -> bool, maskHit: (Rect, Rect) -> bool)

  /** `play_step`'s return value with the new state, or the IndexError that
      `choice` raises on an empty alien group. */
  datatype Outcome = Frame(game: Game, ended: bool) | ChoiceFromEmpty

  /** `SpaceInvadersGame.__init__` at tick `now`. */
  function Init(now: int, looks: Looks): (g: Game)
    ensures g.countdown == GAME_COOLDOWN && g.gameOver == 0 && g.endTimer == 0
    ensures g.lastCount == now && g.lastAlienShot == now && g.endingMusic
    ensures g.ship.rect.CenterX() == SCREEN_WIDTH / 2 && g.ship.rect.CenterY() == SCREEN_HEIGHT * 4 / 5
    ensures g.ship.health == SHIP_INITIAL_HEALTH && g.ship.healthStart == PLAYER_START_HEALTH
    ensures g.ship.lastShot == now && g.ship.inGroup && !g.ship.explosionCreated
    ensures |g.aliens| == ROW_OF_ENEMIES * COLUMN_OF_ENEMIES
    ensures forall i :: 0 <= i < |g.aliens| ==> g.aliens[i] == NewAlien(SlotX(i), SlotY(i), looks.alien)
    ensures g.bullets == [] && g.alienBullets == [] && g.explosions == []
  {
    Game(GAME_COOLDOWN, 0, 0, now, now, true, looks,
         NewSpaceship(SCREEN_WIDTH / 2, SCREEN_HEIGHT * 4 / 5, SHIP_INITIAL_HEALTH, looks.ship, now),
         [], Formation(looks.alien), [], [])
  }

  /** `alien_group.update()` */
  function MoveAll(aliens: seq<Alien>): (r: seq<Alien>)
    ensures |r| == |aliens|
    ensures forall i :: 0 <= i < |aliens| ==> r[i] == Move(aliens[i])
  {
    seq(|aliens|, i requires 0 <= i < |aliens| => Move(aliens[i]))
  }

  /** The sprites after the four group updates of a playing frame, and the
      explosions those updates created (in creation order). */
  datatype PlayUpdates = PlayUpdates(ship: Spaceship, bullets: seq<Bullet>, aliens: seq<Alien>,
                               alienBullets: seq<AlienBullet>, explosions: seq<Explosion>)

  /** The four group updates of a playing frame of `play_step`: ship, player
      bullets (including the one the ship may just have fired), aliens, alien
      bullets, in that order. */
  function Battle(g: Game, inp: Input): (k: PlayUpdates)
    ensures g.ship.health - |g.alienBullets| <= k.ship.health <= g.ship.health
    ensures g.ship.health <= 0 ==> k.ship.health == g.ship.health && !k.ship.inGroup
    ensures k.ship.healthStart == g.ship.healthStart
    ensures |k.aliens| <= |g.aliens|
    ensures |k.aliens| < |g.aliens| ==> exists e :: e in k.explosions && e.size == ALIEN_DOWN_SIZE
    ensures forall e :: e in k.explosions ==> e.index == 0 && e.counter == 0
    ensures forall e :: e in k.explosions ==>
              e.size == HIT_ON_SHIP_SIZE || e.size == ALIEN_DOWN_SIZE || e.size == SHIP_DOWN_SIZE
  {
    var sf := Ship.Update(g.ship, inp.keys, inp.now, g.looks.bullet);
    var volley := UpdateBullets(g.bullets + sf.bullets, g.aliens, inp.rectHit);
    var barrage := UpdateAlienBullets(g.alienBullets, sf.ship.rect, sf.ship.inGroup, sf.ship.health, inp.maskHit);
    assert |volley.explosions| > 0 ==> volley.explosions[0] in sf.explosions + volley.explosions + barrage.explosions;
    PlayUpdates(sf.ship.(health := barrage.health),
             volley.bullets,
             MoveAll(volley.aliens),
             barrage.bullets,
             sf.explosions + volley.explosions + barrage.explosions)
  }

  /** The ship of a playing frame is the ship `Ship.Fly` follows: its own
      update, then the health the alien bullets take. */
  lemma BattleFlies(g: Game, inp: Input)
    ensures var d := g.ship.health - Battle(g, inp).ship.health;
            d >= 0 && Battle(g, inp).ship == After(g.ship, ShipInput(inp.keys, inp.now, d), g.looks.bullet)
  {
  }

  /** `play_step`'s test for an alien shot: aliens were alive at the start of
      the frame, the ship's health is non-zero after the updates (a negative
      health counts as alive), and the alien cooldown has passed. */
  predicate AliensFire(g: Game, inp: Input): (b: bool)
    ensures b ==> g.countdown == 0 && |g.aliens| > 0 && inp.now - g.lastAlienShot > ALIEN_COOLDOWN
    // a ship already at zero health never draws fire
    ensures g.ship.health == 0 ==> !b
    // a ship below zero stays below zero, so it is still shot at
    ensures g.ship.health < 0 ==>
              (b <==> g.countdown == 0 && |g.aliens| > 0 && inp.now - g.lastAlienShot > ALIEN_COOLDOWN)
  {
    && g.countdown == 0
    && |g.aliens| > 0
    && Battle(g, inp).ship.health != 0
    && inp.now - g.lastAlienShot > ALIEN_COOLDOWN
  }

  /** The countdown branch of `play_step` (text drawing left out): one step
      down, stamped with the tick, once more than a second has passed. */
  function CountDown(g: Game, now: int): (r: Game)
    ensures r == g.(countdown := r.countdown, lastCount := r.lastCount)
    ensures now - g.lastCount > COUNTDOWN_TICK ==> r.countdown == g.countdown - 1 && r.lastCount == now
    ensures now - g.lastCount <= COUNTDOWN_TICK ==> r == g
  {
    if now - g.lastCount > COUNTDOWN_TICK then g.(countdown := g.countdown - 1, lastCount := now) else g
  }

  /** `SpaceInvadersGame.play_step` */
  function PlayStep(g: Game, inp: Input): (r: Outcome)
    // The countdown only ever steps down by one, and only after more than a second.
    ensures r.Frame? ==>
              || r.game.countdown == g.countdown
              || (g.countdown != 0 && r.game.countdown == g.countdown - 1
                  && inp.now - g.lastCount > COUNTDOWN_TICK && r.game.lastCount == inp.now)
    ensures r.Frame? && g.countdown >= 0 ==> r.game.countdown >= 0
    ensures g.countdown != 0 && inp.now - g.lastCount > COUNTDOWN_TICK ==>
              r.Frame? && r.game.countdown == g.countdown - 1 && r.game.lastCount == inp.now
    ensures g.countdown != 0 && inp.now - g.lastCount <= COUNTDOWN_TICK ==>
              r.Frame? && r.game.countdown == g.countdown && r.game.lastCount == g.lastCount
    // Every frame updates the explosions; a playing frame also runs the four group updates.
    ensures g.countdown != 0 ==> r.Frame? && r.game.explosions == UpdateAll(g.explosions)
    ensures g.countdown == 0 && r.Frame? ==>
              && r.game.countdown == 0 && r.game.lastCount == g.lastCount
              && r.game.ship == Battle(g, inp).ship && r.game.bullets == Battle(g, inp).bullets
              && r.game.aliens == Battle(g, inp).aliens
              && r.game.explosions == UpdateAll(g.explosions) + Battle(g, inp).explosions
    // While counting down, no sprite but the explosions changes and the frame never ends the game.
    ensures g.countdown != 0 ==>
              && r.Frame? && !r.ended
              && r.game.ship == g.ship && r.game.bullets == g.bullets
              && r.game.aliens == g.aliens && r.game.alienBullets == g.alienBullets
              && r.game.lastAlienShot == g.lastAlienShot && r.game.endTimer == inp.now
    // The crash happens exactly when aliens should fire but the bullets have just killed the last one.
    ensures r.ChoiceFromEmpty? <==> AliensFire(g, inp) && |Battle(g, inp).aliens| == 0
    // Firing: one new alien bullet, from the bottom centre of a live alien; both timers refreshed.
    ensures r.Frame? && AliensFire(g, inp) ==>
              && !r.ended
              && r.game.lastAlienShot == inp.now && r.game.endTimer == inp.now
              && |r.game.alienBullets| == |Battle(g, inp).alienBullets| + 1
              && r.game.alienBullets[..|r.game.alienBullets| - 1] == Battle(g, inp).alienBullets
              && exists i :: 0 <= i < |r.game.aliens|
                   && r.game.alienBullets[|r.game.alienBullets| - 1].rect.CenterX() == r.game.aliens[i].rect.CenterX()
                   && r.game.alienBullets[|r.game.alienBullets| - 1].rect.CenterY() == r.game.aliens[i].rect.Bottom()
    // Not firing while playing: the frame returns early, timers untouched, and the result is the 3000 ms test.
    ensures g.countdown == 0 && !AliensFire(g, inp) ==>
              && r.Frame?
              && r.game.lastAlienShot == g.lastAlienShot && r.game.endTimer == g.endTimer
              && r.game.alienBullets == Battle(g, inp).alienBullets
              && (r.ended <==> inp.now - g.endTimer > END_DELAY)
    ensures r.Frame? && r.ended ==> g.countdown == 0 && !AliensFire(g, inp) && inp.now - g.endTimer > END_DELAY
    // The end sound plays at most once: the flag only ever goes from true to false, on a decided frame.
    ensures r.Frame? && r.game.endingMusic ==> g.endingMusic
    ensures r.Frame? && g.endingMusic && !r.game.endingMusic ==>
              g.countdown == 0 && (|g.aliens| == 0 || r.game.ship.health == 0)
    ensures g.countdown == 0 && !AliensFire(g, inp) && (|g.aliens| == 0 || Battle(g, inp).ship.health == 0) ==>
              r.Frame? && !r.game.endingMusic
    // Health and the alien count never grow; game_over is never written.
    ensures r.Frame? ==> r.game.ship.health <= g.ship.health && |r.game.aliens| <= |g.aliens|
    ensures r.Frame? ==> r.game.gameOver == g.gameOver && r.game.looks == g.looks
    ensures r.Frame? ==> r.game.lastAlienShot == g.lastAlienShot || r.game.lastAlienShot == inp.now
  {
    var updated := UpdateAll(g.explosions);
    if g.countdown == 0 then
      var k := Battle(g, inp);
      var mid := g.(ship := k.ship, bullets := k.bullets, aliens := k.aliens,
                    alienBullets := k.alienBullets, explosions := updated + k.explosions);
      if AliensFire(g, inp) then
        if |k.aliens| == 0 then
          ChoiceFromEmpty
        else
          var shooter := k.aliens[inp.roll % |k.aliens|];
          var shot := NewAlienBullet(shooter.rect.CenterX(), shooter.rect.Bottom(), g.looks.alienBullet);
          assert (k.alienBullets + [shot])[..|k.alienBullets|] == k.alienBullets;
          Frame(mid.(alienBullets := k.alienBullets + [shot], lastAlienShot := inp.now, endTimer := inp.now), false)
      else
        var music := g.endingMusic && |g.aliens| != 0 && k.ship.health != 0;
        Frame(mid.(endingMusic := music), inp.now - g.endTimer > END_DELAY)
    else
      Frame(CountDown(g.(explosions := updated), inp.now).(endTimer := inp.now), false)
  }
}
