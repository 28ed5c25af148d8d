# Space Invaders game rules in Dafny

This project models the game rules of a small Space Invaders clone written
with pygame (`src/space_invaders_package/source/classes.py`). The rules are
modelled as pure integer state machines, one immutable record per sprite and
one for the game. Everything pygame supplies during a frame is an explicit
input to the step:

- which keys are pressed (`Ship.Keys`);
- the current tick in milliseconds (one value per frame);
- the random number behind `random.choice`, as `roll`, where the firing alien is `aliens[roll % |aliens|]`;
- the two overlap tests, as total functions over rectangles: `rectHit` for `spritecollide`'s rectangle test and `maskHit` for `collide_mask`.

Removing a sprite from its group (`kill()`) becomes dropping it from a
sequence. The ship keeps an `inGroup` flag, because the game keeps updating
the ship object after it has left its group.

Modules, in dependency order:

| file | module | source |
|---|---|---|
| constants.dfy | `Constants` | `constants.py`, plus the literals in `classes.py` (75, 1000, 3000, -10, +10, the grid offsets) |
| rects.dfy | `Rects` | the parts of `pygame.Rect` the game uses (centre, bottom, placement by centre) |
| aliens.dfy | `Aliens` | `Alien`, `_spawn_aliens` |
| options.dfy | `Options` | a sprite that may have removed itself from its group |
| explosions.dfy | `Explosions` | `Explosion` |
| bullets.dfy | `Bullets` | `Bullet`, `AlienBullet` |
| ship.dfy | `Ship` | `Spaceship` |
| game.dfy | `SpaceInvaders` | `SpaceInvadersGame.__init__`, `play_step` |
| runs.dfy | `GameRuns` | invariants of whole games; `main.py`'s loop over a given list of frames |

The model follows the code as written, including where the code does not
do what a player, or the game's own description, would expect:

- **Ship health has no lower bound.** An alien-bullet hit takes one point
  with no clamping (classes.py:404). Two hits in the same frame at health 1
  leave health at -1 (`Bullets.EveryHitCounts`). Loss is only detected when
  health is exactly 0 (classes.py:674), and line 648 treats a negative
  health as alive. So a game at negative health never ends while an alien
  remains (`GameRuns.NegativeHealthNeverEnds`). This breaks the game's own
  promise in the opening description of classes.py (line 4): the game ends
  when the player destroys all aliens or loses all health from alien
  attacks.
- **A player bullet removes every alien it overlaps**, not exactly one
  (`spritecollide(..., True)` on line 275). It still leaves exactly one
  explosion.
- **The end delay is measured from `end_timer`, not from the moment the game
  is decided.** `end_timer` is refreshed only on frames that reach line 711:
  countdown frames and alien-firing frames. The game ends on the first frame
  of a decided game that is more than 3000 ms after the last such frame
  (`GameRuns.DecidedEnds`). In a reachable state, a non-firing frame while
  aliens remain and health is non-zero is never more than 1000 ms past
  `end_timer`. So the 3000 ms test can only succeed once the game is decided
  (`GameRuns.EndsOnlyWhenDecided`).
- **`random.choice` can crash.** `aliens_left` is counted before the updates
  (line 638). If the player's bullets kill the last aliens in a frame where
  the alien cooldown has passed, `choice` runs on an empty group and raises
  IndexError. `PlayStep` returns `ChoiceFromEmpty` in exactly that case.
- **An alien's swing is not symmetric.** The counter is multiplied by the new
  direction after each flip. So at the left end the counter reaches 76 and
  then -77, and the direction flips on three updates in a row: the alien
  jitters by one pixel (x offset -76, -75, -76). The direction reverses on
  updates 76, 228, 229, 230, 382, 534, 535, 536, and so on. After the first
  76 updates the motion repeats every 306 updates (`Aliens.SwingTurns`,
  `Aliens.SwingPeriod`). `Aliens.InSwing` is exactly the set of states an
  alien visits. It is closed under a step (`Aliens.SwingStep`,
  `Aliens.SwingForever`), and every state in it is reached
  (`Aliens.SwingReached`).
- **A bullet that has just left the screen still runs its collision test in
  the same update**, because `_collision` follows `_movement` regardless of
  the kill.
- `game_over` is set to 0 in `__init__` and never written again.

## Model

| member | source | states |
|---|---|---|
| `Rects.CenteredAt` | src/space_invaders_package/source/classes.py:117-119 | `get_rect()` followed by `rect.center = (x, y)`: the rectangle keeps the image size, its centre is exactly (x, y), and its corner lies within one width and height of the centre. |
| `Aliens.NewAlien` | src/space_invaders_package/source/classes.py:309-328 | A new alien is centred on its spawn point, with move counter 0 and direction +1. |
| `Aliens.Move` | src/space_invaders_package/source/classes.py:330-338 | An alien moves one pixel along its current direction and stays in its row. If the incremented counter's magnitude is at most 75, the counter becomes that value and the direction is kept. Otherwise the direction is negated and the counter becomes the incremented counter times the new direction. A direction of ±1 stays ±1. |
| `Aliens.SwingStep` | src/space_invaders_package/source/classes.py:330-338 | The `InSwing` set of (offset, counter, direction) states is closed under one movement step. |
| `Aliens.SwingTimeline` | src/space_invaders_package/source/classes.py:327-338 | After n updates a fresh alien is exactly at `PoseAt(n)`. It moves right for 76 updates. Then a 306-update cycle repeats: 152 updates left, one right, one left, and 152 right. |
| `Aliens.SwingPeriod` | src/space_invaders_package/source/classes.py:327-338 | From update 76 on, the alien after n + 306 updates equals the alien after n updates. |
| `Aliens.SwingTurns` | src/space_invaders_package/source/classes.py:336-338 | The direction reverses on update n iff n ≥ 76 and (n − 76) mod 306 is 0, 152, 153 or 154. |
| `Aliens.SwingReached` | src/space_invaders_package/source/classes.py:327-338 | Every state in `InSwing` with the spawn row and size is reached by some number of updates from spawn. With `SwingForever`, `InSwing` is exactly the set of visited states. |
| `Aliens.SwingForever` | src/space_invaders_package/source/classes.py:327-338 | From spawn, after any number of updates, an alien stays within 76 px of its spawn x. Its counter stays within 77 in magnitude and its direction is ±1. Its row and size never change. |
| `Aliens.SpawnAliens` | src/space_invaders_package/source/classes.py:573-580 | Spawning yields ROW_OF_ENEMIES × COLUMN_OF_ENEMIES aliens in row-major order. Alien i is centred at (100 + 100·(i mod 5), 100 + 70·(i div 5)), counter 0, heading right. No two share a centre. |
| `Explosions.NewExplosion` | src/space_invaders_package/source/classes.py:464-468 | A new explosion starts on frame 0 with counter 0, centred where it was created. |
| `Explosions.Update` | src/space_invaders_package/source/classes.py:476-494 | The frame index never decreases and rises by at most 1. A rise resets the counter to 0 and happens only once the counter has reached EXPLOSION_SPEED. A valid state stays valid. The sprite removes itself exactly when the last frame's counter reaches EXPLOSION_SPEED. |
| `Explosions.Timeline` | src/space_invaders_package/source/classes.py:449-494 | After n < 15 updates a fresh explosion shows frame min(n div 3, 4), with counter n − 3·frame. Update 15 (5·EXPLOSION_SPEED) removes it. |
| `Explosions.AliveExactlyUntil` | src/space_invaders_package/source/classes.py:476-494 | A fresh explosion is still in its group after n updates iff n < 15. It is never removed earlier and never comes back. |
| `Explosions.UpdateAll` | src/space_invaders_package/source/classes.py:629 | The explosion group update never grows the group and keeps every frame index in range. Its members are exactly the surviving updates: each one is the update of some old explosion, and every explosion whose update survives is in the group. The group keeps its size iff no explosion removes itself. |
| `Bullets.NewBullet` | src/space_invaders_package/source/classes.py:251-259 | A player bullet is centred on the point it is fired from. |
| `Bullets.NewAlienBullet` | src/space_invaders_package/source/classes.py:375-383 | An alien bullet is centred on the point it is fired from. |
| `Bullets.ClimbFlight` | src/space_invaders_package/source/classes.py:263-269 | After n updates a player bullet is n·PLAYER_BULLET_SPEED px higher, in the same column. The update that removes it (y < -10) is exactly the ClimbLifetime-th. |
| `Bullets.FallFlight` | src/space_invaders_package/source/classes.py:387-393 | After n updates an alien bullet is n·ENEMY_BULLET_SPEED px lower. The update that removes it (bottom > SCREEN_HEIGHT + 10) is exactly the FallLifetime-th. |
| `Bullets.Spared` | src/space_invaders_package/source/classes.py:275 | The aliens `spritecollide(..., True)` leaves are exactly those not overlapping the bullet. The group keeps its size iff nothing overlaps. |
| `Bullets.UpdateBullet` | src/space_invaders_package/source/classes.py:263-285 | On overlap, every overlapping alien and the bullet are removed, and exactly one size-2 explosion appears at the bullet's centre. Without overlap the aliens and explosions are untouched, and the bullet survives iff it is still on screen. |
| `Bullets.UpdateBullets` | src/space_invaders_package/source/classes.py:642 | Over the whole bullet group: aliens only disappear, and they disappear iff some explosion was made. Every explosion is a fresh size-2 one. Surviving bullets plus explosions never outnumber the bullets. Every survivor is a moved, on-screen bullet. Conversely, a bullet whose move leaves it on screen and clear of every alien the group started with survives. The aliens left are exactly those that no moved bullet overlaps (`Missed`). |
| `Bullets.GroupLandCount` | src/space_invaders_package/source/classes.py:271-285 | Over the whole bullet group, the number of explosions is exactly the number of bullets that land. A bullet lands when, once moved, it overlaps an alien that the earlier bullets left standing (`Lands`). |
| `Bullets.GroupFlyCount` | src/space_invaders_package/source/classes.py:263-285 | Over the whole bullet group, the number of surviving bullets is exactly the number that stay on screen and do not land (`Flies`). |
| `Bullets.GroupFlyers` | src/space_invaders_package/source/classes.py:263-285 | Every bullet that stays on screen and does not land survives. This includes a bullet whose targets were all destroyed by an earlier bullet in the same frame. |
| `Bullets.UpdateAlienBullet` | src/space_invaders_package/source/classes.py:387-413 | A hit on a present ship removes the bullet, lowers health by exactly 1 with no floor, and adds one size-1 explosion. Otherwise health is unchanged, no explosion appears, and the bullet survives iff it is still on screen. |
| `Bullets.UpdateAlienBullets` | src/space_invaders_package/source/classes.py:644 | Over the whole alien-bullet group, a present ship loses exactly one health point per bullet that overlaps it after moving (`HitCount`), with no floor. An absent ship loses nothing. Health falls by the number of size-1 explosions made. A bullet survives iff it misses the ship and stays on screen. |
| `Bullets.EveryHitCounts` | src/space_invaders_package/source/classes.py:395-406 | If every alien bullet lands on a present ship, health falls by one per bullet from any start, so it can go below zero. No bullet survives. |
| `Ship.NewSpaceship` | src/space_invaders_package/source/classes.py:110-127 | A new ship is centred on (x, y) with the given health, health_start = PLAYER_START_HEALTH, last_shot = now, no explosion made, in its group. |
| `Ship.Steer` | src/space_invaders_package/source/classes.py:129-137 | The ship moves only horizontally, by 0 or ±PLAYER_SPEED. It moves left only if left is pressed and its left edge is > 0, and right only if right is pressed and its right edge is < SCREEN_WIDTH. With no key it stays put. With both keys held, it moves right by PLAYER_SPEED exactly when it is at the left wall and short of the right edge; otherwise the two moves cancel. It never leaves the band (−PLAYER_SPEED, SCREEN_WIDTH + PLAYER_SPEED). |
| `Ship.Shoot` | src/space_invaders_package/source/classes.py:139-151 | A bullet is fired iff space is pressed, now − last_shot > PLAYER_COOLDOWN and health > 0. It starts at (centerx, top) and sets last_shot = now. Otherwise nothing changes. |
| `Ship.CheckHealth` | src/space_invaders_package/source/classes.py:193-199 | At health ≤ 0 the ship leaves its group and its flag is set. A size-3 explosion at its centre appears only if the flag was clear. Above 0 nothing changes. |
| `Ship.Update` | src/space_invaders_package/source/classes.py:201-208 | One ship update: health is unchanged, at most one bullet and one explosion appear, a bullet appears iff the ship may fire, and the explosion appears iff health ≤ 0 and none was made before. A dead ship fires nothing and is out of its group. The bullet starts at the moved ship's (centerx, top), and the explosion sits at the moved ship's centre. |
| `Ship.ShotsSpaced` | src/space_invaders_package/source/classes.py:139-151 | Over any run of frames, successive shots are more than PLAYER_COOLDOWN ms apart. The first is more than PLAYER_COOLDOWN after the previous last_shot. last_shot ends at the latest shot. |
| `Ship.HealthOnlyFalls` | src/space_invaders_package/source/classes.py:143-151 | Over any run, health never rises, and a ship at health ≤ 0 never fires again. |
| `Ship.OneWreck` | src/space_invaders_package/source/classes.py:193-199 | Over any run, size-3 explosions made plus the starting flag equal the final flag, so at most one is ever made. Once health is ≤ 0 and an update has run, the ship is out of its group and the flag is set. |
| `Ship.StaysDown` | src/space_invaders_package/source/classes.py:193-199 | A ship at health ≤ 0 is out of its group after any non-empty run of updates, whatever damage follows. |
| `SpaceInvaders.Init` | src/space_invaders_package/source/classes.py:538-568 | Countdown 5, game_over 0, end_timer 0, last_count = last_alien_shot = now, ending music armed. The ship is at (300, 640) with health 3. There are 25 aliens, alien i a fresh alien centred on grid slot (100 + 100·(i mod 5), 100 + 70·(i div 5)), and every other group is empty. |
| `SpaceInvaders.MoveAll` | src/space_invaders_package/source/classes.py:643 | The alien group update keeps every alien in place in the group and moves each one by `Aliens.Move`. |
| `SpaceInvaders.BattleFlies` | src/space_invaders_package/source/classes.py:641-644 | In a playing frame the ship is exactly the ship `Ship.Fly` follows: its own update, then a non-negative damage from the alien bullets. So the ship run lemmas hold inside the game. |
| `SpaceInvaders.AliensFire` | src/space_invaders_package/source/classes.py:638-648 | Aliens fire only while playing, with aliens alive at the frame's start and the cooldown passed. A ship at health 0 never draws fire. A ship below 0 is treated as alive and is still shot at. |
| `SpaceInvaders.CountDown` | src/space_invaders_package/source/classes.py:706-709 | Once more than 1000 ms have passed since last_count, the countdown drops by one and last_count becomes now. Otherwise nothing changes. No other field is touched. |
| `SpaceInvaders.Battle` | src/space_invaders_package/source/classes.py:638-644 | The four group updates of a playing frame. Health falls by at most the number of alien bullets and never rises. A dead ship keeps its health and is out of its group. The alien count never rises, and a drop comes with a size-2 explosion. All new explosions are fresh, of size 1, 2 or 3. |
| `SpaceInvaders.PlayStep` | src/space_invaders_package/source/classes.py:613-715 | While counting down, the countdown drops by exactly 1 (and last_count becomes now) iff more than 1000 ms have passed. It never goes below 0. Only the explosions are updated, and end_timer = now. A playing frame keeps the countdown at 0. Its ship, bullets and aliens are those of the four group updates, and its explosions are the updated old ones followed by the new ones. It crashes iff aliens should fire but none are left after the updates. Firing adds one bullet at a live alien's (centerx, bottom) and refreshes both timers. A non-firing playing frame keeps both timers and ends iff now − end_timer > 3000. Health and alien count never grow; game_over is never written. The end-music flag only turns off, and only in a decided frame. A non-firing playing frame with no aliens at its start, or with health 0 after the updates, turns the end-music flag off in that same frame. |
| `GameRuns.Run` | src/space_invaders_package/main.py:15-19 | The game loop stops at the first frame that returns True or at the crash. An empty run changes nothing. A run ends only with at least one frame played, and only while playing. Over a run, health and the alien count never grow, and game_over is never written. |
| `GameRuns.RunStops` | src/space_invaders_package/main.py:15-19 | The loop breaks at the first True or at the crash. A run that crashes still crashes with more frames appended. A run that ended is unchanged by more frames. A run that has neither ended nor crashed continues from the state it reached. |
| `GameRuns.InitInv` | src/space_invaders_package/source/classes.py:538-544 | The initial state satisfies the reachable-state invariant. |
| `GameRuns.StepInv` | src/space_invaders_package/source/classes.py:613-715 | With a tick no earlier than the stored timestamps, a frame keeps the invariant. It covers the countdown range [0, 5], countdown pacing, last_alien_shot ≤ end_timer once playing, game_over = 0, health ≤ 3, at most 25 aliens, and valid explosions. |
| `GameRuns.EndsOnlyWhenDecided` | src/space_invaders_package/source/classes.py:646-690 | In a reachable state, play_step returns True only if no alien was alive at the frame's start or health is exactly 0. |
| `GameRuns.NegativeHealthNeverEnds` | src/space_invaders_package/source/classes.py:646-690 | In a reachable state with health < 0 and an alien alive, play_step never returns True. |
| `GameRuns.DecidedEnds` | src/space_invaders_package/source/classes.py:659-690 | Once playing with no aliens or health 0, aliens stop firing, end_timer and last_alien_shot are frozen, and the end-music flag is off. The state stays decided, and the frame ends the game iff now − end_timer > 3000. |
| `GameRuns.RunInv` | src/space_invaders_package/source/classes.py:613-715 | Over any run with non-decreasing ticks, every reached state satisfies the invariant. A run that ends does so in a decided state. |
| `GameRuns.GameFromStart` | src/space_invaders_package/source/classes.py:537-715 | From `__init__`, with ticks that never decrease: the countdown stays in [0, 5], health ≤ 3, at most 25 aliens, game_over = 0. Play starts no earlier than 5·1001 ms after start. The game ends only with all aliens gone or health exactly 0. |

## Left out

- Rendering: the background, sprite drawing, text, `display.update`, and the health bar's rectangles with their float ratio (classes.py:177-192). Only the bar's health test and kill are modelled.
- Audio: mixer initialisation, every `_play_sound`, and the explosion sound. The `ending_music` flag is kept as a one-shot flag.
- Image and font loading and scaling, `_update_mask`, and the random choice among three alien images. Sprite sizes are inputs (`SpaceInvaders.Looks`), and all aliens share one size. The explosion frame count is the constant 5.
- pygame's collision internals (`colliderect`, `collide_mask`). They are the `rectHit` and `maskHit` inputs.
- Event polling and the quit event, and `clock.tick` pacing. Time is a tick input per frame. Every `get_ticks()` call within one frame is taken to return the same value.
- `main.py`'s loop is modelled only as `GameRuns.Run` over a given finite list of frames. `pygame.init` and `pygame.quit` are left out.
- `random.choice` is modelled as `roll % |aliens|`. This covers every alien a uniform choice can return, but not the distribution.
- Aliens.Move: states that the direction stays ±1 only for a start direction of ±1, which holds in every reachable state (`Aliens.SwingForever`).
- Ship.Fly: the ship run lemmas (`ShotsSpaced`, `HealthOnlyFalls`, `OneWreck`, `StaysDown`) allow any non-negative damage per frame. This covers the health the alien bullets take in a playing frame (`SpaceInvaders.BattleFlies`). They do not restrict which damages can occur.
- SpaceInvaders.Battle: states the alien count and health bounds, not the aliens' positions. Positions are covered by `Aliens.Move` and the bullet members.
