/** Properties of whole games: what holds in every state `play_step` can reach
    from `__init__` when the clock never runs backwards, and when the game
    can and cannot report that it has ended. */
module GameRuns {
  import opened Constants
  import opened Explosions
  import opened Ship
  import opened SpaceInvaders

  /** The invariant of reachable states.  `t0` is the tick at `__init__`. */
  predicate Inv(g: Game, t0: int)
  {
    && 0 <= g.countdown <= GAME_COOLDOWN
    // each countdown step needed more than COUNTDOWN_TICK ms since the previous one
    && g.lastCount >= t0 + (COUNTDOWN_TICK + 1) * (GAME_COOLDOWN - g.countdown)
    // once play has started, end_timer is never older than the last alien shot
    && (g.countdown == 0 ==> g.lastAlienShot <= g.endTimer)
    && g.gameOver == 0
    && g.ship.health <= SHIP_INITIAL_HEALTH
    && |g.aliens| <= ROW_OF_ENEMIES * COLUMN_OF_ENEMIES
    && (forall i :: 0 <= i < |g.explosions| ==> Valid(g.explosions[i]))
  }

  /** The timestamps the game keeps are not later than `clock`. */
  predicate Stamped(g: Game, clock: int)
  {
    g.lastCount <= clock && g.lastAlienShot <= clock
  }

  lemma InitInv(t0: int, looks: Looks)
    ensures Inv(Init(t0, looks), t0) && Stamped(Init(t0, looks), t0)
  {
  }

  /** One frame at a tick no earlier than the stored timestamps keeps the
      invariant. */
  lemma StepInv(g: Game, inp: Input, t0: int)
    requires Inv(g, t0) && Stamped(g, inp.now)
    ensures PlayStep(g, inp).Frame? ==>
              Inv(PlayStep(g, inp).game, t0) && Stamped(PlayStep(g, inp).game, inp.now)
  {
  }

  /** In a reachable state, a frame reports the end of the game only when no
      alien is left or the ship's health is exactly zero: while aliens remain
      and health is non-zero, every frame that does not fire is within
      ALIEN_COOLDOWN of the last shot, hence of end_timer. */
  lemma EndsOnlyWhenDecided(g: Game, inp: Input, t0: int)
    requires Inv(g, t0)
    ensures PlayStep(g, inp).Frame? && PlayStep(g, inp).ended ==>
              |g.aliens| == 0 || PlayStep(g, inp).game.ship.health == 0
  {
  }

  /** A health below zero (two hits in one frame from health 1) is never
      taken for a loss: while an alien is alive such a game never ends. */
  lemma NegativeHealthNeverEnds(g: Game, inp: Input, t0: int)
    requires Inv(g, t0) && g.ship.health < 0 && |g.aliens| > 0
    ensures PlayStep(g, inp).Frame? ==> !PlayStep(g, inp).ended
  {
  }

  /** Once no alien is left or health is zero, no more alien bullets are fired,
      end_timer is frozen, the end sound flag is off, the state stays decided,
      and the frame ends the game exactly when more than END_DELAY ms have
      passed since end_timer. */
  lemma DecidedEnds(g: Game, inp: Input)
    requires g.countdown == 0 && (|g.aliens| == 0 || g.ship.health == 0)
    ensures PlayStep(g, inp).Frame?
    ensures var r := PlayStep(g, inp).game;
            && r.endTimer == g.endTimer && r.lastAlienShot == g.lastAlienShot && !r.endingMusic
            && r.countdown == 0
            && (|r.aliens| == 0 || r.ship.health == 0)
    ensures PlayStep(g, inp).ended <==> inp.now - g.endTimer > END_DELAY
  {
  }

  // ------------------------------------------------------------------ runs

  /** `main.py`'s loop over a given sequence of frames: stop at the first frame
      that reports the end, or at the crash. */
  function Run(g: Game, inputs: seq<Input>): (r: Outcome)
    ensures |inputs| == 0 ==> r == Frame(g, false)
    ensures r.Frame? && r.ended ==> |inputs| > 0 && r.game.countdown == 0
    // Over the whole run health and the alien count never grow, and game_over is never written.
    ensures r.Frame? ==>
              && r.game.ship.health <= g.ship.health && |r.game.aliens| <= |g.aliens|
              && r.game.gameOver == g.gameOver && r.game.looks == g.looks
    decreases |inputs|
  {
    if |inputs| == 0 then Frame(g, false)
    else
      match PlayStep(g, inputs[0])
      case ChoiceFromEmpty => ChoiceFromEmpty
      case Frame(g', ended) => if ended then Frame(g', true) else Run(g', inputs[1..])
  }

  /** The loop stops at the first frame that reports the end, or at the
      crash: frames after that point are never played, and a run that has
      neither ended nor crashed carries on from the state it reached. */
  lemma {:induction false} RunStops(g: Game, inputs: seq<Input>, more: seq<Input>)
    ensures Run(g, inputs).ChoiceFromEmpty? ==> Run(g, inputs + more).ChoiceFromEmpty?
    ensures Run(g, inputs).Frame? && Run(g, inputs).ended ==> Run(g, inputs + more) == Run(g, inputs)
    ensures Run(g, inputs).Frame? && !Run(g, inputs).ended ==>
              Run(g, inputs + more) == Run(Run(g, inputs).game, more)
    decreases |inputs|
  {
    if |inputs| > 0 {
      assert (inputs + more)[0] == inputs[0];
      assert (inputs + more)[1..] == inputs[1..] + more;
      var r := PlayStep(g, inputs[0]);
      if r.Frame? && !r.ended {
        RunStops(r.game, inputs[1..], more);
      }
    } else {
      assert inputs + more == more;
    }
  }

  /** The frames' ticks never decrease and start no earlier than `clock`. */
  predicate Ticking(inputs: seq<Input>, clock: int)
  {
    && (|inputs| > 0 ==> clock <= inputs[0].now)
    && (forall i :: 0 < i < |inputs| ==> inputs[i - 1].now <= inputs[i].now)
  }

  /** Every state a run reaches satisfies the invariant, and a run only ends
      in a decided state. */
  lemma {:induction false} RunInv(g: Game, inputs: seq<Input>, t0: int, clock: int)
    requires Inv(g, t0) && Stamped(g, clock) && Ticking(inputs, clock)
    ensures Run(g, inputs).Frame? ==> Inv(Run(g, inputs).game, t0)
    ensures Run(g, inputs).Frame? && Run(g, inputs).ended ==>
              |Run(g, inputs).game.aliens| == 0 || Run(g, inputs).game.ship.health == 0
    decreases |inputs|
  {
    if |inputs| > 0 {
      var r := PlayStep(g, inputs[0]);
      StepInv(g, inputs[0], t0);
      EndsOnlyWhenDecided(g, inputs[0], t0);
      if r.Frame? && !r.ended {
        assert Ticking(inputs[1..], inputs[0].now) by {
          forall i | 0 < i < |inputs[1..]|
            ensures inputs[1..][i - 1].now <= inputs[1..][i].now
          {
            assert inputs[1..][i - 1] == inputs[i] && inputs[1..][i] == inputs[i + 1];
          }
        }
        RunInv(r.game, inputs[1..], t0, inputs[0].now);
      }
    }
  }

  /** The whole game from `__init__` at tick t0: the countdown stays in
      [0, GAME_COOLDOWN], health never exceeds its start value, at most 25
      aliens exist, play (countdown 0) never starts before
      GAME_COOLDOWN * (COUNTDOWN_TICK + 1) ms have passed, and the game ends
      only with every alien gone or health exactly zero. */
  lemma {:induction false} GameFromStart(t0: int, looks: Looks, inputs: seq<Input>)
    requires Ticking(inputs, t0)
    ensures var r := Run(Init(t0, looks), inputs);
            r.Frame? ==>
              && 0 <= r.game.countdown <= GAME_COOLDOWN
              && r.game.ship.health <= SHIP_INITIAL_HEALTH
              && |r.game.aliens| <= ROW_OF_ENEMIES * COLUMN_OF_ENEMIES
              && r.game.gameOver == 0
              && (r.game.countdown == 0 ==> r.game.lastCount >= t0 + GAME_COOLDOWN * (COUNTDOWN_TICK + 1))
              && (r.ended ==> |r.game.aliens| == 0 || r.game.ship.health == 0)
  {
    InitInv(t0, looks);
    RunInv(Init(t0, looks), inputs, t0, t0);
  }
}
