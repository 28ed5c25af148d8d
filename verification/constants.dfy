/** The configuration table of the game (constants.py), plus the literal
    numbers that classes.py writes inline. Colours and the frame rate only
    matter for rendering and pacing, which this model leaves out. */
module Constants {

  const FPS: int := 90

  const SCREEN_WIDTH: int := 600
  const SCREEN_HEIGHT: int := 800

  const ROW_OF_ENEMIES: int := 5
  const COLUMN_OF_ENEMIES: int := 5

  const PLAYER_COOLDOWN: int := 300
  const PLAYER_START_HEALTH: int := 3
  const PLAYER_SPEED: int := 5
  const PLAYER_BULLET_SPEED: int := 5

  const ENEMY_BULLET_SPEED: int := 4
  const ALIEN_COOLDOWN: int := 1000

  const EXPLOSION_SPEED: int := 3

  const GAME_COOLDOWN: int := 5

  /** Number of animation frames of an explosion (exp1.png .. exp5.png). */
  const EXPLOSION_FRAMES: int := 5

  /** An alien reverses once |move_counter| exceeds this. */
  const ALIEN_SWING: int := 75

  /** Milliseconds between two countdown decrements must exceed this. */
  const COUNTDOWN_TICK: int := 1000

  /** Milliseconds the end screen is shown before play_step reports the end. */
  const END_DELAY: int := 3000

  /** A player bullet is removed once its top is above this line. */
  const PLAYER_BULLET_LIMIT: int := -10

  /** An alien bullet is removed once its bottom is below this line. */
  const ALIEN_BULLET_LIMIT: int := SCREEN_HEIGHT + 10

  /** Explosion size classes used by the three kinds of destruction. */
  const HIT_ON_SHIP_SIZE: int := 1
  const ALIEN_DOWN_SIZE: int := 2
  const SHIP_DOWN_SIZE: int := 3

  /** Centre of the top-left alien and the spacing of the alien grid. */
  const GRID_LEFT: int := 100
  const GRID_TOP: int := 100
  const GRID_DX: int := 100
  const GRID_DY: int := 70

  /** Initial health handed to the Spaceship constructor by the game. */
  const SHIP_INITIAL_HEALTH: int := 3
}
