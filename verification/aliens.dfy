/** The Alien sprite: a rectangle that swings left and right around its
    spawn column, and the grid of aliens the game spawns at start-up. */
module Aliens {
  import opened Constants
  import opened Rects

  datatype Alien = Alien(rect: Rect, moveCounter: int, moveDirection: int)

  function Abs(n: int): nat { if n < 0 then -n else n }

  /** `Alien(x, y)`: centred on (cx, cy), counter 0, heading right. */
  function NewAlien(cx: int, cy: int, d: Dims): (a: Alien)
    ensures a.rect.CenterX() == cx && a.rect.CenterY() == cy
    ensures a.rect.w == d.w && a.rect.h == d.h
    ensures a.moveCounter == 0 && a.moveDirection == 1
  {
    Alien(CenteredAt(cx, cy, d), 0, 1)
  }

  /** `Alien._movement`: step one pixel in the current direction, count the
      step, and reverse once the counter's magnitude passes ALIEN_SWING. */
  function Move(a: Alien): (r: Alien)
    ensures r.rect == a.rect.ShiftX(a.moveDirection)
    ensures (a.moveDirection == 1 || a.moveDirection == -1) ==>
              (r.moveDirection == 1 || r.moveDirection == -1)
    ensures (a.moveDirection == 1 || a.moveDirection == -1) ==>
              && (r.moveDirection != a.moveDirection <==> Abs(a.moveCounter + 1) > ALIEN_SWING)
              && Abs(r.moveCounter) == Abs(a.moveCounter + 1)
    ensures Abs(a.moveCounter + 1) <= ALIEN_SWING ==>
              r.moveCounter == a.moveCounter + 1 && r.moveDirection == a.moveDirection
    ensures Abs(a.moveCounter + 1) > ALIEN_SWING ==>
              r.moveDirection == -a.moveDirection && r.moveCounter == (a.moveCounter + 1) * r.moveDirection
  {
    var counter := a.moveCounter + 1;
    var moved := a.(rect := a.rect.ShiftX(a.moveDirection), moveCounter := counter);
    if Abs(counter) > ALIEN_SWING then
      var dir := a.moveDirection * -1;
      moved.(moveDirection := dir, moveCounter := counter * dir)
    else
      moved
  }

  /** The alien after `n` calls of `update`. */
  function MoveN(a: Alien, n: nat): Alien
  {
    if n == 0 then a else Move(MoveN(a, n - 1))
  }

  /** The set of (offset from the spawn x, counter, direction) triples that
      an alien visits: closed under `Move` (SwingStep), and every member is
      reached from spawn (SwingReached).  Heading right the offset equals the counter,
      heading left it is the counter's negation, and the turn at the left end
      passes through two extra states because the counter is multiplied by
      the new direction after the flip. */
  predicate InSwing(a: Alien, x0: int)
  {
    var off := a.rect.x - x0;
    var c := a.moveCounter;
    || (a.moveDirection == 1 && off == c && -(ALIEN_SWING + 1) <= c <= ALIEN_SWING)
    || (a.moveDirection == -1 && off == -c && -(ALIEN_SWING + 1) <= c <= ALIEN_SWING)
    || (a.moveDirection == 1 && off == -(ALIEN_SWING + 1) && c == ALIEN_SWING + 1)
    || (a.moveDirection == -1 && off == -ALIEN_SWING && c == -(ALIEN_SWING + 2))
  }

  /** One step keeps an alien inside its swing. */
  lemma SwingStep(a: Alien, x0: int)
    requires InSwing(a, x0)
    ensures InSwing(Move(a), x0)
  {
  }

  /** From spawn, an alien stays within 76 pixels of its spawn column, its
      counter within 77, its direction is always +1 or -1, and it never
      changes row or size. */
  lemma {:induction false} SwingForever(a: Alien, n: nat)
    requires a.moveCounter == 0 && a.moveDirection == 1
    ensures InSwing(MoveN(a, n), a.rect.x)
    ensures var b := MoveN(a, n);
            && a.rect.x - (ALIEN_SWING + 1) <= b.rect.x <= a.rect.x + ALIEN_SWING + 1
            && Abs(b.moveCounter) <= ALIEN_SWING + 2
            && (b.moveDirection == 1 || b.moveDirection == -1)
            && b.rect.y == a.rect.y && b.rect.w == a.rect.w && b.rect.h == a.rect.h
  {
    if n > 0 {
      SwingForever(a, n - 1);
      SwingStep(MoveN(a, n - 1), a.rect.x);
    }
  }

  /** Offset from the spawn x, move counter and direction of an alien. */
  datatype Pose = Pose(off: int, counter: int, dir: int)

  /** The alien `a` moved to pose `p` relative to spawn column `x0`. */
  function Posed(a: Alien, x0: int, p: Pose): Alien
  {
    a.(rect := a.rect.(x := x0 + p.off), moveCounter := p.counter, moveDirection := p.dir)
  }

  /** The pose after `n` updates of a fresh alien, in closed form.  The first
      76 updates move right.  From then on a cycle of 306 updates repeats:
      152 to the left (turning at update 76), one right (228), one left (229),
      and 152 to the right (turning at 230), so the alien jitters by one pixel
      at the left end. */
  function PoseAt(n: nat): Pose
  {
    if n < 76 then Pose(n, n, 1)
    else
      var m := 76 + (n - 76) % 306;
      if m < 228 then Pose(152 - m, m - 152, -1)
      else if m == 228 then Pose(-76, 76, 1)
      else if m == 229 then Pose(-75, -77, -1)
      else Pose(m - 306, m - 306, 1)
  }

  /** The position in the cycle advances by one per update and wraps after
      306 updates. */
  lemma CycleStep(n: nat)
    requires n >= 77
    ensures (n - 77) % 306 < 305 ==> (n - 76) % 306 == (n - 77) % 306 + 1
    ensures (n - 77) % 306 == 305 ==> (n - 76) % 306 == 0
  {
  }

  /** After `n` updates a fresh alien is exactly at `PoseAt(n)`. */
  lemma {:induction false} SwingTimeline(a: Alien, n: nat)
    requires a.moveCounter == 0 && a.moveDirection == 1
    ensures MoveN(a, n) == Posed(a, a.rect.x, PoseAt(n))
  {
    if n > 0 {
      SwingTimeline(a, n - 1);
      if n >= 77 {
        CycleStep(n);
      }
    }
  }

  /** Adding one cycle does not move the position in the cycle. */
  lemma CycleShift(k: nat)
    ensures (k + 306) % 306 == k % 306
  {
  }

  /** Once the first right ramp is over, the swing repeats every 306
      updates. */
  lemma SwingPeriod(a: Alien, n: nat)
    requires a.moveCounter == 0 && a.moveDirection == 1
    requires n >= 76
    ensures MoveN(a, n + 306) == MoveN(a, n)
  {
    SwingTimeline(a, n);
    SwingTimeline(a, n + 306);
    CycleShift(n - 76);
    assert PoseAt(n + 306) == PoseAt(n);
  }

  /** The direction reverses exactly on updates 76, 228, 229 and 230 of each
      cycle: 76, 228, 229, 230, 382, 534, 535, 536, ... */
  lemma SwingTurns(a: Alien, n: nat)
    requires a.moveCounter == 0 && a.moveDirection == 1
    requires n >= 1
    ensures (MoveN(a, n).moveDirection != MoveN(a, n - 1).moveDirection)
            <==> (n >= 76 && (n - 76) % 306 in {0, 152, 153, 154})
  {
    SwingTimeline(a, n);
    SwingTimeline(a, n - 1);
    if n >= 77 {
      CycleStep(n);
    }
  }

  /** Every state of `InSwing` is visited: a fresh alien reaches each one
      within its first 382 updates. */
  lemma SwingReached(a: Alien, b: Alien)
    requires a.moveCounter == 0 && a.moveDirection == 1
    requires b.rect == a.rect.(x := b.rect.x)
    requires InSwing(b, a.rect.x)
    ensures exists n: nat :: MoveN(a, n) == b
  {
    var off := b.rect.x - a.rect.x;
    var c := b.moveCounter;
    var n: nat :=
      if b.moveDirection == 1 && off == c && c < 0 then c + 306
      else if b.moveDirection == 1 && off == c then c
      else if b.moveDirection == -1 && off == -c && c >= -ALIEN_SWING - 1 && c <= ALIEN_SWING then c + 152
      else if b.moveDirection == 1 then 228
      else 229;
    SwingTimeline(a, n);
    assert MoveN(a, n) == b;
  }

  /** Centre of grid slot `i` in the spawn order (row-major, 5 per row). */
  function SlotX(i: nat): int { GRID_LEFT + (i % COLUMN_OF_ENEMIES) * GRID_DX }
  function SlotY(i: nat): int { GRID_TOP + (i / COLUMN_OF_ENEMIES) * GRID_DY }

  /** The aliens `_spawn_aliens` adds, in the order it adds them. */
  function Formation(d: Dims): seq<Alien>
  {
    seq(ROW_OF_ENEMIES * COLUMN_OF_ENEMIES, i requires 0 <= i => NewAlien(SlotX(i), SlotY(i), d))
  }

  lemma SlotOf(row: nat, item: nat)
    requires item < COLUMN_OF_ENEMIES
    ensures SlotX(row * COLUMN_OF_ENEMIES + item) == GRID_LEFT + item * GRID_DX
    ensures SlotY(row * COLUMN_OF_ENEMIES + item) == GRID_TOP + row * GRID_DY
  {
  }

  /** `_spawn_aliens`: one alien per (row, column) pair, row by row. */
  method SpawnAliens(d: Dims) returns (aliens: seq<Alien>)
    ensures |aliens| == ROW_OF_ENEMIES * COLUMN_OF_ENEMIES
    ensures forall i :: 0 <= i < |aliens| ==>
              && aliens[i].rect.CenterX() == GRID_LEFT + (i % COLUMN_OF_ENEMIES) * GRID_DX
              && aliens[i].rect.CenterY() == GRID_TOP + (i / COLUMN_OF_ENEMIES) * GRID_DY
              && aliens[i].moveCounter == 0 && aliens[i].moveDirection == 1
    ensures forall i, j :: 0 <= i < j < |aliens| ==>
              aliens[i].rect.CenterX() != aliens[j].rect.CenterX()
              || aliens[i].rect.CenterY() != aliens[j].rect.CenterY()
    ensures aliens == Formation(d)
  {
    aliens := [];
    var row := 0;
    while row < ROW_OF_ENEMIES
      invariant 0 <= row <= ROW_OF_ENEMIES
      invariant |aliens| == row * COLUMN_OF_ENEMIES
      invariant forall i :: 0 <= i < |aliens| ==> aliens[i] == NewAlien(SlotX(i), SlotY(i), d)
    {
      var item := 0;
      while item < COLUMN_OF_ENEMIES
        invariant 0 <= item <= COLUMN_OF_ENEMIES
        invariant |aliens| == row * COLUMN_OF_ENEMIES + item
        invariant forall i :: 0 <= i < |aliens| ==> aliens[i] == NewAlien(SlotX(i), SlotY(i), d)
      {
        SlotOf(row, item);
        aliens := aliens + [NewAlien(GRID_LEFT + item * GRID_DX, GRID_TOP + row * GRID_DY, d)];
        item := item + 1;
      }
      row := row + 1;
    }
  }
}
