/** Integer rectangles with the accessors of pygame.Rect that the game reads
    or writes: left/top corner, width and height, the derived right, bottom
    and centre, and placement by centre. */
module Rects {

  /** Width and height of a sprite's image. */
  datatype Dims = Dims(w: nat, h: nat)

  datatype Rect = Rect(x: int, y: int, w: nat, h: nat) {

    function Left(): int { x }
    function Top(): int { y }
    function Right(): int { x + w }
    function Bottom(): int { y + h }
    function CenterX(): int { x + w / 2 }
    function CenterY(): int { y + h / 2 }

    /** `rect.x += dx` */
    function ShiftX(dx: int): Rect {
      this.(x := x + dx)
    }

    /** `rect.y += dy` */
    function ShiftY(dy: int): Rect {
      this.(y := y + dy)
    }
  }

  /** `image.get_rect()` followed by `rect.center = (cx, cy)`. */
  function CenteredAt(cx: int, cy: int, d: Dims): (r: Rect)
    ensures r.w == d.w && r.h == d.h
    ensures r.CenterX() == cx && r.CenterY() == cy
    ensures cx - r.w <= r.Left() <= cx && cy - r.h <= r.Top() <= cy
  {
    Rect(cx - d.w / 2, cy - d.h / 2, d.w, d.h)
  }
}
