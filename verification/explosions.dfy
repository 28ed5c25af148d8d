/** The Explosion sprite: a five-frame animation that advances one frame every
    EXPLOSION_SPEED updates and removes itself after the last frame has been
    shown for EXPLOSION_SPEED updates. */
module Explosions {
  import opened Constants
  import opened Options

  /** `size` is the scaling class (1, 2 or 3); `index` the frame shown. */
  datatype Explosion = Explosion(cx: int, cy: int, size: int, index: int, counter: int)

  /** `Explosion(x, y, size)`: first frame, counter at zero. */
  function NewExplosion(cx: int, cy: int, size: int): (e: Explosion)
    ensures e.cx == cx && e.cy == cy && e.size == size
    ensures e.index == 0 && e.counter == 0
  {
    Explosion(cx, cy, size, 0, 0)
  }

  /** Frame and counter stay in their ranges. */
  predicate Valid(e: Explosion)
  {
    0 <= e.index < EXPLOSION_FRAMES && 0 <= e.counter <= EXPLOSION_SPEED
  }

  /** `Explosion.update`; `None` when the sprite kills itself. */
  function Update(e: Explosion): (r: Option<Explosion>)
    ensures r.Some? ==> r.value.cx == e.cx && r.value.cy == e.cy && r.value.size == e.size
    ensures r.Some? ==> e.index <= r.value.index <= e.index + 1
    ensures Valid(e) && r.Some? ==> Valid(r.value)
    ensures Valid(e) ==> (r.None? <==> e.index == EXPLOSION_FRAMES - 1 && e.counter + 1 >= EXPLOSION_SPEED)
    ensures r.Some? && r.value.index == e.index + 1 ==> r.value.counter == 0 && e.counter + 1 >= EXPLOSION_SPEED
  {
    var counter := e.counter + 1;
    var e1 :=
      if counter >= EXPLOSION_SPEED && e.index < EXPLOSION_FRAMES - 1 then
        e.(counter := 0, index := e.index + 1)
      else
        e.(counter := counter);
    if e1.index >= EXPLOSION_FRAMES - 1 && e1.counter >= EXPLOSION_SPEED then None else Some(e1)
  }

  /** The explosion after `n` updates, `None` once it has been removed. */
  function UpdateN(e: Explosion, n: nat): Option<Explosion>
  {
    if n == 0 then Some(e)
    else match UpdateN(e, n - 1)
      case None => None
      case Some(e') => Update(e')
  }

  /** Total number of updates an explosion lives through. */
  const LIFETIME: nat := EXPLOSION_FRAMES * EXPLOSION_SPEED

  /** Frame shown after `n` updates of a fresh explosion (for n < LIFETIME). */
  function FrameAt(n: nat): int
  {
    if n / EXPLOSION_SPEED < EXPLOSION_FRAMES - 1 then n / EXPLOSION_SPEED else EXPLOSION_FRAMES - 1
  }

  /** The animation timeline: after `n < LIFETIME` updates a fresh explosion
      shows frame `FrameAt(n)` with the counter at `n` minus the updates spent
      on earlier frames; the update numbered LIFETIME (15) removes it. */
  lemma {:induction false} Timeline(e: Explosion, n: nat)
    requires e.index == 0 && e.counter == 0
    requires n <= LIFETIME
    ensures n < LIFETIME ==> UpdateN(e, n) == Some(e.(index := FrameAt(n), counter := n - EXPLOSION_SPEED * FrameAt(n)))
    ensures n == LIFETIME ==> UpdateN(e, n) == None
  {
    if n > 0 {
      Timeline(e, n - 1);
    }
  }

  /** Once removed, an explosion never reappears; before LIFETIME updates it is
      still there. */
  lemma {:induction false} AliveExactlyUntil(e: Explosion, n: nat)
    requires e.index == 0 && e.counter == 0
    ensures UpdateN(e, n).Some? <==> n < LIFETIME
  {
    if n <= LIFETIME {
      Timeline(e, n);
    } else {
      AliveExactlyUntil(e, n - 1);
    }
  }

  /** `explosion_group.update()`: update every explosion, dropping the ones
      that remove themselves, keeping group order. */
  function UpdateAll(es: seq<Explosion>): (r: seq<Explosion>)
    ensures |r| <= |es|
    ensures (forall i :: 0 <= i < |es| ==> Valid(es[i])) ==> (forall i :: 0 <= i < |r| ==> Valid(r[i]))
    ensures forall x :: x in r ==> exists y :: y in es && Update(y) == Some(x)
    ensures forall i :: 0 <= i < |es| && Update(es[i]).Some? ==> Update(es[i]).value in r
    ensures |r| == |es| <==> forall i :: 0 <= i < |es| ==> Update(es[i]).Some?
  {
    if |es| == 0 then []
    else
      var rest := UpdateAll(es[1..]);
      match Update(es[0])
      case None => rest
      case Some(e) => [e] + rest
  }
}
