/** The parts of `pygame.Rect` the widgets rely on, on integer coordinates. */
module Geometry {

  datatype Point = Point(x: int, y: int)

  /** `pygame.Rect(x, y, w, h)`. */
  datatype Rect = Rect(x: int, y: int, w: int, h: int)

  /** `rect.collidepoint(p)`: the left and top edges are inside, the right
      and bottom edges are not. */
  predicate CollidePoint(r: Rect, p: Point) {
    r.x <= p.x < r.x + r.w && r.y <= p.y < r.y + r.h
  }

  /** `outer.contains(inner)`: `inner` lies within `outer`, edges included.
      pygame also asks that `inner`'s corner lie strictly before `outer`'s
      right and bottom edges, which rules out an empty `outer` and an empty
      `inner` sitting on those edges. */
  predicate Contains(outer: Rect, inner: Rect) {
    && outer.x <= inner.x && inner.x + inner.w <= outer.x + outer.w
    && outer.y <= inner.y && inner.y + inner.h <= outer.y + outer.h
    && inner.x < outer.x + outer.w && inner.y < outer.y + outer.h
  }

  /** `rect.move(dx, dy)`: a copy shifted by the offset. */
  function Move(r: Rect, dx: int, dy: int): (m: Rect)
    ensures m.w == r.w && m.h == r.h
  {
    Rect(r.x + dx, r.y + dy, r.w, r.h)
  }

  /** Moving back by the opposite offset restores the rectangle. */
  lemma MoveBack(r: Rect, dx: int, dy: int)
    ensures Move(Move(r, dx, dy), -dx, -dy) == r
  {
  }
}
