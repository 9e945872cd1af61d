/** Bounding boxes as the rendering layer reports them, and the all-zero box
    that both the floor tracker and the gem collision detector fall back to
    while an element has not been measured yet. */
module Geometry {

  /** The four edges of an element's bounding client rectangle, in the
      page's coordinate space (y grows downwards). */
  datatype Rect = Rect(top: int, right: int, bottom: int, left: int)

  /** A measurement that may be missing (the element is not mounted yet). */
  datatype Option<T> = None | Some(value: T)

  /** The degenerate box used in place of a missing measurement. */
  const DefaultRect := Rect(0, 0, 0, 0)

  /** `measured ?? defaultRect`: the measured box, or the all-zero box. */
  function OrDefault(measured: Option<Rect>): (r: Rect)
    ensures measured.Some? ==> r == measured.value
    ensures measured.None? ==> r.top == 0 && r.right == 0 && r.bottom == 0 && r.left == 0
  {
    match measured
    case Some(box) => box
    case None => DefaultRect
  }

  /** A box whose horizontal extent is empty or inverted. */
  predicate FlatHorizontally(r: Rect) {
    r.right <= r.left
  }

  /** A box whose vertical extent is empty or inverted. */
  predicate FlatVertically(r: Rect) {
    r.bottom <= r.top
  }

  /** A box with a positive width and a positive height. */
  predicate Proper(r: Rect) {
    r.left < r.right && r.top < r.bottom
  }

  function Max(a: int, b: int): (m: int)
    ensures m >= a && m >= b && (m == a || m == b)
  {
    if a >= b then a else b
  }

  function Min(a: int, b: int): (m: int)
    ensures m <= a && m <= b && (m == a || m == b)
  {
    if a <= b then a else b
  }
}
