/** The demo's rectangle record (demo/rect.h); Rect(0, 0, 0, 0) is its default value. */
module Rects {
  datatype Rect = Rect(x: int, y: int, w: int, h: int)

  /** The default-constructed rectangle. */
  const EmptyRect: Rect := Rect(0, 0, 0, 0)
}
