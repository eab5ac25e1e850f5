/** The stroke renderer: what a draw or erase primitive does to the raster surface.
    The raster itself stays abstract; the surface is recorded as the sequence of
    primitives applied to it. */
module Stroke {

  /** An axis-aligned rectangle as `clearRect` takes it: top-left corner, width, height. */
  datatype Rect = Rect(left: real, top: real, width: real, height: real)

  /** One primitive applied to the raster surface. */
  datatype RasterOp =
    | Line(x0: real, y0: real, x1: real, y1: real, color: string, size: real)
    | ClearRect(rect: Rect)
    | ClearAll

  /** Whether the point (px, py) lies in the rectangle (for a non-negative width and height). */
  predicate Covers(r: Rect, px: real, py: real) {
    r.left <= px <= r.left + r.width && r.top <= py <= r.top + r.height
  }

  /** The square an erase clears: side `size`, centred on the destination point (x1, y1). */
  function EraseRect(x1: real, y1: real, size: real): (r: Rect)
    ensures r.width == size && r.height == size
    ensures r.left + r.width / 2.0 == x1 && r.top + r.height / 2.0 == y1
  {
    Rect(x1 - size / 2.0, y1 - size / 2.0, size, size)
  }

  /** The primitive an erase applies; the origin point (x0, y0) is carried but not used. */
  function EraseOp(x0: real, y0: real, x1: real, y1: real, size: real): RasterOp {
    ClearRect(EraseRect(x1, y1, size))
  }

  /** Erasing depends on the destination point only: any two origins clear the same square. */
  lemma EraseIgnoresOrigin(x0: real, y0: real, x0': real, y0': real, x1: real, y1: real, size: real)
    ensures EraseOp(x0, y0, x1, y1, size) == EraseOp(x0', y0', x1, y1, size)
  {
  }

  /** For a non-negative size, the erased square holds exactly the points within size/2 of
      the destination point along each axis. */
  lemma EraseRectCovers(x1: real, y1: real, size: real, px: real, py: real)
    requires size >= 0.0
    ensures Covers(EraseRect(x1, y1, size), px, py) <==>
            (x1 - size / 2.0 <= px <= x1 + size / 2.0 && y1 - size / 2.0 <= py <= y1 + size / 2.0)
  {
  }
}
