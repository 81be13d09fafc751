/** Clamping an overlay's geometry to the video frame. */
module OverlayConstraint {
  import opened Entities

  const MinSize: real := 0.05

  /** The frame invariant: a size in [0.05, 1] and the box inside the unit square. */
  ghost predicate InBounds(g: OverlayGeometry) {
    && MinSize <= g.width <= 1.0 && MinSize <= g.height <= 1.0
    && 0.0 <= g.x && g.x + g.width <= 1.0
    && 0.0 <= g.y && g.y + g.height <= 1.0
  }

  /** `constrainOverlay`: position clamped against the size as given, size
      clamped to [0.05, 1]; each axis independent of the other. */
  function ConstrainOverlay(g: OverlayGeometry): (r: OverlayGeometry)
    ensures MinSize <= r.width <= 1.0 && MinSize <= r.height <= 1.0
    ensures 0.0 <= r.x <= Max(0.0, 1.0 - g.width)
    ensures 0.0 <= r.y <= Max(0.0, 1.0 - g.height)
    ensures r.x + r.width <= 1.0 <==> (g.width >= MinSize || g.x <= 1.0 - MinSize)
    ensures r.y + r.height <= 1.0 <==> (g.height >= MinSize || g.y <= 1.0 - MinSize)
  {
    OverlayGeometry(
      Max(0.0, Min(g.x, 1.0 - g.width)),
      Max(0.0, Min(g.y, 1.0 - g.height)),
      Max(MinSize, Min(g.width, 1.0)),
      Max(MinSize, Min(g.height, 1.0)))
  }

  /** A geometry already inside the frame is left as it is; hence the clamp is
      idempotent on such geometries. */
  lemma ConstrainFixesInBounds(g: OverlayGeometry)
    requires InBounds(g)
    ensures ConstrainOverlay(g) == g
  {
  }

  /** With an input size in [0.05, 1] the result satisfies the whole frame invariant. */
  lemma ConstrainInBounds(g: OverlayGeometry)
    requires MinSize <= g.width <= 1.0 && MinSize <= g.height <= 1.0
    ensures InBounds(ConstrainOverlay(g))
  {
  }

  /** The invariant is not reached for every input: a box at x = 0.99 with width
      0.01 grows to width 0.05 but keeps x, ending past the right edge. */
  lemma TinyWidthEscapesFrame()
    ensures var r := ConstrainOverlay(OverlayGeometry(0.99, 0.0, 0.01, 0.5));
            r.x == 0.99 && r.width == 0.05 && r.x + r.width > 1.0
  {
  }

  /** The horizontal result depends only on x and width, the vertical only on y and height. */
  lemma AxesIndependent(g: OverlayGeometry, h: OverlayGeometry)
    ensures g.x == h.x && g.width == h.width ==>
              ConstrainOverlay(g).x == ConstrainOverlay(h).x && ConstrainOverlay(g).width == ConstrainOverlay(h).width
    ensures g.y == h.y && g.height == h.height ==>
              ConstrainOverlay(g).y == ConstrainOverlay(h).y && ConstrainOverlay(g).height == ConstrainOverlay(h).height
  {
  }
}
