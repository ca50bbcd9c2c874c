/** Responsive layout of the projects canvas: a breakpoint picks the mobile
    or desktop sizes, every size is a share of the canvas clamped from
    below, and the falling rectangle and its stand are placed from them. */
module ProjectsLayout {
  import opened Common

  const MaxCanvasHeight: real := 300.0

  /** Canvas size used when rendering without a window (on the server). */
  const ServerCanvas: Viewport := Viewport(1200.0, 800.0)

  datatype Sizes = Sizes(rectWidth: real, rectHeight: real, standWidth: real, standHeight: real, rectY: real)

  /** `v` is the larger of `a` and `b`. */
  predicate IsMaxOf(v: real, a: real, b: real) {
    v >= a && v >= b && (v == a || v == b)
  }

  /** The object sizes for a canvas of `width` x `height`. */
  function ResponsiveSizes(width: real, height: real): (r: Sizes)
    ensures IsMobileWidth(width) ==>
      && IsMaxOf(r.rectWidth, width * 0.7, 120.0)
      && IsMaxOf(r.rectHeight, height * 0.18, 60.0)
      && IsMaxOf(r.standWidth, width * 0.85, 120.0)
      && IsMaxOf(r.standHeight, height * 0.07, 32.0)
      && IsMaxOf(r.rectY, height * 0.12, 40.0)
    ensures !IsMobileWidth(width) ==>
      && IsMaxOf(r.rectWidth, width * 0.5, 1200.0)
      && IsMaxOf(r.rectHeight, height * 0.22, 800.0)
      && IsMaxOf(r.standWidth, width * 0.7, 500.0)
      && IsMaxOf(r.standHeight, height * 0.09, 60.0)
      && IsMaxOf(r.rectY, height * 0.18, 100.0)
  {
    if IsMobileWidth(width) then
      Sizes(Max(width * 0.7, 120.0), Max(height * 0.18, 60.0), Max(width * 0.85, 120.0),
            Max(height * 0.07, 32.0), Max(height * 0.12, 40.0))
    else
      Sizes(Max(width * 0.5, 1200.0), Max(height * 0.22, 800.0), Max(width * 0.7, 500.0),
            Max(height * 0.09, 60.0), Max(height * 0.18, 100.0))
  }

  /** Within one mode, a larger canvas never gets smaller objects. */
  lemma SizesMonotone(w1: real, h1: real, w2: real, h2: real)
    requires IsMobileWidth(w1) == IsMobileWidth(w2)
    requires w1 <= w2 && h1 <= h2
    ensures var a, b := ResponsiveSizes(w1, h1), ResponsiveSizes(w2, h2);
      && a.rectWidth <= b.rectWidth && a.rectHeight <= b.rectHeight
      && a.standWidth <= b.standWidth && a.standHeight <= b.standHeight
      && a.rectY <= b.rectY
  {
  }

  /** The rectangle's width grows with the canvas even across the
      breakpoint: the mobile width stays below 420, the desktop one starts
      at 1200. */
  lemma RectWidthMonotone(w1: real, h1: real, w2: real, h2: real)
    requires w1 <= w2
    ensures ResponsiveSizes(w1, h1).rectWidth <= ResponsiveSizes(w2, h2).rectWidth
  {
  }

  /** The stand's width does not: it shrinks when the width crosses the
      breakpoint, from 0.85 x 599 = 509.15 down to 500. */
  lemma StandWidthDropsAtBreakpoint(h: real)
    ensures ResponsiveSizes(599.0, h).standWidth > ResponsiveSizes(600.0, h).standWidth
  {
  }

  /** The canvas: the window width, and the window height capped at 300 on
      mobile; a fixed 1200 x 800 without a window. The resize handler
      computes the same size from the new window. */
  function CanvasSize(window: Option<Viewport>): (c: Viewport)
    ensures window.None? ==> c == ServerCanvas
    ensures window.Some? ==> c.width == window.value.width
    ensures window.Some? && IsMobileWidth(window.value.width) ==>
      && c.height <= MaxCanvasHeight && c.height <= window.value.height
      && (c.height == MaxCanvasHeight || c.height == window.value.height)
    ensures window.Some? && !IsMobileWidth(window.value.width) ==> c.height == window.value.height
  {
    match window
    case None => ServerCanvas
    case Some(vp) =>
      Viewport(vp.width, if IsMobileWidth(vp.width) then Min(vp.height, MaxCanvasHeight) else vp.height)
  }

  /** The two bodies of the scene: the falling rectangle and the static stand. */
  datatype Placement = Placement(rect: Box, stand: Box)

  function Place(canvas: Viewport): (p: Placement)
    ensures var z := ResponsiveSizes(canvas.width, canvas.height);
      && p.rect.width == z.rectWidth && p.rect.height == z.rectHeight
      && p.stand.width == z.standWidth && p.stand.height == z.standHeight
      // the rectangle starts horizontally centred, at height rectY
      && 2.0 * p.rect.center.x == canvas.width && p.rect.center.y == z.rectY
      // the stand is centred and its bottom edge lies on the canvas bottom
      && 2.0 * p.stand.center.x == canvas.width
      && p.stand.Bottom() == canvas.height
      && p.stand.Top() == canvas.height - z.standHeight
  {
    var z := ResponsiveSizes(canvas.width, canvas.height);
    Placement(Box(Point(canvas.width / 2.0, z.rectY), z.rectWidth, z.rectHeight),
              Box(Point(canvas.width / 2.0, canvas.height - z.standHeight / 2.0), z.standWidth, z.standHeight))
  }

  /** On a desktop window narrower than 1200 pixels the rectangle is wider
      than the canvas. */
  lemma DesktopRectOverflows(vp: Viewport)
    requires MobileBreakpoint <= vp.width < 1200.0
    ensures Place(CanvasSize(Some(vp))).rect.width > CanvasSize(Some(vp)).width
  {
  }

  /** On mobile the whole scene fits in a canvas at most 300 pixels high,
      and the stand is at least 32 pixels high. */
  lemma MobileCanvasBounds(vp: Viewport)
    requires IsMobileWidth(vp.width)
    ensures var c := CanvasSize(Some(vp));
      c.height <= MaxCanvasHeight && Place(c).stand.height >= 32.0
  {
  }
}
