/** Small shared vocabulary: optional values, results, points and axis-aligned
    boxes described the way the physics engine describes rectangles (by their
    centre, width and height). */
module Common {

  /** A value that may be absent: JavaScript's `undefined` / `null`. */
  datatype Option<+T> = None | Some(value: T)

  /** The outcome of an operation that may throw. */
  datatype Result<+T, +E> = Ok(value: T) | Err(error: E)

  /** A point in viewport pixels; y grows downwards. */
  datatype Point = Point(x: real, y: real)

  /** A viewport (`window.innerWidth` x `window.innerHeight`). */
  datatype Viewport = Viewport(width: real, height: real)

  /** A rectangle given by its centre and its extent, as
      `Matter.Bodies.rectangle(x, y, width, height)` takes it. */
  datatype Box = Box(center: Point, width: real, height: real) {
    function Left(): real { center.x - width / 2.0 }
    function Right(): real { center.x + width / 2.0 }
    function Top(): real { center.y - height / 2.0 }
    function Bottom(): real { center.y + height / 2.0 }
  }

  function Min(a: real, b: real): real { if a <= b then a else b }

  function Max(a: real, b: real): real { if a >= b then a else b }

  function Abs(a: real): real { if a >= 0.0 then a else -a }

  /** Below this width (in pixels) the layouts switch to their mobile sizes. */
  const MobileBreakpoint: real := 600.0

  predicate IsMobileWidth(width: real) {
    width < MobileBreakpoint
  }
}
