/** Geometry of the ball-pit scenes: side walls, ground and the balls'
    spawn points. The navigation scene picks its ball size and count by a
    width breakpoint; the title scene uses the same walls and ground with a
    fixed ball set. Ball spawn x uses one random sample in [0, 1) per ball. */
module NavLayout {
  import opened Common

  const WallThickness: real := 2.0
  const GroundHeight: real := 60.0

  datatype BallConfig = BallConfig(radius: real, count: nat)

  predicate IsMobile(window: Option<Viewport>) {
    window.Some? && IsMobileWidth(window.value.width)
  }

  /** The navigation scene's balls: small and few on a narrow window. */
  function GetBallConfig(window: Option<Viewport>): (c: BallConfig)
    ensures IsMobile(window) <==> c.count == 5
    ensures IsMobile(window) ==> c.radius == 35.0
    ensures !IsMobile(window) ==> c == BallConfig(70.0, 10)
  {
    if IsMobile(window) then BallConfig(35.0, 5) else BallConfig(70.0, 10)
  }

  /** Vertical gap between consecutive spawn points in the navigation scene. */
  function SpawnGap(vp: Viewport): (g: real)
    ensures g > 0.0
    ensures IsMobile(Some(vp)) <==> g == 30.0
    ensures !IsMobile(Some(vp)) ==> g == 60.0
  {
    if IsMobile(Some(vp)) then 30.0 else 60.0
  }

  /** Ball size and spawn gap switch together: small balls are always
      spawned closer together, and only on a narrow window. */
  lemma BreakpointAgrees(vp: Viewport)
    ensures GetBallConfig(Some(vp)).radius == 35.0 <==> SpawnGap(vp) == 30.0
    ensures GetBallConfig(Some(vp)).radius == 35.0 <==> IsMobileWidth(vp.width)
  {
  }

  /** The title scene's fixed ball set. */
  const TitleBalls: BallConfig := BallConfig(40.0, 8)
  const TitleSpawnGap: real := 60.0

  datatype Bounds = Bounds(leftWall: Box, rightWall: Box, ground: Box)

  /** Walls and ground of a viewport. */
  function SceneBounds(vp: Viewport): (b: Bounds)
    // both walls are full height and sit flush with the viewport's sides
    ensures b.leftWall.Left() == 0.0 && b.leftWall.Right() == WallThickness
    ensures b.rightWall.Right() == vp.width && b.rightWall.Left() == vp.width - WallThickness
    ensures b.leftWall.Top() == 0.0 && b.leftWall.Bottom() == vp.height
    ensures b.rightWall.Top() == 0.0 && b.rightWall.Bottom() == vp.height
    // the ground spans the full width and the bottom 60 pixels
    ensures b.ground.Left() == 0.0 && b.ground.Right() == vp.width
    ensures b.ground.Top() == vp.height - GroundHeight && b.ground.Bottom() == vp.height
  {
    Bounds(Box(Point(WallThickness / 2.0, vp.height / 2.0), WallThickness, vp.height),
           Box(Point(vp.width - WallThickness / 2.0, vp.height / 2.0), WallThickness, vp.height),
           Box(Point(vp.width / 2.0, vp.height - 30.0), vp.width, GroundHeight))
  }

  datatype Ball = Ball(center: Point, radius: real)

  predicate IsSample(r: real) {
    0.0 <= r < 1.0
  }

  lemma ScaleSample(r: real, span: real)
    requires IsSample(r)
    ensures span > 0.0 ==> 0.0 <= r * span < span
    ensures span <= 0.0 ==> span <= r * span <= 0.0
  {
    if span > 0.0 {
      assert span - r * span == (1.0 - r) * span;
    } else {
      assert r * span - span == (1.0 - r) * (-span);
      assert r * span == -(r * (-span));
    }
  }

  function SpawnX(vp: Viewport, radius: real, r: real): (x: real)
    requires IsSample(r)
    ensures vp.width > 2.0 * radius ==> radius <= x < vp.width - radius
    ensures vp.width <= 2.0 * radius ==> vp.width - radius <= x <= radius
  {
    var span := vp.width - 2.0 * radius;
    ScaleSample(r, span);
    r * span + radius
  }

  /** One ball per sample: x from the sample across the room between the
      walls, y stepping upwards from a quarter of the height by `gap`. */
  function SpawnBalls(vp: Viewport, config: BallConfig, gap: real, samples: seq<real>): (balls: seq<Ball>)
    requires |samples| == config.count
    requires forall k :: 0 <= k < |samples| ==> IsSample(samples[k])
    ensures |balls| == config.count
    ensures forall i :: 0 <= i < |balls| ==> balls[i].radius == config.radius
    // with room for a ball, every spawn lies in [radius, width - radius)
    ensures vp.width > 2.0 * config.radius ==>
      forall i :: 0 <= i < |balls| ==> config.radius <= balls[i].center.x < vp.width - config.radius
    ensures forall i :: 0 <= i < |balls| ==> balls[i].center.y == vp.height / 4.0 - (i as real) * gap
    // consecutive balls spawn exactly `gap` higher
    ensures forall i :: 0 < i < |balls| ==> balls[i - 1].center.y - balls[i].center.y == gap
  {
    seq(config.count, i requires 0 <= i < config.count =>
      Ball(Point(SpawnX(vp, config.radius, samples[i]), vp.height / 4.0 - (i as real) * gap), config.radius))
  }

  /** With a positive gap the spawn height strictly decreases with the
      ball's index (y grows downwards, so later balls start higher). */
  lemma {:induction false} SpawnHeightsDecrease(vp: Viewport, config: BallConfig, gap: real, samples: seq<real>, i: int, j: int)
    requires |samples| == config.count
    requires forall k :: 0 <= k < |samples| ==> IsSample(samples[k])
    requires gap > 0.0 && 0 <= i < j < config.count
    ensures SpawnBalls(vp, config, gap, samples)[j].center.y < SpawnBalls(vp, config, gap, samples)[i].center.y
  {
    var balls := SpawnBalls(vp, config, gap, samples);
    assert balls[j].center.y - balls[i].center.y == -((j - i) as real) * gap;
    assert ((j - i) as real) * gap > 0.0;
  }

  /** The navigation scene's balls. */
  function NavBalls(vp: Viewport, samples: seq<real>): (balls: seq<Ball>)
    requires |samples| == GetBallConfig(Some(vp)).count
    requires forall k :: 0 <= k < |samples| ==> IsSample(samples[k])
    ensures IsMobile(Some(vp)) ==> |balls| == 5 && forall i :: 0 <= i < 5 ==> balls[i].radius == 35.0
    ensures !IsMobile(Some(vp)) ==> |balls| == 10 && forall i :: 0 <= i < 10 ==> balls[i].radius == 70.0
  {
    SpawnBalls(vp, GetBallConfig(Some(vp)), SpawnGap(vp), samples)
  }

  /** The title scene's balls: eight of radius 40, 60 pixels apart. */
  function TitleSceneBalls(vp: Viewport, samples: seq<real>): (balls: seq<Ball>)
    requires |samples| == TitleBalls.count
    requires forall k :: 0 <= k < |samples| ==> IsSample(samples[k])
    ensures |balls| == 8
    ensures forall i :: 0 <= i < |balls| ==> balls[i].radius == 40.0
    ensures vp.width > 80.0 ==> forall i :: 0 <= i < |balls| ==> 40.0 <= balls[i].center.x < vp.width - 40.0
    ensures forall i :: 0 <= i < |balls| ==> balls[i].center.y == vp.height / 4.0 - (i as real) * 60.0
  {
    SpawnBalls(vp, TitleBalls, TitleSpawnGap, samples)
  }

  /** A ball wider than a wall spawns with its centre strictly between the
      walls' inner faces. */
  lemma SpawnInsideWalls(vp: Viewport, config: BallConfig, gap: real, samples: seq<real>)
    requires |samples| == config.count
    requires forall k :: 0 <= k < |samples| ==> IsSample(samples[k])
    requires config.radius > WallThickness && vp.width > 2.0 * config.radius
    ensures var b, balls := SceneBounds(vp), SpawnBalls(vp, config, gap, samples);
      forall i :: 0 <= i < |balls| ==>
        b.leftWall.Right() < balls[i].center.x < b.rightWall.Left()
  {
  }
}
