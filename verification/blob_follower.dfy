/** The cursor follower: a blob that trails the pointer with a first-order
    exponential filter and is pulled to the hovered navigation target. One
    call of `Animate` is one animation frame. */
module BlobFollower {
  import opened Common
  import BlobHover

  /** The blob's smoothed position and its last idle scale. */
  datatype Blob = Blob(x: real, y: real, scale: real)

  /** What one frame produces: the new blob and the stretch it is drawn with. */
  datatype Frame = Frame(blob: Blob, stretchX: real, stretchY: real)

  /** Share of the remaining gap covered per frame. */
  const MagnetGain: real := 0.18
  const IdleGain: real := 0.15

  /** Pixels of distance per unit of magnetic stretch, and its cap. */
  const StretchDistance: real := 80.0
  const MaxStretch: real := 0.7

  /** Pixels of speed per unit of idle scale, and its cap. */
  const ScaleSpeed: real := 100.0
  const MaxScale: real := 0.5

  /** Share of the idle scale passed on to the horizontal stretch. */
  const StretchShare: real := 0.7

  /** Pointer sample and blob at mount: both at the viewport centre, unscaled. */
  datatype Follower = Follower(mouse: Point, blob: Blob)

  function Initial(vp: Viewport): (f: Follower)
    ensures f.mouse == Point(f.blob.x, f.blob.y)
    ensures 2.0 * f.mouse.x == vp.width && 2.0 * f.mouse.y == vp.height
    ensures f.blob.scale == 1.0
  {
    Follower(Point(vp.width / 2.0, vp.height / 2.0), Blob(vp.width / 2.0, vp.height / 2.0, 1.0))
  }

  /** Before the pointer moves, an idle frame leaves the freshly mounted blob
      at the viewport centre, unscaled and round. */
  lemma InitialIsAtRest(vp: Viewport, hovered: bool, target: Option<Point>)
    requires !Magnetized(hovered, target)
    ensures var f := Initial(vp);
      var fr := Animate(f.mouse, f.blob, hovered, target, 0.0);
      && 2.0 * fr.blob.x == vp.width && 2.0 * fr.blob.y == vp.height
      && fr.blob.scale == 1.0 && fr.stretchX == 1.0 && fr.stretchY == 1.0
  {
    var f := Initial(vp);
    AtRestIsRound(f.mouse, f.blob.scale, hovered, target);
  }

  /** The blob is magnetised only when something is hovered AND a target
      position was given; a hover without position follows the pointer. */
  predicate Magnetized(hovered: bool, target: Option<Point>) {
    hovered && target.Some?
  }

  /** Through the hover slot: the follower is magnetised exactly when the
      last `setHovered` call set hover AND passed a position. */
  lemma SlotDecidesMode(s: BlobHover.HoverState, h: bool, text: Option<string>, pos: Option<Point>)
    ensures var r := BlobHover.SetHovered(s, h, text, pos);
      Magnetized(r.hovered, r.targetPos) <==> h && pos.Some?
  {
  }

  function Goal(mouse: Point, hovered: bool, target: Option<Point>): Point {
    if Magnetized(hovered, target) then target.value else mouse
  }

  function Gain(hovered: bool, target: Option<Point>): real {
    if Magnetized(hovered, target) then MagnetGain else IdleGain
  }

  /** `m` lies on the closed segment between `a` and `b`. */
  predicate Between(a: real, m: real, b: real) {
    (a <= m <= b) || (b <= m <= a)
  }

  /** One filter step of one coordinate. */
  function Approach(x: real, goal: real, gain: real): (r: real)
    requires 0.0 < gain < 1.0
    ensures Between(x, r, goal)
    ensures goal - r == (1.0 - gain) * (goal - x)
  {
    FractionBetween(x, goal, gain);
    x + (goal - x) * gain
  }

  lemma FractionBetween(x: real, goal: real, gain: real)
    requires 0.0 < gain < 1.0
    ensures Between(x, x + (goal - x) * gain, goal)
  {
    var d := goal - x;
    if d >= 0.0 {
      MulLeftMono(d, gain, 1.0);
      MulLeftMono(d, 0.0, gain);
      assert 0.0 <= d * gain <= d;
      assert x <= x + d * gain <= goal;
    } else {
      MulLeftMono(-d, gain, 1.0);
      MulLeftMono(-d, 0.0, gain);
      assert (-d) * gain == -(d * gain);
      assert d <= d * gain <= 0.0;
      assert goal <= x + d * gain <= x;
    }
  }

  /** One iteration of the animation loop. `speed` is the pointer-to-blob
      distance, which the caller computes with a square root. */
  function Animate(mouse: Point, b: Blob, hovered: bool, target: Option<Point>, speed: real): (f: Frame)
    requires speed >= 0.0
    // no overshoot: each coordinate moves towards the goal by a fixed share of the gap
    ensures var g := Goal(mouse, hovered, target);
      && Between(b.x, f.blob.x, g.x) && Between(b.y, f.blob.y, g.y)
      && g.x - f.blob.x == (1.0 - Gain(hovered, target)) * (g.x - b.x)
      && g.y - f.blob.y == (1.0 - Gain(hovered, target)) * (g.y - b.y)
    // magnetised: the stretch is bounded by 1.7 and the idle scale is kept
    ensures Magnetized(hovered, target) ==>
      && f.blob.scale == b.scale
      && 1.0 <= f.stretchX <= 1.7 && 1.0 <= f.stretchY <= 1.7
    // idle: scale in [1, 1.5], horizontal stretch in [1, 1.35], vertical squash mirrors the scale
    ensures !Magnetized(hovered, target) ==>
      && 1.0 <= f.blob.scale <= 1.5
      && 1.0 <= f.stretchX <= 1.35
      && f.stretchY == 2.0 - f.blob.scale && 0.5 <= f.stretchY <= 1.0
  {
    if Magnetized(hovered, target) then
      var t := target.value;
      var dx := t.x - b.x;
      var dy := t.y - b.y;
      Frame(Blob(Approach(b.x, t.x, MagnetGain), Approach(b.y, t.y, MagnetGain), b.scale),
            1.0 + Min(Abs(dx) / StretchDistance, MaxStretch),
            1.0 + Min(Abs(dy) / StretchDistance, MaxStretch))
    else
      var scale := 1.0 + Min(speed / ScaleSpeed, MaxScale);
      Frame(Blob(Approach(b.x, mouse.x, IdleGain), Approach(b.y, mouse.y, IdleGain), scale),
            1.0 + (scale - 1.0) * StretchShare,
            2.0 - scale)
  }

  /** A blob resting on the pointer is drawn round and unscaled. */
  lemma AtRestIsRound(mouse: Point, s: real, hovered: bool, target: Option<Point>)
    requires !Magnetized(hovered, target)
    ensures var f := Animate(mouse, Blob(mouse.x, mouse.y, s), hovered, target, 0.0);
      f == Frame(Blob(mouse.x, mouse.y, 1.0), 1.0, 1.0)
  {
  }

  /** Magnetic stretch grows with the distance to the target until it hits
      the cap: at 56 pixels or more along an axis it is exactly 1.7. */
  lemma StretchSaturates(mouse: Point, b: Blob, t: Point, speed: real)
    requires speed >= 0.0
    requires Abs(t.x - b.x) >= 56.0
    ensures Animate(mouse, b, true, Some(t), speed).stretchX == 1.7
  {
  }

  /** A run of frames with the pointer and hover state held fixed; one
      speed sample per frame. */
  function Run(mouse: Point, b: Blob, hovered: bool, target: Option<Point>, speeds: seq<real>): Blob
    requires forall k :: 0 <= k < |speeds| ==> speeds[k] >= 0.0
    decreases |speeds|
  {
    if |speeds| == 0 then b
    else Run(mouse, Animate(mouse, b, hovered, target, speeds[0]).blob, hovered, target, speeds[1..])
  }

  /** `n` filter steps of one coordinate towards a fixed goal. */
  function ApproachN(x: real, goal: real, gain: real, n: nat): real
    requires 0.0 < gain < 1.0
    decreases n
  {
    if n == 0 then x else ApproachN(x + (goal - x) * gain, goal, gain, n - 1)
  }

  function Pow(r: real, n: nat): real
    decreases n
  {
    if n == 0 then 1.0 else r * Pow(r, n - 1)
  }

  /** The frames of a run follow the filter, whatever the speeds were. */
  lemma {:induction false} RunFollowsFilter(mouse: Point, b: Blob, hovered: bool, target: Option<Point>, speeds: seq<real>)
    requires forall k :: 0 <= k < |speeds| ==> speeds[k] >= 0.0
    ensures var g := Goal(mouse, hovered, target);
      var r := Run(mouse, b, hovered, target, speeds);
      && r.x == ApproachN(b.x, g.x, Gain(hovered, target), |speeds|)
      && r.y == ApproachN(b.y, g.y, Gain(hovered, target), |speeds|)
    decreases |speeds|
  {
    if |speeds| > 0 {
      var f := Animate(mouse, b, hovered, target, speeds[0]);
      var g := Goal(mouse, hovered, target);
      var k := Gain(hovered, target);
      assert f.blob.x == Approach(b.x, g.x, k) && f.blob.y == Approach(b.y, g.y, k);
      RunFollowsFilter(mouse, f.blob, hovered, target, speeds[1..]);
    }
  }

  /** After n steps the gap is exactly (1 - gain)^n of the first one, and
      the coordinate never passes the goal. */
  lemma {:induction false} ApproachGap(x: real, goal: real, gain: real, n: nat)
    requires 0.0 < gain < 1.0
    ensures goal - ApproachN(x, goal, gain, n) == Pow(1.0 - gain, n) * (goal - x)
    ensures Between(x, ApproachN(x, goal, gain, n), goal)
    decreases n
  {
    if n > 0 {
      var x' := Approach(x, goal, gain);
      var y := ApproachN(x', goal, gain, n - 1);
      ApproachGap(x', goal, gain, n - 1);
      assert ApproachN(x, goal, gain, n) == y;
      Rescale(goal - x, goal - x', goal - y, 1.0 - gain, Pow(1.0 - gain, n - 1));
      assert Pow(1.0 - gain, n) == (1.0 - gain) * Pow(1.0 - gain, n - 1);
      BetweenTrans(x, x', y, goal);
    }
  }

  /** Two successive scalings compose into one. */
  lemma Rescale(d0: real, d1: real, d2: real, q: real, p: real)
    requires d1 == q * d0 && d2 == p * d1
    ensures d2 == (q * p) * d0
  {
  }

  lemma BetweenTrans(a: real, m: real, c: real, b: real)
    requires Between(a, m, b) && Between(m, c, b)
    ensures Between(a, c, b)
  {
  }

  /** (1 - k)^n stays in [0, 1] and is at most 1 / (1 + k n). */
  lemma {:induction false} PowDecays(k: real, n: nat)
    requires 0.0 < k < 1.0
    ensures 0.0 <= Pow(1.0 - k, n) <= 1.0
    ensures Pow(1.0 - k, n) * (1.0 + k * (n as real)) <= 1.0
    decreases n
  {
    if n > 0 {
      PowDecays(k, n - 1);
      assert Pow(1.0 - k, n) == (1.0 - k) * Pow(1.0 - k, n - 1);
      BernoulliStep(k, Pow(1.0 - k, n - 1), (n - 1) as real);
    }
  }

  /** One inductive step of the bound: if p (1 + k m) <= 1 then
      (1 - k) p (1 + k (m + 1)) <= 1, since the extra factor is
      (1 - k)(1 + k) = 1 - k^2. */
  lemma BernoulliStep(k: real, p: real, m: real)
    requires 0.0 < k < 1.0 && 0.0 <= p <= 1.0 && m >= 0.0
    requires p * (1.0 + k * m) <= 1.0
    ensures 0.0 <= (1.0 - k) * p <= 1.0
    ensures ((1.0 - k) * p) * (1.0 + k * (m + 1.0)) <= 1.0
  {
    var q := 1.0 - k;
    assert 0.0 <= q * p by {
      MulLeftMono(q, 0.0, p);
    }
    assert q * p <= p by {
      MulLeftMono(p, q, 1.0);
      assert q * p == p * q;
    }
    var a := p * (1.0 + k * m) + k * p;
    assert a <= 1.0 + k by {
      MulLeftMono(k, p, 1.0);
    }
    assert q * a <= q * (1.0 + k) by {
      MulLeftMono(q, a, 1.0 + k);
    }
    assert q * (1.0 + k) <= 1.0 by {
      MulLeftMono(k, 0.0, k);
      assert q * (1.0 + k) == 1.0 - k * k;
    }
    assert (q * p) * (1.0 + k * (m + 1.0)) == q * a;
  }

  lemma MulLeftMono(c: real, a: real, b: real)
    requires c >= 0.0 && a <= b
    ensures c * a <= c * b
  {
    assert c * b - c * a == c * (b - a);
  }

  lemma AbsMul(p: real, v: real)
    requires p >= 0.0
    ensures Abs(p * v) == p * Abs(v)
  {
    if v < 0.0 {
      assert p * v == -(p * (-v));
    }
  }

  lemma MulCancel(q: real, a: real, b: real)
    requires q > 0.0 && q * a < q * b
    ensures a < b
  {
    if a >= b {
      MulLeftMono(q, b, a);
    }
  }

  lemma SmallAfterDecay(p: real, d: real, gain: real, eps: real, n: nat)
    requires 0.0 <= p && 0.0 <= d && 0.0 < gain && eps > 0.0
    requires p * (1.0 + gain * (n as real)) <= 1.0
    requires (n as real) * gain * eps >= d
    ensures p * d < eps
  {
    var q := 1.0 + gain * (n as real);
    assert (p * q) * d <= d by {
      MulLeftMono(d, p * q, 1.0);
    }
    assert q * (p * d) == (p * q) * d;
    assert q * eps == eps + (n as real) * gain * eps;
    MulCancel(q, p * d, eps);
  }

  /** Geometric convergence: once n * gain * eps reaches the first gap,
      n steps bring the coordinate within eps of the goal. */
  lemma Converges(x: real, goal: real, gain: real, eps: real, n: nat)
    requires 0.0 < gain < 1.0 && eps > 0.0
    requires (n as real) * gain * eps >= Abs(goal - x)
    ensures Abs(goal - ApproachN(x, goal, gain, n)) < eps
  {
    DecayedDistance(x, goal, gain, n);
    DecayBelow(x, goal, gain, eps, n);
  }

  /** The first gap, shrunk n times, is below eps. */
  lemma DecayBelow(x: real, goal: real, gain: real, eps: real, n: nat)
    requires 0.0 < gain < 1.0 && eps > 0.0
    requires (n as real) * gain * eps >= Abs(goal - x)
    ensures Pow(1.0 - gain, n) * Abs(goal - x) < eps
  {
    PowDecays(gain, n);
    SmallAfterDecay(Pow(1.0 - gain, n), Abs(goal - x), gain, eps, n);
  }

  /** The distance to the goal after n steps, as a multiple of the first. */
  lemma DecayedDistance(x: real, goal: real, gain: real, n: nat)
    requires 0.0 < gain < 1.0
    ensures Abs(goal - ApproachN(x, goal, gain, n)) == Pow(1.0 - gain, n) * Abs(goal - x)
  {
    var p := Pow(1.0 - gain, n);
    assert 0.0 <= p by {
      PowDecays(gain, n);
    }
    assert goal - ApproachN(x, goal, gain, n) == p * (goal - x) by {
      ApproachGap(x, goal, gain, n);
    }
    AbsScaled(goal - ApproachN(x, goal, gain, n), p, goal - x);
  }

  lemma AbsScaled(a: real, p: real, v: real)
    requires p >= 0.0 && a == p * v
    ensures Abs(a) == p * Abs(v)
  {
    AbsMul(p, v);
  }
}
