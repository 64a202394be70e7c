/** Landmark vectors and the motion magnitude between two ticks. Coordinates
    are reals: floating-point rounding is not modelled, but the two special
    values `calculateMotion` can produce (Infinity, NaN) are. */
module Motion {
  import opened Wrappers

  /** One landmark; only its x and y coordinates are used. */
  datatype Point = Point(x: real, y: real)

  /** `STATIC_MOTION_THRESHOLD`. */
  const STATIC_MOTION_THRESHOLD: real := 0.05

  /** The flattened vector of a landmark list: every x in order, then every y. */
  function Flatten(pts: seq<Point>): (r: seq<real>)
    ensures |r| == 2 * |pts|
    ensures forall i :: 0 <= i < |pts| ==> r[i] == pts[i].x && r[|pts| + i] == pts[i].y
  {
    seq(2 * |pts|, i requires 0 <= i < 2 * |pts| =>
      if i < |pts| then pts[i].x else pts[i - |pts|].y)
  }

  /** The hand count read off a flattened vector: 84 numbers are two hands,
      any other length is one. */
  function HandCount(flat: seq<real>): (n: nat)
    ensures n == 1 || n == 2
    ensures n == 2 <==> |flat| == 84
  {
    if |flat| == 84 then 2 else 1
  }

  /** With MediaPipe's 21 landmarks per hand the count is exact. */
  lemma HandCountOfHands(h1: seq<Point>, h2: seq<Point>)
    requires |h1| == 21 && |h2| == 21
    ensures HandCount(Flatten(h1)) == 1
    ensures HandCount(Flatten(h1 + h2)) == 2
  {
  }

  /** A JavaScript number as `calculateMotion` can return it. */
  datatype Magnitude = Finite(value: real) | Infinite | NotANumber

  /** `motion > STATIC_MOTION_THRESHOLD`. */
  predicate Moving(m: Magnitude) {
    m.Infinite? || (m.Finite? && m.value > STATIC_MOTION_THRESHOLD)
  }

  /** `motion < STATIC_MOTION_THRESHOLD`. */
  predicate Still(m: Magnitude) {
    m.Finite? && m.value < STATIC_MOTION_THRESHOLD
  }

  function Abs(x: real): real {
    if x < 0.0 then -x else x
  }

  /** The sum of |curr[i] - prev[i]| over the first n positions. */
  function SumAbsDiff(curr: seq<real>, prev: seq<real>, n: nat): real
    requires n <= |curr| && n <= |prev|
  {
    if n == 0 then 0.0 else SumAbsDiff(curr, prev, n - 1) + Abs(curr[n - 1] - prev[n - 1])
  }

  /** The value of `calculateMotion(curr, prev)`: Infinity without a previous
      snapshot; NaN when the current vector is empty (0 / 0) or the previous
      one is shorter (a missing entry reads as undefined); otherwise the mean
      absolute difference over the current vector's positions. */
  function MotionOf(curr: seq<real>, prev: Option<seq<real>>): Magnitude {
    match prev
    case None => Infinite
    case Some(p) =>
      if |curr| == 0 || |p| < |curr| then NotANumber
      else Finite(SumAbsDiff(curr, p, |curr|) / (|curr| as real))
  }

  /** `calculateMotion`: the summing loop. Once a missing previous entry has
      made the sum NaN it stays NaN. */
  method CalculateMotion(curr: seq<real>, prev: Option<seq<real>>) returns (m: Magnitude)
    ensures m == MotionOf(curr, prev)
  {
    if prev.None? {
      return Infinite;
    }
    var p := prev.value;
    var sum := 0.0;
    var nan := false;
    var i := 0;
    while i < |curr|
      invariant 0 <= i <= |curr|
      invariant nan <==> |p| < i
      invariant !nan ==> sum == SumAbsDiff(curr, p, i)
    {
      if i >= |p| {
        nan := true;
      } else {
        sum := sum + Abs(curr[i] - p[i]);
      }
      i := i + 1;
    }
    if |curr| == 0 || nan {
      m := NotANumber;
    } else {
      m := Finite(sum / (|curr| as real));
    }
  }

  lemma {:induction false} SumAbsDiffNonNegative(curr: seq<real>, prev: seq<real>, n: nat)
    requires n <= |curr| && n <= |prev|
    ensures SumAbsDiff(curr, prev, n) >= 0.0
  {
    if n > 0 { SumAbsDiffNonNegative(curr, prev, n - 1); }
  }

  /** The sum is zero exactly when the two vectors agree on the first n
      positions. */
  lemma {:induction false} SumAbsDiffZero(curr: seq<real>, prev: seq<real>, n: nat)
    requires n <= |curr| && n <= |prev|
    ensures SumAbsDiff(curr, prev, n) == 0.0 <==> curr[..n] == prev[..n]
  {
    if n > 0 {
      SumAbsDiffZero(curr, prev, n - 1);
      SumAbsDiffNonNegative(curr, prev, n - 1);
      assert curr[..n] == curr[..n - 1] + [curr[n - 1]];
      assert prev[..n] == prev[..n - 1] + [prev[n - 1]];
      if curr[..n] == prev[..n] {
        assert curr[..n - 1] == curr[..n][..n - 1];
        assert prev[..n - 1] == prev[..n][..n - 1];
        assert curr[..n][n - 1] == prev[..n][n - 1];
      }
    }
  }

  lemma {:induction false} SumAbsDiffSymmetric(a: seq<real>, b: seq<real>, n: nat)
    requires n <= |a| && n <= |b|
    ensures SumAbsDiff(a, b, n) == SumAbsDiff(b, a, n)
  {
    if n > 0 { SumAbsDiffSymmetric(a, b, n - 1); }
  }

  /** A finite magnitude is never negative. */
  lemma MotionNonNegative(curr: seq<real>, prev: Option<seq<real>>)
    ensures MotionOf(curr, prev).Finite? ==> MotionOf(curr, prev).value >= 0.0
  {
    if prev.Some? && |curr| > 0 && |prev.value| >= |curr| {
      SumAbsDiffNonNegative(curr, prev.value, |curr|);
    }
  }

  /** Against a snapshot at least as long, the magnitude is zero exactly when
      the snapshot starts with the current vector. */
  lemma MotionZeroIff(curr: seq<real>, prev: seq<real>)
    requires 0 < |curr| <= |prev|
    ensures MotionOf(curr, Some(prev)) == Finite(0.0) <==> curr == prev[..|curr|]
  {
    SumAbsDiffZero(curr, prev, |curr|);
    assert curr[..|curr|] == curr;
  }

  /** For vectors of one length the magnitude does not depend on which is the
      snapshot. */
  lemma MotionSymmetric(a: seq<real>, b: seq<real>)
    requires |a| == |b|
    ensures MotionOf(a, Some(b)) == MotionOf(b, Some(a))
  {
    SumAbsDiffSymmetric(a, b, |a|);
  }

  /** No snapshot counts as moving; an unchanged non-empty vector counts as
      still. */
  lemma MissingSnapshotMovesSameVectorStill(curr: seq<real>)
    ensures Moving(MotionOf(curr, None))
    ensures |curr| > 0 ==> Still(MotionOf(curr, Some(curr)))
  {
    if |curr| > 0 {
      MotionZeroIff(curr, curr);
    }
  }

  /** The two tests leave a gap: NaN and a magnitude of exactly the threshold
      are neither moving nor still. */
  lemma ThresholdGap(m: Magnitude)
    ensures !(Moving(m) && Still(m))
    ensures m == Finite(STATIC_MOTION_THRESHOLD) ==> !Moving(m) && !Still(m)
    ensures m == NotANumber ==> !Moving(m) && !Still(m)
  {
  }
}
