/** Positions in space and time: the Euclidean distance between two waypoints,
    linear interpolation on a segment, the arc length of a polyline, and the
    position of a drone at a given time of its mission. */
module Geometry {
  import opened Models

  /** The exceptions the interpolation can raise: a float division by zero,
      and indexing the last waypoint of an empty list. */
  datatype Error = ZeroDivision | IndexOutOfRange

  /** Where a drone is at a queried time: not flying, at a point, at a point
      whose coordinates are NaN, or the computation raised an error. The
      segment lengths are NumPy floats, so dividing zero by a segment of
      length zero yields NaN rather than raising. */
  datatype Position = Absent | At(pos: Waypoint) | Undefined | Raised(error: Error)

  /** The square of a real number. */
  function Square(a: real): real
  {
    a * a
  }

  lemma SquareNonNegative(a: real)
    ensures Square(a) >= 0.0
  {
    if a >= 0.0 {
      calc { Square(a); == a * a; >= 0.0; }
    } else {
      calc { Square(a); == a * a; > 0.0; }
    }
  }

  lemma SquarePositive(a: real)
    requires a != 0.0
    ensures Square(a) > 0.0
  {
    if a > 0.0 {
      calc { Square(a); == a * a; > 0.0; }
    } else {
      calc { Square(a); == a * a; > 0.0; }
    }
  }

  /** Squaring is strictly increasing on the non-negative reals. */
  lemma SquareIncreasing(r: real, b: real)
    requires 0.0 <= r < b
    ensures Square(r) < Square(b)
  {
    var d := b - r;
    assert b * b == r * r + 2.0 * r * d + d * d;
    assert r * d >= 0.0;
    assert d * d > 0.0;
  }

  /** `sqrt` is a square root on the non-negative reals. The distance is
      parameterised by such a function, which the model cannot compute. */
  ghost predicate IsSqrt(sqrt: real -> real)
  {
    RootNonNegative(sqrt) && RootSquares(sqrt)
  }

  /** `sqrt` maps the non-negative reals to non-negative reals. */
  ghost predicate RootNonNegative(sqrt: real -> real)
  {
    forall x: real :: 0.0 <= x ==> 0.0 <= sqrt(x)
  }

  /** `sqrt` squares back to its argument on the non-negative reals. */
  ghost predicate RootSquares(sqrt: real -> real)
  {
    forall x: real :: 0.0 <= x ==> Square(sqrt(x)) == x
  }

  /** For a non-negative root `r` of `s`, `r` is zero exactly when `s` is,
      and below a positive bound exactly when `s` is below its square. */
  lemma RootFacts(r: real, s: real, bound: real)
    requires 0.0 <= r && Square(r) == s && 0.0 < bound
    ensures r == 0.0 <==> s == 0.0
    ensures r < bound <==> s < Square(bound)
  {
    if r > 0.0 {
      SquarePositive(r);
    }
    if r < bound {
      SquareIncreasing(r, bound);
    } else if bound < r {
      SquareIncreasing(bound, r);
    }
  }

  /** Sum of the squares of the entries of a vector. */
  function SumOfSquares(v: seq<real>): real
    decreases |v|
  {
    if |v| == 0 then 0.0 else SumOfSquares(v[..|v| - 1]) + Square(Last(v))
  }

  /** Entry-wise difference of two vectors of the same length. */
  function Difference(a: seq<real>, b: seq<real>): (d: seq<real>)
    requires |a| == |b|
    ensures |d| == |a|
    ensures forall i :: 0 <= i < |a| ==> d[i] + b[i] == a[i]
  {
    seq(|a|, i requires 0 <= i < |a| => a[i] - b[i])
  }

  /** The Euclidean norm of a vector, given a square root. */
  function Norm(sqrt: real -> real, v: seq<real>): real
  {
    sqrt(SumOfSquares(v))
  }

  /** The Euclidean distance between two waypoints. */
  function Distance(sqrt: real -> real, p: Waypoint, q: Waypoint): real
  {
    sqrt(SquaredDistance(p, q))
  }

  /** The square of the Euclidean distance, written on coordinates. */
  function SquaredDistance(p: Waypoint, q: Waypoint): (s: real)
  {
    Square(p.x - q.x) + Square(p.y - q.y) + Square(p.z - q.z)
  }

  /** The squared distance is non-negative, and zero exactly between equal
      waypoints. */
  lemma SquaredDistanceFacts(p: Waypoint, q: Waypoint)
    ensures SquaredDistance(p, q) >= 0.0
    ensures SquaredDistance(p, q) == 0.0 <==> p == q
  {
    SquareNonNegative(p.x - q.x);
    SquareNonNegative(p.y - q.y);
    SquareNonNegative(p.z - q.z);
    if p.x != q.x { SquarePositive(p.x - q.x); }
    if p.y != q.y { SquarePositive(p.y - q.y); }
    if p.z != q.z { SquarePositive(p.z - q.z); }
    if p == q {
      calc { Square(p.x - q.x); == Square(0.0); == 0.0 * 0.0; == 0.0; }
      calc { Square(p.y - q.y); == Square(0.0); == 0.0 * 0.0; == 0.0; }
      calc { Square(p.z - q.z); == Square(0.0); == 0.0 * 0.0; == 0.0; }
    }
  }

  /** The distance is the norm of the difference of the coordinate vectors,
      the three axes weighing equally. */
  lemma DistanceIsNorm(sqrt: real -> real, p: Waypoint, q: Waypoint)
    ensures Distance(sqrt, p, q) == Norm(sqrt, Difference(p.ToArray(), q.ToArray()))
  {
    var d := Difference(p.ToArray(), q.ToArray());
    assert d == [p.x - q.x, p.y - q.y, p.z - q.z];
    var d2, d1 := d[..2], d[..1];
    assert d2[..1] == d1 && d1[..0] == [];
    assert SumOfSquares(d1) == Square(p.x - q.x);
    assert SumOfSquares(d2) == SumOfSquares(d1) + Square(p.y - q.y);
    assert SumOfSquares(d) == SumOfSquares(d2) + Square(p.z - q.z);
  }

  lemma DistanceNonNegative(sqrt: real -> real, p: Waypoint, q: Waypoint)
    requires RootNonNegative(sqrt)
    ensures Distance(sqrt, p, q) >= 0.0
  {
    SquaredDistanceFacts(p, q);
  }

  lemma DistanceSymmetric(sqrt: real -> real, p: Waypoint, q: Waypoint)
    ensures Distance(sqrt, p, q) == Distance(sqrt, q, p)
  {
    assert Square(p.x - q.x) == Square(q.x - p.x);
    assert Square(p.y - q.y) == Square(q.y - p.y);
    assert Square(p.z - q.z) == Square(q.z - p.z);
  }

  /** The distance is zero exactly between equal waypoints. */
  lemma DistanceZeroIff(sqrt: real -> real, p: Waypoint, q: Waypoint)
    requires IsSqrt(sqrt)
    ensures Distance(sqrt, p, q) == 0.0 <==> p == q
  {
    SquaredDistanceFacts(p, q);
    var s := SquaredDistance(p, q);
    RootFacts(sqrt(s), s, 1.0);
  }

  /** Comparing the distance with a positive buffer is comparing the squared
      distance with the squared buffer. */
  lemma DistanceBelowIff(sqrt: real -> real, p: Waypoint, q: Waypoint, buffer: real)
    requires IsSqrt(sqrt)
    requires buffer > 0.0
    ensures Distance(sqrt, p, q) < buffer <==> SquaredDistance(p, q) < Square(buffer)
  {
    SquaredDistanceFacts(p, q);
    var s := SquaredDistance(p, q);
    RootFacts(sqrt(s), s, buffer);
  }

  /** The point a fraction `t` of the way from `p1` to `p2`, coordinate by
      coordinate. */
  function Lerp(p1: Waypoint, p2: Waypoint, t: real): (r: Waypoint)
    ensures t == 0.0 ==> r == p1
    ensures t == 1.0 ==> r == p2
  {
    Waypoint(p1.x + (p2.x - p1.x) * t, p1.y + (p2.y - p1.y) * t, p1.z + (p2.z - p1.z) * t)
  }

  /** The point halfway between two waypoints. */
  function Midpoint(p: Waypoint, q: Waypoint): Waypoint
  {
    Waypoint((p.x + q.x) / 2.0, (p.y + q.y) / 2.0, (p.z + q.z) / 2.0)
  }

  lemma LerpHalfway(p1: Waypoint, p2: Waypoint)
    ensures Lerp(p1, p2, 0.5) == Midpoint(p1, p2)
  {
  }

  /** The length of the polyline through the waypoints: the sum of the
      distances between consecutive waypoints. */
  function PathLength(sqrt: real -> real, wps: seq<Waypoint>): real
    decreases |wps|
  {
    if |wps| < 2 then 0.0
    else PathLength(sqrt, wps[..|wps| - 1]) + Distance(sqrt, wps[|wps| - 2], wps[|wps| - 1])
  }

  /** Extending a prefix of the polyline by one waypoint adds one segment. */
  lemma PathLengthStep(sqrt: real -> real, wps: seq<Waypoint>, i: nat)
    requires i + 1 < |wps|
    ensures PathLength(sqrt, wps[..i + 2])
            == PathLength(sqrt, wps[..i + 1]) + Distance(sqrt, wps[i], wps[i + 1])
  {
    assert wps[..i + 2][..i + 1] == wps[..i + 1];
  }

  lemma {:induction false} PathLengthNonNegative(sqrt: real -> real, wps: seq<Waypoint>)
    requires RootNonNegative(sqrt)
    ensures PathLength(sqrt, wps) >= 0.0
    decreases |wps|
  {
    if |wps| >= 2 {
      PathLengthNonNegative(sqrt, wps[..|wps| - 1]);
      DistanceNonNegative(sqrt, wps[|wps| - 2], wps[|wps| - 1]);
    }
  }

  lemma PathLengthShort(sqrt: real -> real, wps: seq<Waypoint>)
    requires |wps| <= 1
    ensures PathLength(sqrt, wps) == 0.0
  {
  }

  /** The walk along the segments from segment `i` on, with `acc` the length
      already walked, looking for the segment that holds arc length `target`.
      When no segment is left the last waypoint is the answer. */
  function Seek(sqrt: real -> real, wps: seq<Waypoint>, i: nat, acc: real, target: real): Position
    decreases |wps| - i
  {
    if i + 1 >= |wps| then
      (if |wps| == 0 then Raised(IndexOutOfRange) else At(Last(wps)))
    else
      var segment := Distance(sqrt, wps[i], wps[i + 1]);
      if acc + segment >= target then
        if segment == 0.0 then Undefined
        else At(Lerp(wps[i], wps[i + 1], (target - acc) / segment))
      else Seek(sqrt, wps, i + 1, acc + segment, target)
  }

  /** The arc length of the path at which a query time lands: the elapsed
      fraction of the time window times the length of the path. */
  function TargetDistance(sqrt: real -> real, m: Mission, t: real): real
    requires m.startTime < m.endTime
  {
    (t - m.startTime) / (m.endTime - m.startTime) * PathLength(sqrt, m.waypoints)
  }

  /** The position of a mission's drone at time `t`: absent outside the time
      window; otherwise the point at the same fraction of the path's length as
      `t` is of the time window. */
  function Interpolate(sqrt: real -> real, m: Mission, t: real): Position
  {
    if t < m.startTime || t > m.endTime then Absent
    else if m.endTime - m.startTime == 0.0 then Raised(ZeroDivision)
    else Seek(sqrt, m.waypoints, 0, 0.0, TargetDistance(sqrt, m, t))
  }

  /** `p` lies on segment `k` of the polyline, a fraction `s` of the way
      along it, and the segments before `k` plus that fraction of segment `k`
      make up the arc length `target`. */
  ghost predicate LandsOn(sqrt: real -> real, wps: seq<Waypoint>, target: real, p: Waypoint, k: nat, s: real)
  {
    k + 1 < |wps| && 0.0 <= s <= 1.0 && p == Lerp(wps[k], wps[k + 1], s) &&
    PathLength(sqrt, wps[..k + 1]) + s * Distance(sqrt, wps[k], wps[k + 1]) == target
  }

  /** `p` is the point at arc length `target` along the polyline. */
  ghost predicate OnPathAt(sqrt: real -> real, wps: seq<Waypoint>, target: real, p: Waypoint)
  {
    exists k: nat, s: real :: LandsOn(sqrt, wps, target, p, k, s)
  }

  /** The fraction of a segment of positive length at which an arc length
      within it lies. */
  lemma FractionOfSegment(acc: real, segment: real, target: real)
    requires 0.0 < segment && acc <= target <= acc + segment
    ensures 0.0 <= (target - acc) / segment <= 1.0
    ensures acc + (target - acc) / segment * segment == target
  {
  }

  lemma {:induction false} SeekNeverAbsent(sqrt: real -> real, wps: seq<Waypoint>, i: nat, acc: real, target: real)
    ensures !Seek(sqrt, wps, i, acc, target).Absent?
    decreases |wps| - i
  {
    if i + 1 < |wps| {
      var segment := Distance(sqrt, wps[i], wps[i + 1]);
      if acc + segment < target {
        SeekNeverAbsent(sqrt, wps, i + 1, acc + segment, target);
      }
    }
  }

  /** Stopping on segment `i`, of positive length, at the arc length
      `target` within it lands on the path at `target`. */
  lemma SeekStopLands(sqrt: real -> real, wps: seq<Waypoint>, i: nat, acc: real, target: real)
    requires i + 1 < |wps|
    requires acc == PathLength(sqrt, wps[..i + 1])
    requires 0.0 < Distance(sqrt, wps[i], wps[i + 1])
    requires acc <= target <= acc + Distance(sqrt, wps[i], wps[i + 1])
    ensures OnPathAt(sqrt, wps, target,
                     Lerp(wps[i], wps[i + 1], (target - acc) / Distance(sqrt, wps[i], wps[i + 1])))
  {
    var segment := Distance(sqrt, wps[i], wps[i + 1]);
    var s := (target - acc) / segment;
    FractionOfSegment(acc, segment, target);
    assert LandsOn(sqrt, wps, target, Lerp(wps[i], wps[i + 1], s), i, s);
  }

  /** Walking past segment `i` when it ends before the whole path does
      leaves at least one segment to walk. */
  lemma SeekContinues(sqrt: real -> real, wps: seq<Waypoint>, i: nat, target: real)
    requires i + 1 < |wps|
    requires PathLength(sqrt, wps[..i + 1]) + Distance(sqrt, wps[i], wps[i + 1]) < target
    requires target <= PathLength(sqrt, wps)
    ensures i + 2 < |wps|
    ensures PathLength(sqrt, wps[..i + 2])
            == PathLength(sqrt, wps[..i + 1]) + Distance(sqrt, wps[i], wps[i + 1])
  {
    PathLengthStep(sqrt, wps, i);
  }

  /** A walk that starts on a segment never raises: only an empty waypoint
      list does. */
  lemma {:induction false} SeekNeverRaises(sqrt: real -> real, wps: seq<Waypoint>, i: nat, acc: real, target: real)
    requires i + 1 < |wps|
    ensures !Seek(sqrt, wps, i, acc, target).Raised?
    decreases |wps| - i
  {
    var segment := Distance(sqrt, wps[i], wps[i + 1]);
    if acc + segment < target && i + 2 < |wps| {
      SeekNeverRaises(sqrt, wps, i + 1, acc + segment, target);
    }
  }

  /** The walk, started on a segment before which less than `target` has been
      walked (or on the first segment), yields NaN coordinates exactly when it
      starts at `target` on a segment of length zero. */
  lemma {:induction false} SeekUndefinedIff(sqrt: real -> real, wps: seq<Waypoint>, i: nat, acc: real, target: real)
    requires IsSqrt(sqrt)
    requires i + 1 < |wps|
    requires acc == PathLength(sqrt, wps[..i + 1])
    requires 0.0 <= acc <= target <= PathLength(sqrt, wps)
    requires i > 0 ==> acc < target
    ensures Seek(sqrt, wps, i, acc, target).Undefined? <==> acc == target && wps[i] == wps[i + 1]
    decreases |wps| - i
  {
    var segment := Distance(sqrt, wps[i], wps[i + 1]);
    DistanceNonNegative(sqrt, wps[i], wps[i + 1]);
    DistanceZeroIff(sqrt, wps[i], wps[i + 1]);
    if acc + segment < target {
      SeekContinues(sqrt, wps, i, target);
      SeekUndefinedIff(sqrt, wps, i + 1, acc + segment, target);
    }
  }

  /** The walk, started on a segment before which at most `target` has been
      walked, when it finds a point finds the point at arc length `target`. */
  lemma {:induction false} SeekLands(sqrt: real -> real, wps: seq<Waypoint>, i: nat, acc: real, target: real)
    requires RootNonNegative(sqrt)
    requires i + 1 < |wps|
    requires acc == PathLength(sqrt, wps[..i + 1])
    requires 0.0 <= acc <= target <= PathLength(sqrt, wps)
    requires i > 0 ==> acc < target
    ensures Seek(sqrt, wps, i, acc, target).At? ==> OnPathAt(sqrt, wps, target, Seek(sqrt, wps, i, acc, target).pos)
    decreases |wps| - i
  {
    var segment := Distance(sqrt, wps[i], wps[i + 1]);
    if acc + segment >= target {
      if segment != 0.0 {
        SeekStopLands(sqrt, wps, i, acc, target);
      }
    } else {
      DistanceNonNegative(sqrt, wps[i], wps[i + 1]);
      SeekContinues(sqrt, wps, i, target);
      SeekLands(sqrt, wps, i + 1, acc + segment, target);
      assert Seek(sqrt, wps, i, acc, target) == Seek(sqrt, wps, i + 1, acc + segment, target);
    }
  }

  /** A drone is absent exactly when the query time is outside its mission's
      time window. */
  lemma InterpolateAbsentIff(sqrt: real -> real, m: Mission, t: real)
    ensures Interpolate(sqrt, m, t).Absent? <==> t < m.startTime || t > m.endTime
  {
    if m.startTime <= t <= m.endTime && m.endTime - m.startTime != 0.0 {
      SeekNeverAbsent(sqrt, m.waypoints, 0, 0.0, TargetDistance(sqrt, m, t));
    }
  }

  /** The quotient of a part by a positive whole it does not exceed. */
  lemma FractionFacts(part: real, whole: real)
    requires 0.0 <= part <= whole && 0.0 < whole
    ensures 0.0 <= part / whole <= 1.0
    ensures part / whole == 0.0 <==> part == 0.0
  {
  }

  /** A fraction of a non-negative total. */
  lemma ScaleFacts(p: real, total: real)
    requires 0.0 <= p <= 1.0 && 0.0 <= total
    ensures 0.0 <= p * total <= total
    ensures p * total == 0.0 <==> p == 0.0 || total == 0.0
  {
    if p > 0.0 && total > 0.0 {
      assert p * total > 0.0;
    }
    assert p * total <= 1.0 * total;
  }

  /** The arc length at which a time of the window lands lies on the path. */
  lemma TargetOnPath(sqrt: real -> real, m: Mission, t: real)
    requires RootNonNegative(sqrt)
    requires m.startTime <= t <= m.endTime && m.startTime < m.endTime
    ensures 0.0 <= TargetDistance(sqrt, m, t) <= PathLength(sqrt, m.waypoints)
    ensures TargetDistance(sqrt, m, t) == 0.0 <==> t == m.startTime || PathLength(sqrt, m.waypoints) == 0.0
  {
    var total := PathLength(sqrt, m.waypoints);
    var progress := (t - m.startTime) / (m.endTime - m.startTime);
    PathLengthNonNegative(sqrt, m.waypoints);
    FractionFacts(t - m.startTime, m.endTime - m.startTime);
    ScaleFacts(progress, total);
    assert TargetDistance(sqrt, m, t) == progress * total;
  }

  /** Within a window of positive length, interpolation walks the path to the
      target arc length. */
  lemma InterpolateWithin(sqrt: real -> real, m: Mission, t: real)
    requires m.startTime <= t <= m.endTime && m.startTime < m.endTime
    ensures Interpolate(sqrt, m, t) == Seek(sqrt, m.waypoints, 0, 0.0, TargetDistance(sqrt, m, t))
  {
  }

  /** Within the time window, a mission with at least two waypoints and a
      positive duration is at the point of its path whose arc length is the
      elapsed fraction of the path's length; it raises no error, and its
      coordinates are NaN exactly when that arc length is zero and the first
      segment has length zero. */
  lemma InterpolateOnPath(sqrt: real -> real, m: Mission, t: real)
    requires IsSqrt(sqrt)
    requires m.startTime <= t <= m.endTime && m.startTime < m.endTime
    requires |m.waypoints| >= 2
    ensures var r := Interpolate(sqrt, m, t);
      (r.At? ==> OnPathAt(sqrt, m.waypoints, TargetDistance(sqrt, m, t), r.pos)) &&
      (r.Undefined? <==> TargetDistance(sqrt, m, t) == 0.0 && m.waypoints[0] == m.waypoints[1]) &&
      !r.Raised? && !r.Absent?
  {
    var target := TargetDistance(sqrt, m, t);
    TargetOnPath(sqrt, m, t);
    InterpolateWithin(sqrt, m, t);
    assert m.waypoints[..1] == [m.waypoints[0]];
    SeekUndefinedIff(sqrt, m.waypoints, 0, 0.0, target);
    SeekNeverRaises(sqrt, m.waypoints, 0, 0.0, target);
    SeekLands(sqrt, m.waypoints, 0, 0.0, target);
    SeekNeverAbsent(sqrt, m.waypoints, 0, 0.0, target);
  }

  /** Exactly when interpolation raises, for a time within the window: a
      zero-length window divides by zero, and otherwise an empty waypoint
      list indexes out of range. */
  lemma InterpolateRaisesIff(sqrt: real -> real, m: Mission, t: real)
    requires m.startTime <= t <= m.endTime
    ensures Interpolate(sqrt, m, t) == Raised(ZeroDivision) <==> m.startTime == m.endTime
    ensures Interpolate(sqrt, m, t) == Raised(IndexOutOfRange) <==>
      m.startTime < m.endTime && |m.waypoints| == 0
  {
    if m.startTime < m.endTime && |m.waypoints| >= 2 {
      SeekNeverRaises(sqrt, m.waypoints, 0, 0.0, TargetDistance(sqrt, m, t));
    }
  }

  /** Exactly when interpolation yields NaN coordinates, for a time within
      the window: the window has positive length, the first two waypoints
      coincide, and the arc length sought is zero, because the time is the
      start or the whole path has length zero. */
  lemma InterpolateUndefinedIff(sqrt: real -> real, m: Mission, t: real)
    requires IsSqrt(sqrt)
    requires m.startTime <= t <= m.endTime
    ensures Interpolate(sqrt, m, t).Undefined? <==>
      m.startTime < m.endTime && |m.waypoints| >= 2 && m.waypoints[0] == m.waypoints[1] &&
      (t == m.startTime || PathLength(sqrt, m.waypoints) == 0.0)
  {
    if m.startTime < m.endTime && |m.waypoints| >= 2 {
      InterpolateOnPath(sqrt, m, t);
      TargetOnPath(sqrt, m, t);
    }
  }

  /** A mission that flies nowhere: one waypoint and a positive duration. */
  lemma InterpolateHover(sqrt: real -> real, m: Mission, t: real)
    requires |m.waypoints| == 1 && m.startTime < m.endTime
    requires m.startTime <= t <= m.endTime
    ensures Interpolate(sqrt, m, t) == At(m.waypoints[0])
  {
  }

  /** A mission whose window has length zero raises at its only time. */
  lemma InterpolateZeroDuration(sqrt: real -> real, m: Mission)
    requires m.startTime == m.endTime
    ensures Interpolate(sqrt, m, m.startTime) == Raised(ZeroDivision)
  {
  }

  /** A mission the interpolation handles without error: a positive duration,
      at least one waypoint, and distinct first and second waypoints. */
  predicate Regular(m: Mission)
  {
    m.startTime < m.endTime && |m.waypoints| >= 1 &&
    (|m.waypoints| >= 2 ==> m.waypoints[0] != m.waypoints[1])
  }

  /** A regular mission has a position exactly within its window. */
  lemma InterpolateRegular(sqrt: real -> real, m: Mission, t: real)
    requires IsSqrt(sqrt)
    requires Regular(m)
    ensures Interpolate(sqrt, m, t).At? <==> m.startTime <= t <= m.endTime
  {
    InterpolateAbsentIff(sqrt, m, t);
    if m.startTime <= t <= m.endTime {
      InterpolateRaisesIff(sqrt, m, t);
      InterpolateUndefinedIff(sqrt, m, t);
      var r := Interpolate(sqrt, m, t);
      assert r != Raised(ZeroDivision) && r != Raised(IndexOutOfRange) && !r.Undefined?;
      match r {
        case At(_) =>
        case Absent =>
        case Undefined =>
        case Raised(e) =>
          match e {
            case ZeroDivision =>
            case IndexOutOfRange =>
          }
      }
    }
  }

  /** A regular mission starts at its first waypoint. */
  lemma InterpolateAtStart(sqrt: real -> real, m: Mission)
    requires IsSqrt(sqrt)
    requires Regular(m)
    ensures Interpolate(sqrt, m, m.startTime) == At(m.waypoints[0])
  {
    TargetOnPath(sqrt, m, m.startTime);
    var target := TargetDistance(sqrt, m, m.startTime);
    assert target == 0.0;
    if |m.waypoints| >= 2 {
      var a, b := m.waypoints[0], m.waypoints[1];
      var segment := Distance(sqrt, a, b);
      DistanceNonNegative(sqrt, a, b);
      DistanceZeroIff(sqrt, a, b);
      assert segment > 0.0;
      assert (target - 0.0) / segment == 0.0;
      assert Seek(sqrt, m.waypoints, 0, 0.0, target) == At(Lerp(a, b, 0.0));
    }
  }

  /** A two-waypoint mission from A to B is at the midpoint of A and B at the
      middle of its time window. */
  lemma InterpolateMidpoint(sqrt: real -> real, a: Waypoint, b: Waypoint, start: real, end: real, id: string)
    requires IsSqrt(sqrt)
    requires a != b && start < end
    ensures Interpolate(sqrt, Mission([a, b], start, end, id), (start + end) / 2.0) == At(Midpoint(a, b))
  {
    var m := Mission([a, b], start, end, id);
    var t := (start + end) / 2.0;
    var d := Distance(sqrt, a, b);
    DistanceNonNegative(sqrt, a, b);
    DistanceZeroIff(sqrt, a, b);
    assert [a, b][..1] == [a];
    assert PathLength(sqrt, m.waypoints) == d;
    var progress := (t - start) / (end - start);
    assert progress == 0.5 by {
      assert t - start == (end - start) / 2.0;
    }
    var target := progress * d;
    assert target / d == 0.5;
    assert Seek(sqrt, m.waypoints, 0, 0.0, target) == At(Lerp(a, b, 0.5));
  }
}
