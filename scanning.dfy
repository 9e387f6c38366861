/** The time sweep of a conflict check: the primary mission's time window is
    probed at regular steps, and at each step every other flight that is in
    the air is compared with the primary drone. */
module Scanning {
  import opened Models
  import opened Geometry

  /** The time of step `k` of a sweep that starts at `start`: the step is
      added once per step, as the sweep accumulates it. */
  function StepTime(start: real, res: real, k: nat): real
  {
    if k == 0 then start else StepTime(start, res, k - 1) + res
  }

  /** The number of steps whose time is at most `end`. */
  function StepCount(start: real, end: real, res: real): nat
    requires res > 0.0
  {
    if end < start then 0 else ((end - start) / res).Floor + 1
  }

  lemma {:induction false} StepTimeClosed(start: real, res: real, k: nat)
    ensures StepTime(start, res, k) == start + k as real * res
  {
    if k > 0 {
      StepTimeClosed(start, res, k - 1);
      assert (k - 1) as real * res + res == k as real * res;
    }
  }

  /** Comparing a product with a bound is comparing the factor with the
      bound's quotient. */
  lemma BelowQuotient(a: real, b: real, r: real)
    requires r > 0.0
    ensures a * r <= b <==> a <= b / r
  {
    if a * r <= b {
      assert a * r / r <= b / r;
    } else {
      assert a * r / r > b / r;
    }
  }

  /** The steps of the sweep are exactly those whose time is at most the end
      of the window. */
  lemma StepTimeInRange(start: real, end: real, res: real, k: nat)
    requires res > 0.0
    ensures StepTime(start, res, k) <= end <==> k < StepCount(start, end, res)
  {
    StepTimeClosed(start, res, k);
    assert k as real * res >= 0.0;
    if start <= end {
      BelowQuotient(k as real, end - start, res);
      var q := (end - start) / res;
      assert (k as real <= q) <==> k <= q.Floor;
    }
  }

  /** Step times start at the start of the window and strictly increase. */
  lemma {:induction false} StepTimeIncreasing(start: real, res: real, k: nat, l: nat)
    requires res > 0.0
    requires k < l
    ensures start <= StepTime(start, res, k) < StepTime(start, res, l)
    decreases l
  {
    if k + 1 < l {
      StepTimeIncreasing(start, res, k, l - 1);
    } else if k > 0 {
      StepTimeIncreasing(start, res, k - 1, k);
    }
  }

  /** The samples a sweep has recorded, and the error that stopped it, if
      one did. */
  datatype Scan = Scan(samples: seq<Conflict>, fault: Option<Error>)

  /** The conflict recorded when the primary drone at `p` and the drone of
      `flight` at `q` are too close at time `t`: the primary position doubles
      as the location, and the flight's identifier as its name. */
  function Sample(sqrt: real -> real, t: real, p: Waypoint, q: Waypoint, flight: Mission): Conflict
  {
    Conflict(t, p, Distance(sqrt, p, q), p, q, flight.missionId, flight.missionId)
  }

  /** The comparison of the primary drone, at `p` at time `t`, with the first
      `m` flights, in order. A flight not in the air is skipped; an error in
      interpolating a flight stops the scan. A NaN coordinate on either side
      makes the distance NaN, which is never below the buffer. */
  function FlightsScan(sqrt: real -> real, buffer: real, p: Position, flights: seq<Mission>, t: real, m: nat): Scan
    requires m <= |flights|
    decreases m
  {
    if m == 0 then Scan([], None)
    else
      var prev := FlightsScan(sqrt, buffer, p, flights, t, m - 1);
      if prev.fault.Some? then prev
      else match Interpolate(sqrt, flights[m - 1], t)
        case Absent => prev
        case Undefined => prev
        case Raised(e) => Scan(prev.samples, Some(e))
        case At(q) =>
          if p.At? && Distance(sqrt, p.pos, q) < buffer then
            Scan(prev.samples + [Sample(sqrt, t, p.pos, q, flights[m - 1])], None)
          else prev
  }

  /** The flight scan takes in one more flight, whose drone is at `pos`. */
  lemma FlightsScanStep(sqrt: real -> real, buffer: real, p: Position, flights: seq<Mission>, t: real, j: nat, pos: Position)
    requires j < |flights|
    requires FlightsScan(sqrt, buffer, p, flights, t, j).fault.None?
    requires pos == Interpolate(sqrt, flights[j], t)
    ensures var prev := FlightsScan(sqrt, buffer, p, flights, t, j);
      FlightsScan(sqrt, buffer, p, flights, t, j + 1) ==
        match pos
        case Absent => prev
        case Undefined => prev
        case Raised(e) => Scan(prev.samples, Some(e))
        case At(q) =>
          if p.At? && Distance(sqrt, p.pos, q) < buffer then
            Scan(prev.samples + [Sample(sqrt, t, p.pos, q, flights[j])], None)
          else prev
  {
  }

  /** One step of the sweep, at time `t`: nothing when the primary drone is not
      in the air, the error when interpolating it raises, and otherwise the
      scan of all flights. */
  function StepScan(sqrt: real -> real, buffer: real, primary: Mission, flights: seq<Mission>, t: real): Scan
  {
    var pos := Interpolate(sqrt, primary, t);
    match pos
    case Absent => Scan([], None)
    case Raised(e) => Scan([], Some(e))
    case _ => FlightsScan(sqrt, buffer, pos, flights, t, |flights|)
  }

  /** The first `n` steps of the sweep over the primary mission's window; the
      first error stops it. */
  function Sweep(sqrt: real -> real, buffer: real, res: real, primary: Mission, flights: seq<Mission>, n: nat): Scan
    decreases n
  {
    if n == 0 then Scan([], None)
    else
      var prev := Sweep(sqrt, buffer, res, primary, flights, n - 1);
      if prev.fault.Some? then prev
      else
        var step := StepScan(sqrt, buffer, primary, flights, StepTime(primary.startTime, res, n - 1));
        Scan(prev.samples + step.samples, step.fault)
  }

  /** Every sample of the flight scan is a conflict with one of the scanned
      flights, and without an error every such conflict is sampled. All
      samples are taken at time `t`. */
  lemma {:induction false} FlightsScanExact(sqrt: real -> real, buffer: real, p: Position, flights: seq<Mission>, t: real, m: nat)
    requires m <= |flights|
    ensures forall c :: c in FlightsScan(sqrt, buffer, p, flights, t, m).samples ==>
      p.At? && c.time == t && exists j: nat :: j < m && FlightConflict(sqrt, buffer, p.pos, flights, t, j, c)
    ensures FlightsScan(sqrt, buffer, p, flights, t, m).fault.None? && p.At? ==>
      forall j: nat, c :: j < m && FlightConflict(sqrt, buffer, p.pos, flights, t, j, c) ==>
        c in FlightsScan(sqrt, buffer, p, flights, t, m).samples
    decreases m
  {
    if m > 0 {
      FlightsScanExact(sqrt, buffer, p, flights, t, m - 1);
      var prev := FlightsScan(sqrt, buffer, p, flights, t, m - 1);
      if prev.fault.None? {
        match Interpolate(sqrt, flights[m - 1], t)
        case Absent =>
        case Undefined =>
        case Raised(_) =>
        case At(q) =>
          if p.At? && Distance(sqrt, p.pos, q) < buffer {
            assert FlightConflict(sqrt, buffer, p.pos, flights, t, m - 1, Sample(sqrt, t, p.pos, q, flights[m - 1]));
          }
      }
    }
  }

  /** The drone of flight `j` is at a point closer than the buffer to `p` at
      time `t`, and `c` is the conflict recorded for it. */
  ghost predicate FlightConflict(sqrt: real -> real, buffer: real, p: Waypoint, flights: seq<Mission>, t: real,
                                 j: nat, c: Conflict)
  {
    j < |flights| && Interpolate(sqrt, flights[j], t).At? &&
    var q := Interpolate(sqrt, flights[j], t).pos;
    Distance(sqrt, p, q) < buffer && c == Sample(sqrt, t, p, q, flights[j])
  }

  /** The flight scan fails exactly when interpolating one of the scanned
      flights raises. */
  lemma {:induction false} FlightsScanFaultIff(sqrt: real -> real, buffer: real, p: Position, flights: seq<Mission>, t: real, m: nat)
    requires m <= |flights|
    ensures FlightsScan(sqrt, buffer, p, flights, t, m).fault.None? <==>
      forall j :: 0 <= j < m ==> !Interpolate(sqrt, flights[j], t).Raised?
    decreases m
  {
    if m > 0 {
      FlightsScanFaultIff(sqrt, buffer, p, flights, t, m - 1);
    }
  }

  /** At step `k` the primary drone is in the air, the drone of flight `j` is
      closer to it than the buffer, and `c` is the conflict recorded for
      them. */
  ghost predicate Violation(sqrt: real -> real, buffer: real, res: real, primary: Mission, flights: seq<Mission>,
                            k: nat, j: nat, c: Conflict)
  {
    var t := StepTime(primary.startTime, res, k);
    Interpolate(sqrt, primary, t).At? &&
    FlightConflict(sqrt, buffer, Interpolate(sqrt, primary, t).pos, flights, t, j, c)
  }

  /** A step fails exactly when interpolating the primary mission raises, or
      the primary drone is in the air and interpolating one of the flights
      raises. */
  lemma StepScanFaultIff(sqrt: real -> real, buffer: real, primary: Mission, flights: seq<Mission>, t: real)
    ensures StepScan(sqrt, buffer, primary, flights, t).fault.None? <==>
      !Interpolate(sqrt, primary, t).Raised? &&
      (!Interpolate(sqrt, primary, t).Absent? ==>
        forall j :: 0 <= j < |flights| ==> !Interpolate(sqrt, flights[j], t).Raised?)
  {
    var pos := Interpolate(sqrt, primary, t);
    if !pos.Absent? && !pos.Raised? {
      FlightsScanFaultIff(sqrt, buffer, pos, flights, t, |flights|);
    }
  }

  /** A sweep that has not failed takes its next step. */
  lemma SweepStep(sqrt: real -> real, buffer: real, res: real, primary: Mission, flights: seq<Mission>, k: nat)
    requires Sweep(sqrt, buffer, res, primary, flights, k).fault.None?
    ensures var step := StepScan(sqrt, buffer, primary, flights, StepTime(primary.startTime, res, k));
      Sweep(sqrt, buffer, res, primary, flights, k + 1) ==
        Scan(Sweep(sqrt, buffer, res, primary, flights, k).samples + step.samples, step.fault)
  {
  }

  /** Once the sweep has failed, later steps change nothing. */
  lemma {:induction false} SweepFaultSticks(sqrt: real -> real, buffer: real, res: real, primary: Mission,
                                            flights: seq<Mission>, n: nat, n': nat)
    requires n <= n'
    requires Sweep(sqrt, buffer, res, primary, flights, n).fault.Some?
    ensures Sweep(sqrt, buffer, res, primary, flights, n') == Sweep(sqrt, buffer, res, primary, flights, n)
    decreases n'
  {
    if n < n' {
      SweepFaultSticks(sqrt, buffer, res, primary, flights, n, n' - 1);
    }
  }

  /** Step `k` of the sweep raises no error. */
  predicate StepCompletes(sqrt: real -> real, buffer: real, res: real, primary: Mission, flights: seq<Mission>, k: nat)
  {
    StepScan(sqrt, buffer, primary, flights, StepTime(primary.startTime, res, k)).fault.None?
  }

  /** The sweep completes its first `n` steps without error exactly when each
      of them completes. */
  lemma {:induction false} SweepFaultIff(sqrt: real -> real, buffer: real, res: real, primary: Mission,
                                         flights: seq<Mission>, n: nat)
    ensures Sweep(sqrt, buffer, res, primary, flights, n).fault.None? <==>
      forall k: nat :: k < n ==> StepCompletes(sqrt, buffer, res, primary, flights, k)
    decreases n
  {
    if n > 0 {
      SweepFaultIff(sqrt, buffer, res, primary, flights, n - 1);
      assert StepCompletes(sqrt, buffer, res, primary, flights, n - 1) <==>
        StepScan(sqrt, buffer, primary, flights, StepTime(primary.startTime, res, n - 1)).fault.None?;
    }
  }

  /** Every sample of the sweep is the conflict of a violation at one of its
      steps, and, when the sweep has not failed, every violation at one of its
      steps is sampled. */
  lemma {:induction false} SweepExact(sqrt: real -> real, buffer: real, res: real, primary: Mission,
                                      flights: seq<Mission>, n: nat)
    ensures forall c :: c in Sweep(sqrt, buffer, res, primary, flights, n).samples ==>
      exists k: nat, j: nat :: k < n && Violation(sqrt, buffer, res, primary, flights, k, j, c)
    ensures Sweep(sqrt, buffer, res, primary, flights, n).fault.None? ==>
      forall k: nat, j: nat, c :: k < n && Violation(sqrt, buffer, res, primary, flights, k, j, c) ==>
        c in Sweep(sqrt, buffer, res, primary, flights, n).samples
    decreases n
  {
    if n > 0 {
      SweepExact(sqrt, buffer, res, primary, flights, n - 1);
      var prev := Sweep(sqrt, buffer, res, primary, flights, n - 1);
      var t := StepTime(primary.startTime, res, n - 1);
      var pos := Interpolate(sqrt, primary, t);
      if prev.fault.None? && !pos.Absent? && !pos.Raised? {
        FlightsScanExact(sqrt, buffer, pos, flights, t, |flights|);
        var k := n - 1;
        forall c | c in StepScan(sqrt, buffer, primary, flights, t).samples
          ensures exists j: nat :: Violation(sqrt, buffer, res, primary, flights, k, j, c)
        {
          var j: nat :| j < |flights| && FlightConflict(sqrt, buffer, pos.pos, flights, t, j, c);
          assert Violation(sqrt, buffer, res, primary, flights, k, j, c);
        }
      }
    }
  }

  /** The samples of the sweep are in order of time. */
  lemma {:induction false} SweepOrdered(sqrt: real -> real, buffer: real, res: real, primary: Mission,
                                        flights: seq<Mission>, n: nat)
    requires res > 0.0
    ensures forall a, b :: 0 <= a < b < |Sweep(sqrt, buffer, res, primary, flights, n).samples| ==>
      Sweep(sqrt, buffer, res, primary, flights, n).samples[a].time <=
      Sweep(sqrt, buffer, res, primary, flights, n).samples[b].time
    ensures forall c :: c in Sweep(sqrt, buffer, res, primary, flights, n).samples ==>
      primary.startTime <= c.time && (n > 0 ==> c.time <= StepTime(primary.startTime, res, n - 1))
    decreases n
  {
    if n > 0 {
      SweepOrdered(sqrt, buffer, res, primary, flights, n - 1);
      var prev := Sweep(sqrt, buffer, res, primary, flights, n - 1);
      var t := StepTime(primary.startTime, res, n - 1);
      if n > 1 {
        StepTimeIncreasing(primary.startTime, res, n - 2, n - 1);
      }
      if prev.fault.None? {
        var step := StepScan(sqrt, buffer, primary, flights, t);
        var pos := Interpolate(sqrt, primary, t);
        if !pos.Absent? && !pos.Raised? {
          FlightsScanExact(sqrt, buffer, pos, flights, t, |flights|);
        }
        assert forall c :: c in step.samples ==> c.time == t;
        var s := prev.samples + step.samples;
        forall a, b | 0 <= a < b < |s|
          ensures s[a].time <= s[b].time
        {
          if b >= |prev.samples| {
            assert s[b] in step.samples;
            if a < |prev.samples| {
              assert s[a] in prev.samples;
            } else {
              assert s[a] in step.samples;
            }
          } else {
            assert s[a] == prev.samples[a];
          }
        }
      }
    }
  }

  /** Once the flight scan has failed, scanning more flights changes nothing. */
  lemma {:induction false} FlightsScanFaultSticks(sqrt: real -> real, buffer: real, p: Position, flights: seq<Mission>,
                                                  t: real, m: nat, m': nat)
    requires m <= m' <= |flights|
    requires FlightsScan(sqrt, buffer, p, flights, t, m).fault.Some?
    ensures FlightsScan(sqrt, buffer, p, flights, t, m') == FlightsScan(sqrt, buffer, p, flights, t, m)
    decreases m'
  {
    if m < m' {
      FlightsScanFaultSticks(sqrt, buffer, p, flights, t, m, m' - 1);
    }
  }

  /** Sample `c` of the first `n` steps is a real conflict: closer than the
      buffer, recorded at the primary drone's position, at one of the
      sweep's step times within the primary mission's window, against a
      flight that is in the air at that time at the recorded position. */
  ghost predicate GenuineSample(sqrt: real -> real, buffer: real, res: real, primary: Mission, flights: seq<Mission>,
                                n: nat, c: Conflict)
  {
    c.distance < buffer && c.location == c.primaryPosition && c.flightName == c.flightId &&
    primary.startTime <= c.time <= primary.endTime &&
    (exists k: nat :: k < n && c.time == StepTime(primary.startTime, res, k)) &&
    Interpolate(sqrt, primary, c.time) == At(c.primaryPosition) &&
    exists j :: 0 <= j < |flights| && flights[j].missionId == c.flightId &&
                Interpolate(sqrt, flights[j], c.time) == At(c.otherPosition)
  }

  /** Every sample of a sweep within the window is a genuine conflict. */
  lemma SampleFacts(sqrt: real -> real, buffer: real, res: real, primary: Mission, flights: seq<Mission>, n: nat)
    requires res > 0.0
    requires n <= StepCount(primary.startTime, primary.endTime, res)
    ensures forall c :: c in Sweep(sqrt, buffer, res, primary, flights, n).samples ==>
      GenuineSample(sqrt, buffer, res, primary, flights, n, c)
  {
    SweepExact(sqrt, buffer, res, primary, flights, n);
    forall c | c in Sweep(sqrt, buffer, res, primary, flights, n).samples
      ensures GenuineSample(sqrt, buffer, res, primary, flights, n, c)
    {
      var k: nat, j: nat :| k < n && Violation(sqrt, buffer, res, primary, flights, k, j, c);
      var t := StepTime(primary.startTime, res, k);
      var p := Interpolate(sqrt, primary, t).pos;
      var q := Interpolate(sqrt, flights[j], t).pos;
      assert c == Sample(sqrt, t, p, q, flights[j]);
      assert c.time == t && c.primaryPosition == p && c.otherPosition == q;
      StepTimeInRange(primary.startTime, primary.endTime, res, k);
      if k > 0 {
        StepTimeIncreasing(primary.startTime, res, 0, k);
      }
    }
  }
}
