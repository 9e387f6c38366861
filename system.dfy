/** The strategic deconfliction engine: it checks a primary drone mission
    against other flights by sampling positions over the primary mission's
    time window, merges the violations it finds into conflict windows, and
    summarises them. */
module Deconfliction {
  import opened Models
  import opened Geometry
  import opened Scanning
  import opened Consolidation
  import opened Reporting

  /** The result of a check: a report, or the error that interrupted it. */
  datatype Outcome = Ok(result: CheckResult) | Failed(error: Error)

  /** The raw conflicts the sweep over the whole window records. */
  function RawConflicts(sqrt: real -> real, buffer: real, res: real, primary: Mission, flights: seq<Mission>): seq<Conflict>
    requires res > 0.0
  {
    Sweep(sqrt, buffer, res, primary, flights, StepCount(primary.startTime, primary.endTime, res)).samples
  }

  /** The check of a primary mission against other flights, given a square
      root, a safety buffer and a positive time step: the sweep over all step
      times of the primary mission's window, then the consolidated report. */
  function Check(sqrt: real -> real, buffer: real, res: real, primary: Mission, flights: seq<Mission>): Outcome
    requires res > 0.0
  {
    var scan := Sweep(sqrt, buffer, res, primary, flights, StepCount(primary.startTime, primary.endTime, res));
    if scan.fault.Some? then Failed(scan.fault.value) else Ok(Report(Consolidate(scan.samples, res)))
  }

  /** The check succeeds exactly when every step within the window
      completes without an interpolation error. */
  lemma CheckOkIff(sqrt: real -> real, buffer: real, res: real, primary: Mission, flights: seq<Mission>)
    requires res > 0.0
    ensures Check(sqrt, buffer, res, primary, flights).Ok? <==>
      forall k: nat :: k < StepCount(primary.startTime, primary.endTime, res) ==>
        StepCompletes(sqrt, buffer, res, primary, flights, k)
  {
    SweepFaultIff(sqrt, buffer, res, primary, flights, StepCount(primary.startTime, primary.endTime, res));
  }

  /** A successful check reports the status Clear exactly when no step
      within the window has a violation. */
  lemma CheckClearIff(sqrt: real -> real, buffer: real, res: real, primary: Mission, flights: seq<Mission>)
    requires res > 0.0
    requires Check(sqrt, buffer, res, primary, flights).Ok?
    ensures Check(sqrt, buffer, res, primary, flights).result.status == Clear <==>
      forall k: nat, j: nat, c :: k < StepCount(primary.startTime, primary.endTime, res) ==>
        !Violation(sqrt, buffer, res, primary, flights, k, j, c)
  {
    var n := StepCount(primary.startTime, primary.endTime, res);
    var cs := RawConflicts(sqrt, buffer, res, primary, flights);
    SweepExact(sqrt, buffer, res, primary, flights, n);
    assert Check(sqrt, buffer, res, primary, flights).result.status == Clear <==> |cs| == 0;
    if |cs| > 0 {
      assert cs[0] in cs;
    }
  }

  /** A sweep against no flights records nothing. */
  lemma {:induction false} SweepWithoutFlights(sqrt: real -> real, buffer: real, res: real, primary: Mission, n: nat)
    ensures Sweep(sqrt, buffer, res, primary, [], n).samples == []
    decreases n
  {
    if n > 0 {
      SweepWithoutFlights(sqrt, buffer, res, primary, n - 1);
    }
  }

  /** Without other flights nothing can conflict: the check either fails or
      reports Clear with no windows and an empty summary. */
  lemma CheckWithoutFlights(sqrt: real -> real, buffer: real, res: real, primary: Mission)
    requires res > 0.0
    ensures Check(sqrt, buffer, res, primary, []).Failed? ||
            Check(sqrt, buffer, res, primary, []) == Ok(CheckResult(Clear, [], Summary(0, 0, None)))
  {
    SweepWithoutFlights(sqrt, buffer, res, primary, StepCount(primary.startTime, primary.endTime, res));
  }

  /** Every step of a regular primary mission's window finds the drone in
      the air. */
  lemma RegularStepsAirborne(sqrt: real -> real, res: real, primary: Mission, k: nat)
    requires IsSqrt(sqrt) && res > 0.0 && Regular(primary)
    requires k < StepCount(primary.startTime, primary.endTime, res)
    ensures Interpolate(sqrt, primary, StepTime(primary.startTime, res, k)).At?
  {
    StepTimeInRange(primary.startTime, primary.endTime, res, k);
    if k > 0 {
      StepTimeIncreasing(primary.startTime, res, 0, k);
    }
    InterpolateRegular(sqrt, primary, StepTime(primary.startTime, res, k));
  }

  /** A regular primary mission with no other flights is clear. */
  lemma CheckRegularWithoutFlights(sqrt: real -> real, buffer: real, res: real, primary: Mission)
    requires IsSqrt(sqrt) && res > 0.0 && Regular(primary)
    ensures Check(sqrt, buffer, res, primary, []) == Ok(CheckResult(Clear, [], Summary(0, 0, None)))
  {
    forall k: nat | k < StepCount(primary.startTime, primary.endTime, res)
      ensures StepCompletes(sqrt, buffer, res, primary, [], k)
    {
      RegularStepsAirborne(sqrt, res, primary, k);
    }
    CheckOkIff(sqrt, buffer, res, primary, []);
    CheckWithoutFlights(sqrt, buffer, res, primary);
  }

  /** A primary mission whose window is a single instant fails the check
      with a division by zero at its first step. */
  lemma CheckZeroDuration(sqrt: real -> real, buffer: real, res: real, primary: Mission, flights: seq<Mission>)
    requires res > 0.0
    requires primary.startTime == primary.endTime
    ensures Check(sqrt, buffer, res, primary, flights) == Failed(ZeroDivision)
  {
    assert StepCount(primary.startTime, primary.endTime, res) == 1;
    InterpolateZeroDuration(sqrt, primary);
    assert Sweep(sqrt, buffer, res, primary, flights, 1).fault == Some(ZeroDivision);
  }

  /** Every window a successful check reports is a real conflict: its
      closest approach is within the buffer, it lies within the primary
      mission's window, starting no later than it ends, and it names one of
      the flights. */
  lemma CheckWindowsSound(sqrt: real -> real, buffer: real, res: real, primary: Mission, flights: seq<Mission>)
    requires res > 0.0
    requires Check(sqrt, buffer, res, primary, flights).Ok?
    ensures forall w :: w in Check(sqrt, buffer, res, primary, flights).result.conflicts ==>
      w.minDistance < buffer &&
      primary.startTime <= w.startTime <= w.endTime <= primary.endTime &&
      exists j :: 0 <= j < |flights| && flights[j].missionId == w.flightId
  {
    var n := StepCount(primary.startTime, primary.endTime, res);
    var cs := RawConflicts(sqrt, buffer, res, primary, flights);
    var ws := Consolidate(cs, res);
    assert forall w :: w in ws ==> w.startTime <= w.endTime by {
      SweepOrdered(sqrt, buffer, res, primary, flights, n);
      WindowsInOrder(cs, res);
    }
    SampleFacts(sqrt, buffer, res, primary, flights, n);
    WindowsFromSamples(cs, res);
    forall w | w in ws
      ensures w.minDistance < buffer && primary.startTime <= w.startTime && w.endTime <= primary.endTime
      ensures exists j :: 0 <= j < |flights| && flights[j].missionId == w.flightId
    {
      var c :| c in cs && c.flightId == w.flightId && c.distance == w.minDistance;
      var c' :| c' in cs && c'.time == w.startTime && c'.location == w.location &&
                c'.flightId == w.flightId && c'.flightName == w.flightName;
      var c'' :| c'' in cs && c''.time == w.endTime && c''.flightId == w.flightId;
    }
  }

  /** Every violation within the window of a successful check lies within a
      reported window of its flight whose closest approach is at most the
      violation's distance. */
  lemma CheckWindowsCover(sqrt: real -> real, buffer: real, res: real, primary: Mission, flights: seq<Mission>)
    requires res > 0.0
    requires Check(sqrt, buffer, res, primary, flights).Ok?
    ensures forall k: nat, j: nat, c ::
      k < StepCount(primary.startTime, primary.endTime, res) &&
      Violation(sqrt, buffer, res, primary, flights, k, j, c) ==>
        exists w :: w in Check(sqrt, buffer, res, primary, flights).result.conflicts &&
          w.flightId == c.flightId && w.startTime <= c.time <= w.endTime && w.minDistance <= c.distance
  {
    var n := StepCount(primary.startTime, primary.endTime, res);
    var cs := RawConflicts(sqrt, buffer, res, primary, flights);
    SweepExact(sqrt, buffer, res, primary, flights, n);
    SweepOrdered(sqrt, buffer, res, primary, flights, n);
    SamplesWithinWindows(cs, res);
  }

  /** The summary of a successful check, in terms of the raw conflicts: it
      counts the windows and the distinct flights of the raw conflicts, and
      its minimum distance is the smallest raw distance, which is within the
      buffer. */
  lemma CheckSummary(sqrt: real -> real, buffer: real, res: real, primary: Mission, flights: seq<Mission>)
    requires res > 0.0
    requires Check(sqrt, buffer, res, primary, flights).Ok?
    ensures var r := Check(sqrt, buffer, res, primary, flights).result;
      var cs := RawConflicts(sqrt, buffer, res, primary, flights);
      r.summary.totalConflicts == |r.conflicts| <= |cs| &&
      r.summary.affectedFlights == |set c | c in cs :: c.flightId| &&
      (|cs| == 0 <==> r.summary.minimumDistance.None?) &&
      (|cs| > 0 ==>
        r.summary.minimumDistance.value < buffer &&
        (forall c :: c in cs ==> r.summary.minimumDistance.value <= c.distance) &&
        (exists c :: c in cs && r.summary.minimumDistance.value == c.distance))
  {
    var n := StepCount(primary.startTime, primary.endTime, res);
    var cs := RawConflicts(sqrt, buffer, res, primary, flights);
    SummaryOfSamples(cs, res);
    SampleFacts(sqrt, buffer, res, primary, flights, n);
  }

  /** A sweep that fails within the window fails the whole check, with the
      same error and the same samples. */
  lemma CheckFailsAt(sqrt: real -> real, buffer: real, res: real, primary: Mission, flights: seq<Mission>, n: nat)
    requires res > 0.0
    requires n <= StepCount(primary.startTime, primary.endTime, res)
    requires Sweep(sqrt, buffer, res, primary, flights, n).fault.Some?
    ensures Check(sqrt, buffer, res, primary, flights) == Failed(Sweep(sqrt, buffer, res, primary, flights, n).fault.value)
    ensures Sweep(sqrt, buffer, res, primary, flights, StepCount(primary.startTime, primary.endTime, res))
            == Sweep(sqrt, buffer, res, primary, flights, n)
  {
    SweepFaultSticks(sqrt, buffer, res, primary, flights, n, StepCount(primary.startTime, primary.endTime, res));
  }

  /** A deconfliction engine with a safety buffer in meters, a time step in
      seconds and the raw conflicts of its last check. */
  class DeconflictionSystem {
    const safetyBuffer: real
    const timeResolution: real
    /** The square root the distance computations use. */
    const sqrt: real -> real
    var conflicts: seq<Conflict>

    /** A fresh engine, by default with a 50 m buffer and a 1 s step. */
    constructor (sqrt: real -> real, safetyBuffer: real := 50.0, timeResolution: real := 1.0)
      ensures this.sqrt == sqrt
      ensures this.safetyBuffer == safetyBuffer && this.timeResolution == timeResolution
      ensures conflicts == []
    {
      this.sqrt := sqrt;
      this.safetyBuffer := safetyBuffer;
      this.timeResolution := timeResolution;
      conflicts := [];
    }

    /** The length of the polyline, summing segment lengths in order. */
    method CalculatePathLength(wps: seq<Waypoint>) returns (length: real)
      ensures length == PathLength(sqrt, wps)
    {
      length := 0.0;
      var i := 0;
      while i + 1 < |wps|
        invariant |wps| == 0 ==> i == 0
        invariant |wps| > 0 ==> i < |wps|
        invariant length == PathLength(sqrt, wps[..if |wps| == 0 then 0 else i + 1])
      {
        PathLengthStep(sqrt, wps, i);
        length := length + Distance(sqrt, wps[i], wps[i + 1]);
        i := i + 1;
      }
      if |wps| > 0 {
        assert wps[..i + 1] == wps;
      }
    }

    /** The position of the mission's drone at time `t`. */
    method InterpolatePosition(m: Mission, t: real) returns (r: Position)
      ensures r == Interpolate(sqrt, m, t)
    {
      if t < m.startTime || t > m.endTime {
        return Absent;
      }
      var totalDistance := CalculatePathLength(m.waypoints);
      var timeElapsed := t - m.startTime;
      var totalDuration := m.endTime - m.startTime;
      if totalDuration == 0.0 {
        return Raised(ZeroDivision);
      }
      var progress := timeElapsed / totalDuration;
      var targetDistance := progress * totalDistance;
      assert targetDistance == TargetDistance(sqrt, m, t);
      var accumulated := 0.0;
      var i := 0;
      while i + 1 < |m.waypoints|
        invariant Seek(sqrt, m.waypoints, i, accumulated, targetDistance)
                  == Seek(sqrt, m.waypoints, 0, 0.0, targetDistance)
        decreases |m.waypoints| - i
      {
        var segmentLength := Distance(sqrt, m.waypoints[i], m.waypoints[i + 1]);
        if accumulated + segmentLength >= targetDistance {
          if segmentLength == 0.0 {
            // NumPy divides zero by a zero length to NaN
            return Undefined;
          }
          var segmentProgress := (targetDistance - accumulated) / segmentLength;
          return At(Lerp(m.waypoints[i], m.waypoints[i + 1], segmentProgress));
        }
        accumulated := accumulated + segmentLength;
        i := i + 1;
      }
      if |m.waypoints| == 0 {
        return Raised(IndexOutOfRange);
      }
      return At(Last(m.waypoints));
    }

    /** Merge the raw samples into conflict windows in one pass. */
    method ConsolidateConflicts(cs: seq<Conflict>) returns (consolidated: seq<ConflictWindow>)
      ensures consolidated == Consolidate(cs, timeResolution)
    {
      if |cs| == 0 {
        return [];
      }
      consolidated := [];
      var current := Open(cs[0]);
      ConsolidateSingle(cs[0], timeResolution);
      assert cs[..1] == [cs[0]];
      for i := 1 to |cs|
        invariant consolidated + [current] == Consolidate(cs[..i], timeResolution)
      {
        var conflict := cs[i];
        ConsolidateStep(cs, i, consolidated, current, timeResolution);
        if Joins(current, conflict, timeResolution) {
          current := Extend(current, conflict);
        } else {
          consolidated := consolidated + [current];
          current := Open(conflict);
        }
      }
      assert cs[..|cs|] == cs;
      consolidated := consolidated + [current];
    }

    /** One time step of `CheckMission` with the primary drone at `p`: compare
        it with each flight in the air at `currentTime` and record the
        flights closer than the buffer. An interpolation error stops the
        step. */
    method CheckFlightsAt(p: Position, flights: seq<Mission>, currentTime: real) returns (fault: Option<Error>)
      modifies this
      ensures conflicts == old(conflicts) + FlightsScan(sqrt, safetyBuffer, p, flights, currentTime, |flights|).samples
      ensures fault == FlightsScan(sqrt, safetyBuffer, p, flights, currentTime, |flights|).fault
    {
      for j := 0 to |flights|
        invariant FlightsScan(sqrt, safetyBuffer, p, flights, currentTime, j).fault.None?
        invariant conflicts == old(conflicts) + FlightsScan(sqrt, safetyBuffer, p, flights, currentTime, j).samples
      {
        var flight := flights[j];
        var otherPos := InterpolatePosition(flight, currentTime);
        FlightsScanStep(sqrt, safetyBuffer, p, flights, currentTime, j, otherPos);
        if otherPos.Raised? {
          FlightsScanFaultSticks(sqrt, safetyBuffer, p, flights, currentTime, j + 1, |flights|);
          return Some(otherPos.error);
        }
        if otherPos.Absent? {
          continue;
        }
        if !p.At? || !otherPos.At? {
          // a NaN coordinate makes the distance NaN, never below the buffer
          continue;
        }
        var distance := Distance(sqrt, p.pos, otherPos.pos);
        if distance < safetyBuffer {
          var conflict := Conflict(currentTime, p.pos, distance, p.pos, otherPos.pos, flight.missionId, flight.missionId);
          ghost var scanned := FlightsScan(sqrt, safetyBuffer, p, flights, currentTime, j).samples;
          assert conflict == Sample(sqrt, currentTime, p.pos, otherPos.pos, flight);
          assert conflicts + [conflict] == old(conflicts) + (scanned + [conflict]);
          conflicts := conflicts + [conflict];
        }
      }
      return None;
    }

    /** One time step of `CheckMission`, at `currentTime`: nothing when the
        primary drone is not in the air, otherwise the comparison with every
        flight. An interpolation error stops the step. */
    method CheckStep(primary: Mission, flights: seq<Mission>, currentTime: real) returns (fault: Option<Error>)
      modifies this
      ensures conflicts == old(conflicts) + StepScan(sqrt, safetyBuffer, primary, flights, currentTime).samples
      ensures fault == StepScan(sqrt, safetyBuffer, primary, flights, currentTime).fault
    {
      var primaryPos := InterpolatePosition(primary, currentTime);
      if primaryPos.Raised? {
        return Some(primaryPos.error);
      }
      if primaryPos.Absent? {
        return None;
      }
      fault := CheckFlightsAt(primaryPos, flights, currentTime);
    }

    /** Check the primary mission against the other flights: record every
        sampled violation in `conflicts`, then report the consolidated
        windows. An interpolation error ends the check, leaving the samples
        recorded up to that point. */
    method CheckMission(primary: Mission, flights: seq<Mission>) returns (outcome: Outcome)
      requires timeResolution > 0.0
      modifies this
      ensures outcome == Check(sqrt, safetyBuffer, timeResolution, primary, flights)
      ensures conflicts == RawConflicts(sqrt, safetyBuffer, timeResolution, primary, flights)
    {
      var steps := StepCount(primary.startTime, primary.endTime, timeResolution);
      conflicts := [];
      var currentTime := primary.startTime;
      ghost var k: nat := 0;
      while currentTime <= primary.endTime
        invariant currentTime == StepTime(primary.startTime, timeResolution, k)
        invariant k <= steps
        invariant Sweep(sqrt, safetyBuffer, timeResolution, primary, flights, k).fault.None?
        invariant conflicts == Sweep(sqrt, safetyBuffer, timeResolution, primary, flights, k).samples
        decreases steps - k
      {
        StepTimeInRange(primary.startTime, primary.endTime, timeResolution, k);
        SweepStep(sqrt, safetyBuffer, timeResolution, primary, flights, k);
        var fault := CheckStep(primary, flights, currentTime);
        if fault.Some? {
          CheckFailsAt(sqrt, safetyBuffer, timeResolution, primary, flights, k + 1);
          return Failed(fault.value);
        }
        currentTime := currentTime + timeResolution;
        k := k + 1;
      }
      StepTimeInRange(primary.startTime, primary.endTime, timeResolution, k);
      assert k == steps;
      var consolidated := ConsolidateConflicts(conflicts);
      var summary := GenerateSummary(consolidated);
      return Ok(CheckResult(if |consolidated| == 0 then Clear else ConflictDetected, consolidated, summary));
    }
  }
}
