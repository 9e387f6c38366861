# Strategic deconfliction of drone missions, in Dafny

This project models the core of a strategic deconfliction system for drones.
A *mission* is a list of 3-D waypoints that a drone flies at constant speed
between a start time and an end time. A *primary* mission is checked against a
list of already scheduled *simulated flights*:

- The primary mission's time window is swept in steps of the time resolution.
- At each step, the position of every drone is interpolated along its path by
  arc length.
- Whenever another drone is closer to the primary drone than the safety buffer,
  a raw conflict sample is recorded.
- Consecutive samples of the same flight that are at most two time steps apart
  are merged into conflict windows.
- A summary (number of windows, number of distinct flights, smallest separation)
  and a verdict (clear or conflict detected) are reported.

Files:

- `models.dfy` (module `Models`): the records `Waypoint`, `Mission` and
  `Conflict`.
- `geometry.dfy` (module `Geometry`): Euclidean distance, linear interpolation,
  path length and position interpolation. The outcome of interpolation is a
  `Position`:
  - `Absent`: the drone is not in the air.
  - `At(p)`: the drone is at `p`.
  - `Undefined`: the coordinates are NaN.
  - `Raised(e)`: the Python code raises an exception.
- `scanning.dfy` (module `Scanning`): the time sweep and the raw conflict
  samples it records, specified by recursive functions.
- `consolidation.dfy` (module `Consolidation`): the merging of samples into
  windows. It is specified as the maximal runs of samples (`Groups`), each
  summarized into one window.
- `reporting.dfy` (module `Reporting`): the summary and the report.
- `system.dfy` (module `Deconfliction`):
  - the class `DeconflictionSystem`, whose loops are proved against the
    functions above;
  - the end-to-end function `Check`;
  - the end-to-end properties of a check.

The square root used by the Euclidean norm is a parameter `sqrt` of the model.
Lemmas that need it to be a square root require `IsSqrt(sqrt)`, or the weaker
`RootNonNegative(sqrt)`.

The model follows the code exactly, including where its behaviour is
probably not what was intended:

- A mission whose start and end times are equal makes the progress division
  `time_elapsed / total_duration` raise `ZeroDivisionError`
  (`deconfliction_system.py:41`). A guard that returns the first waypoint
  would avoid this. `CheckZeroDuration` proves that such a primary mission
  makes the whole check fail.
- A zero-length segment is not skipped. When the sought arc length falls on
  it, the code divides the NumPy value zero by the length zero, which gives
  NaN (`deconfliction_system.py:49`). A NaN position never lies within the
  buffer, so no conflict is recorded for it (`Undefined`,
  `InterpolateUndefinedIff`).
- Consolidation merges consecutive samples of the raw list, which is ordered by
  time step and then by flight. It does not group samples per flight first. A
  window's location is the location of its first sample, not of its closest
  approach.
- The sweep visits `start + k * resolution` for every `k` at which that time
  is not past the end time. The end time itself is visited only when the
  resolution divides the duration.
- An empty waypoint list makes `waypoints[-1]` raise `IndexError` whenever the
  drone is in the air during a window of positive length (`IndexOutOfRange`).
  In a window of length zero the division at `deconfliction_system.py:41`
  raises `ZeroDivisionError` first.

## Model

| member | source | states |
|---|---|---|
| Models.Waypoint.ToArray | models.py:17-19 | the array form has three entries, and the waypoint is recovered from it |
| Models.WaypointEquality | models.py:10-15 | two waypoints are equal exactly when their arrays are equal, exactly when their three coordinates are equal |
| Models.Mission.Duration | models.py:33-35 | the duration is non-negative exactly when the start is not after the end, and zero exactly when they coincide |
| Models.DefaultMissionId | models.py:31 | a mission built without an identifier is called "PRIMARY" |
| Geometry.SquaredDistanceFacts | deconfliction_system.py:25-27 | the squared distance is non-negative, and zero exactly for equal points |
| Geometry.DistanceIsNorm | deconfliction_system.py:25-27 | the distance is the norm of the difference of the two coordinate arrays |
| Geometry.DistanceNonNegative | deconfliction_system.py:25-27 | a distance is never negative |
| Geometry.DistanceSymmetric | deconfliction_system.py:25-27 | the distance from p to q equals the distance from q to p |
| Geometry.DistanceZeroIff | deconfliction_system.py:25-27 | the distance is zero exactly when the two waypoints coincide |
| Geometry.DistanceBelowIff | deconfliction_system.py:25-27 | for a positive buffer, the distance is below the buffer exactly when the squared distance is below the buffer squared |
| Geometry.Lerp | deconfliction_system.py:67-73 | fraction 0 gives the first waypoint and fraction 1 the second |
| Geometry.LerpHalfway | deconfliction_system.py:67-73 | fraction one half gives the midpoint of the two waypoints |
| Geometry.PathLengthStep | deconfliction_system.py:60-65 | the length of a path prefix grows by exactly the next segment's length |
| Geometry.PathLengthNonNegative | deconfliction_system.py:60-65 | the path length is never negative |
| Geometry.PathLengthShort | deconfliction_system.py:60-65 | a path of fewer than two waypoints has length zero |
| Geometry.SeekNeverAbsent | deconfliction_system.py:44-58 | the segment search always yields some outcome other than "not in the air" |
| Geometry.SeekStopLands | deconfliction_system.py:45-54 | on a segment of positive length that ends at or beyond the target, the point interpolated at the target's fraction of that segment lies on the path at the target arc length |
| Geometry.SeekContinues | deconfliction_system.py:45-56 | when a segment ends short of a target within the path, another segment follows, and the length accumulated before it grows by exactly that segment |
| Geometry.SeekNeverRaises | deconfliction_system.py:44-58 | a path with a segment left to search never raises an error |
| Geometry.SeekUndefinedIff | deconfliction_system.py:44-58 | from a point before the target, the search gives NaN exactly when the target is reached at a zero-length segment |
| Geometry.SeekLands | deconfliction_system.py:44-58 | when a search for a target within the path finds a point, that point lies on the path at the target arc length |
| Geometry.InterpolateAbsentIff | deconfliction_system.py:35-36 | the position is absent exactly when the time is outside the mission window |
| Geometry.TargetOnPath | deconfliction_system.py:38-42 | inside a positive-length window, the target arc length lies between zero and the path length, and is zero exactly at the start time or on a path of length zero |
| Geometry.InterpolateOnPath | deconfliction_system.py:29-58 | a path of two or more waypoints inside a positive-length window yields a point on the path at the target arc length, or NaN exactly when the target is zero and the first segment has zero length; it never raises |
| Geometry.InterpolateRaisesIff | deconfliction_system.py:35-58 | at a time inside the window, interpolation raises division by zero exactly for a zero-length window, and an index error exactly for an empty waypoint list in a positive-length window |
| Geometry.InterpolateUndefinedIff | deconfliction_system.py:44-54 | interpolation gives NaN exactly when, in a positive-length window, the first two waypoints coincide and either the time is the start or the whole path has length zero |
| Geometry.InterpolateHover | deconfliction_system.py:45-58 | a single-waypoint mission with a positive-length window sits at that waypoint throughout its window |
| Geometry.InterpolateZeroDuration | deconfliction_system.py:39-41 | at the one instant of a zero-length window, interpolation raises division by zero |
| Geometry.InterpolateRegular | deconfliction_system.py:29-58 | a mission with a positive-length window, a waypoint, and distinct first two waypoints has a position exactly at the times inside its window |
| Geometry.InterpolateAtStart | deconfliction_system.py:29-58 | such a mission is at its first waypoint at its start time |
| Geometry.InterpolateMidpoint | deconfliction_system.py:38-54 | a mission between two distinct waypoints is at their midpoint halfway through its window |
| Scanning.StepTimeClosed | deconfliction_system.py:86-114 | the k-th sweep time, accumulated step by step, is start plus k times the resolution |
| Scanning.StepTimeInRange | deconfliction_system.py:87 | the k-th sweep time is not past the end exactly when k is below the number of steps |
| Scanning.StepTimeIncreasing | deconfliction_system.py:86-114 | sweep times start at the start time and strictly increase |
| Scanning.FlightsScanExact | deconfliction_system.py:94-112 | every sample of a step is a flight at a real position closer than the buffer; with no error and a real primary position, every such flight is sampled |
| Scanning.FlightsScanFaultIff | deconfliction_system.py:94-98 | scanning the flights fails exactly when one of them raises |
| Scanning.FlightsScanFaultSticks | deconfliction_system.py:94-95 | once a flight has raised, scanning further flights changes nothing |
| Scanning.StepScanFaultIff | deconfliction_system.py:88-112 | a step fails exactly when the primary raises, or the primary is in the air and some flight raises |
| Scanning.SweepFaultSticks | deconfliction_system.py:86-114 | once a sweep has failed, further steps change nothing |
| Scanning.SweepFaultIff | deconfliction_system.py:86-114 | the sweep of n steps completes exactly when each of the n steps completes |
| Scanning.SweepExact | deconfliction_system.py:86-114 | every sample is a buffer violation at some step and flight; a completed sweep samples every violation |
| Scanning.SweepOrdered | deconfliction_system.py:86-114 | samples are in non-decreasing time order, and each lies between the start time and the last visited step time |
| Scanning.SampleFacts | deconfliction_system.py:86-114 | every sample lies at a sweep step inside the primary window, is closer than the buffer, places the primary drone where interpolation puts it, and names a flight of the list positioned where its interpolation puts it |
| Consolidation.Min | deconfliction_system.py:144 | the minimum is one of its arguments and at most both |
| Consolidation.Groups | deconfliction_system.py:140-154 | the runs are non-empty, there are no more of them than samples, and none exactly when there are no samples |
| Consolidation.Consolidate | deconfliction_system.py:125-157 | one window per run, no more windows than samples, and no windows exactly when there are no samples |
| Consolidation.MinDistanceIsMinimum | deconfliction_system.py:144 | a run's distance is at most every sample's and is attained by one |
| Consolidation.GroupsPartition | deconfliction_system.py:125-157 | concatenating the runs gives back the samples in order |
| Consolidation.GroupsAreMaximalRuns | deconfliction_system.py:140-154 | each run has one flight and gaps of at most two steps, and no run could continue into the next one |
| Consolidation.SummarizeSnoc | deconfliction_system.py:141-144 | a sample joins the window of a run exactly when it continues the run, and the window of the extended run is the extended window |
| Consolidation.ConsolidateSingle | deconfliction_system.py:127-138 | one sample gives one window opened from it |
| Consolidation.ConsolidateSnoc | deconfliction_system.py:140-156 | one more sample either extends the last window or closes it and opens a new one, as the join test decides |
| Consolidation.ConsolidateStep | deconfliction_system.py:140-154 | the loop step from a closed list and a current window matches the windows of the longer prefix |
| Consolidation.WindowsOfRuns | deconfliction_system.py:125-157 | each window starts at its run's first sample, ends at its last, and has the run's smallest distance, location and flight |
| Consolidation.SamplesCovered | deconfliction_system.py:125-157 | every sample has a window of its flight whose distance is at most the sample's |
| Consolidation.WindowsFromSamples | deconfliction_system.py:125-157 | every window's distance, start with location, and end come from samples of its flight |
| Consolidation.WindowsInOrder | deconfliction_system.py:131-154 | for time-ordered samples every window starts no later than it ends |
| Consolidation.SamplesWithinWindows | deconfliction_system.py:125-157 | for time-ordered samples every sample lies inside a window of its flight whose distance is at most the sample's |
| Reporting.MinWindowDistanceIsMinimum | deconfliction_system.py:170 | the smallest window distance is at most every window's and is attained by one |
| Reporting.FlightIdsBound | deconfliction_system.py:169 | there are no more distinct flights than windows, and at least one when there is a window |
| Reporting.GenerateSummary | deconfliction_system.py:159-177 | no windows give zero counts and no minimum; otherwise the count is the number of windows, the flights are the distinct flight identifiers, and the minimum is the smallest window distance |
| Reporting.ConsolidatedFlights | deconfliction_system.py:169 | the flights of the windows are exactly the flights of the samples |
| Reporting.ConsolidatedMinimum | deconfliction_system.py:170 | the smallest window distance is the smallest sample distance |
| Reporting.SummaryOfSamples | deconfliction_system.py:159-177 | the summary, in terms of the samples: empty exactly for no samples, at most one window per sample, distinct sample flights counted, and the smallest sample distance as minimum |
| Deconfliction.CheckOkIff | deconfliction_system.py:75-123 | a check succeeds exactly when no step of the sweep raises |
| Deconfliction.CheckClearIff | deconfliction_system.py:75-123 | a successful check is clear exactly when no flight is closer than the buffer at any step |
| Deconfliction.SweepWithoutFlights | deconfliction_system.py:94 | with no flights, the sweep records no samples |
| Deconfliction.CheckWithoutFlights | deconfliction_system.py:75-123 | with no flights, the check fails or is clear with no windows and the empty summary |
| Deconfliction.RegularStepsAirborne | deconfliction_system.py:86-92 | for a regular primary mission every step of the sweep has the primary drone at a real position |
| Deconfliction.CheckRegularWithoutFlights | deconfliction_system.py:75-123 | a regular primary mission with no flights is clear with the empty summary |
| Deconfliction.CheckZeroDuration | deconfliction_system.py:41 | a primary mission with a zero-length window makes the check raise division by zero |
| Deconfliction.CheckWindowsSound | deconfliction_system.py:75-157 | every reported window lies within the primary window, is closer than the buffer, and names a flight of the list |
| Deconfliction.CheckWindowsCover | deconfliction_system.py:75-157 | every buffer violation at a sweep step lies inside a reported window of its flight whose distance is at most the violation's |
| Deconfliction.CheckSummary | deconfliction_system.py:116-177 | the summary counts the windows, at most one per raw sample, counts the distinct violating flights, has no minimum exactly when nothing was recorded, and otherwise its minimum is the smallest recorded distance, below the buffer |
| Deconfliction.CheckFailsAt | deconfliction_system.py:86-114 | an error at some step of the sweep is the error of the whole check |
| Deconfliction.DeconflictionSystem.constructor | deconfliction_system.py:13-23 | the system keeps the given buffer and resolution, which default to 50 and 1, and starts with no conflicts |
| Deconfliction.DeconflictionSystem.CalculatePathLength | deconfliction_system.py:60-65 | the loop computes the path length |
| Deconfliction.DeconflictionSystem.InterpolatePosition | deconfliction_system.py:29-58 | the loop computes the interpolated position, including the absent, NaN and error outcomes |
| Deconfliction.DeconflictionSystem.ConsolidateConflicts | deconfliction_system.py:125-157 | the loop computes the windows of the maximal runs |
| Deconfliction.DeconflictionSystem.CheckFlightsAt | deconfliction_system.py:94-112 | the inner loop appends exactly the step's samples and reports the first flight error |
| Deconfliction.DeconflictionSystem.CheckStep | deconfliction_system.py:88-112 | one sweep step appends exactly that step's samples and reports its error |
| Deconfliction.DeconflictionSystem.CheckMission | deconfliction_system.py:75-123 | the check resets and then holds exactly the raw samples of the sweep, and returns the result of `Check`, with every property proved about it above |

## Left out

- `print_report` (console output) and the `message` strings of the summary are
  not modelled: they are formatted text only.
- The visualizer, the command-line entry point and the scenario scripts are
  not part of this model.
- Floating point is modelled by exact reals. Rounding, the drift of the
  accumulated sweep time, infinities and overflow are not modelled.
- `np.linalg.norm` is modelled through the square-root parameter `sqrt`. Its
  properties are stated as hypotheses (`IsSqrt`) of the lemmas that need them.
- NaN coordinates are modelled as the single outcome `Undefined`. Individual
  NaN coordinates and their propagation through later arithmetic are not
  modelled. The one observable effect, that such a position is never within
  the buffer, is.
- Windows, summaries and results are Python dictionaries in the code and
  records here.
- Deconfliction.DeconflictionSystem.CheckMission: requires a positive time
  resolution, so it says nothing about a zero or negative one. With such a
  resolution, when the start is not after the end, the Python loop never ends
  unless a step raises. A zero-length primary window or an empty primary
  waypoint list raises at the first step. When the start is after the end,
  the loop never runs and the source reports CLEAR for any resolution. The
  model excludes these inputs too. Non-termination is not modelled.
- Deconfliction.DeconflictionSystem.CheckFlightsAt and
  Deconfliction.DeconflictionSystem.CheckStep are the body and the inner loop
  of `check_mission`, split out as methods. The code has no such methods.
- Exceptions are modelled as the error outcomes `ZeroDivision` and
  `IndexOutOfRange`. The Python exception types and their tracebacks are not.
