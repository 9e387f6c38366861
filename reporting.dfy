/** The summary of a conflict check: how many conflict windows, how many
    distinct flights they involve, and the smallest separation seen. */
module Reporting {
  import opened Models
  import opened Consolidation

  /** The numeric fields of the summary; the minimum distance is absent when
      there are no windows. */
  datatype Summary = Summary(totalConflicts: nat, affectedFlights: nat, minimumDistance: Option<real>)

  /** The verdict of a check. */
  datatype Status = Clear | ConflictDetected

  /** What a check reports: its verdict, the conflict windows and their
      summary. */
  datatype CheckResult = CheckResult(status: Status, conflicts: seq<ConflictWindow>, summary: Summary)

  /** The identifiers of the flights involved in the windows. */
  function FlightIds(ws: seq<ConflictWindow>): set<string>
  {
    set w | w in ws :: w.flightId
  }

  /** The smallest window distance, scanning the windows in order. */
  function MinWindowDistance(ws: seq<ConflictWindow>): real
    requires |ws| > 0
    decreases |ws|
  {
    if |ws| == 1 then ws[0].minDistance else Min(MinWindowDistance(ws[..|ws| - 1]), Last(ws).minDistance)
  }

  /** The smallest window distance is at most every window's and is one of
      them. */
  lemma {:induction false} MinWindowDistanceIsMinimum(ws: seq<ConflictWindow>)
    requires |ws| > 0
    ensures forall w :: w in ws ==> MinWindowDistance(ws) <= w.minDistance
    ensures exists w :: w in ws && MinWindowDistance(ws) == w.minDistance
    decreases |ws|
  {
    if |ws| > 1 {
      var init := ws[..|ws| - 1];
      MinWindowDistanceIsMinimum(init);
      assert ws == init + [Last(ws)];
      var w :| w in init && MinWindowDistance(init) == w.minDistance;
      assert w in ws && Last(ws) in ws;
    } else {
      assert ws[0] in ws;
    }
  }

  /** There are no more flights than windows, and at least one when there is
      a window. */
  lemma {:induction false} FlightIdsBound(ws: seq<ConflictWindow>)
    ensures |FlightIds(ws)| <= |ws|
    ensures |ws| > 0 ==> |FlightIds(ws)| >= 1
    decreases |ws|
  {
    if |ws| > 0 {
      var init := ws[..|ws| - 1];
      FlightIdsBound(init);
      assert ws == init + [Last(ws)];
      assert FlightIds(ws) == FlightIds(init) + {Last(ws).flightId};
    }
  }

  /** The summary of a list of conflict windows. */
  function GenerateSummary(ws: seq<ConflictWindow>): (s: Summary)
    ensures |ws| == 0 <==> s == Summary(0, 0, None)
    ensures |ws| > 0 ==>
      s.totalConflicts == |ws| && 1 <= s.affectedFlights <= s.totalConflicts &&
      s.minimumDistance.Some? &&
      (forall w :: w in ws ==> s.minimumDistance.value <= w.minDistance) &&
      (exists w :: w in ws && s.minimumDistance.value == w.minDistance)
    ensures s.affectedFlights == |FlightIds(ws)|
  {
    FlightIdsBound(ws);
    if |ws| == 0 then Summary(0, 0, None)
    else
      MinWindowDistanceIsMinimum(ws);
      Summary(|ws|, |FlightIds(ws)|, Some(MinWindowDistance(ws)))
  }

  /** The report of a check over the given windows: the verdict agrees with
      the summary, clear exactly when the summary is empty. */
  function Report(ws: seq<ConflictWindow>): (r: CheckResult)
    ensures r.status == Clear <==> r.summary == Summary(0, 0, None)
  {
    CheckResult(if |ws| == 0 then Clear else ConflictDetected, ws, GenerateSummary(ws))
  }

  /** The flights of the windows of a sequence of samples are the flights of
      the samples. */
  lemma ConsolidatedFlights(cs: seq<Conflict>, res: real)
    ensures FlightIds(Consolidate(cs, res)) == set c | c in cs :: c.flightId
  {
    var ws := Consolidate(cs, res);
    forall id | id in FlightIds(ws)
      ensures id in set c | c in cs :: c.flightId
    {
      WindowsFromSamples(cs, res);
      var w :| w in ws && w.flightId == id;
    }
    forall id | id in set c | c in cs :: c.flightId
      ensures id in FlightIds(ws)
    {
      SamplesCovered(cs, res);
      var c :| c in cs && c.flightId == id;
    }
  }

  /** Every sample has a window no farther apart than it, so the smallest
      window distance is at most every sample distance. */
  lemma MinimumBelowSamples(ws: seq<ConflictWindow>, cs: seq<Conflict>)
    requires |ws| > 0
    requires forall c :: c in cs ==> exists w :: w in ws && w.minDistance <= c.distance
    ensures forall c :: c in cs ==> MinWindowDistance(ws) <= c.distance
  {
    MinWindowDistanceIsMinimum(ws);
    forall c | c in cs
      ensures MinWindowDistance(ws) <= c.distance
    {
      var w :| w in ws && w.minDistance <= c.distance;
    }
  }

  /** Every window's distance is a sample's, so the smallest window distance
      is one of the sample distances. */
  lemma MinimumIsSample(ws: seq<ConflictWindow>, cs: seq<Conflict>)
    requires |ws| > 0
    requires forall w :: w in ws ==> exists c :: c in cs && c.distance == w.minDistance
    ensures exists c :: c in cs && MinWindowDistance(ws) == c.distance
  {
    MinWindowDistanceIsMinimum(ws);
    var w :| w in ws && MinWindowDistance(ws) == w.minDistance;
    var c :| c in cs && c.distance == w.minDistance;
  }

  /** The smallest window distance over the windows of a sequence of
      samples is the smallest distance of a sample. */
  lemma ConsolidatedMinimum(cs: seq<Conflict>, res: real)
    requires |cs| > 0
    ensures |Consolidate(cs, res)| > 0
    ensures forall c :: c in cs ==> MinWindowDistance(Consolidate(cs, res)) <= c.distance
    ensures exists c :: c in cs && MinWindowDistance(Consolidate(cs, res)) == c.distance
  {
    var ws := Consolidate(cs, res);
    assert forall c :: c in cs ==> MinWindowDistance(ws) <= c.distance by {
      SamplesCovered(cs, res);
      MinimumBelowSamples(ws, cs);
    }
    assert exists c :: c in cs && MinWindowDistance(ws) == c.distance by {
      WindowsFromSamples(cs, res);
      MinimumIsSample(ws, cs);
    }
  }

  /** The summary of the windows of a sequence of samples, in terms of the
      samples: no samples give the empty summary; otherwise the flights
      counted are the distinct flights of the samples, and the minimum
      distance is the smallest distance of a sample. */
  lemma SummaryOfSamples(cs: seq<Conflict>, res: real)
    ensures var s := GenerateSummary(Consolidate(cs, res));
      (|cs| == 0 <==> s == Summary(0, 0, None)) &&
      s.totalConflicts == |Consolidate(cs, res)| <= |cs| &&
      s.affectedFlights == |set c | c in cs :: c.flightId|
    ensures var s := GenerateSummary(Consolidate(cs, res));
      |cs| > 0 ==>
        s.minimumDistance.Some? &&
        (forall c :: c in cs ==> s.minimumDistance.value <= c.distance) &&
        (exists c :: c in cs && s.minimumDistance.value == c.distance)
  {
    ConsolidatedFlights(cs, res);
    if |cs| > 0 {
      ConsolidatedMinimum(cs, res);
    }
  }
}
