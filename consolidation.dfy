/** Consolidation of raw conflict samples into conflict windows: a sample
    extends the current window when it concerns the same flight and follows
    the window's last sample closely enough; otherwise it opens a new window. */
module Consolidation {
  import opened Models

  /** A period during which one flight kept violating the safety buffer. */
  datatype ConflictWindow = ConflictWindow(startTime: real, endTime: real, location: Waypoint,
                                           minDistance: real, flightId: string, flightName: string)

  /** The smaller of two reals; the first when they are equal. */
  function Min(a: real, b: real): (m: real)
    ensures m <= a && m <= b
    ensures m == a || m == b
  {
    if b < a then b else a
  }

  /** The window a single sample opens. */
  function Open(c: Conflict): ConflictWindow
  {
    ConflictWindow(c.time, c.time, c.location, c.distance, c.flightId, c.flightName)
  }

  /** Sample `c` extends window `w`: same flight, and at most two time steps
      after the window's end. */
  predicate Joins(w: ConflictWindow, c: Conflict, res: real)
  {
    c.flightId == w.flightId && c.time - w.endTime <= 2.0 * res
  }

  /** Window `w` extended to sample `c`. */
  function Extend(w: ConflictWindow, c: Conflict): ConflictWindow
  {
    w.(endTime := c.time, minDistance := Min(w.minDistance, c.distance))
  }

  /** Sample `c` continues the run of samples `g`: same flight as the run, and
      at most two time steps after its last sample. */
  predicate Continues(g: seq<Conflict>, c: Conflict, res: real)
    requires |g| > 0
  {
    c.flightId == g[0].flightId && c.time - Last(g).time <= 2.0 * res
  }

  /** The samples cut into the runs the consolidation merges, in order: a
      sample joins the last run when it continues it, and starts a new run
      otherwise. */
  function Groups(cs: seq<Conflict>, res: real): (gs: seq<seq<Conflict>>)
    ensures |gs| <= |cs|
    ensures |gs| == 0 <==> |cs| == 0
    ensures forall i :: 0 <= i < |gs| ==> |gs[i]| > 0
    decreases |cs|
  {
    if |cs| == 0 then []
    else
      var gs := Groups(cs[..|cs| - 1], res);
      var c := Last(cs);
      if |gs| > 0 && Continues(Last(gs), c, res) then gs[..|gs| - 1] + [Last(gs) + [c]]
      else gs + [[c]]
  }

  /** The runs laid end to end. */
  function Flatten(gs: seq<seq<Conflict>>): seq<Conflict>
    decreases |gs|
  {
    if |gs| == 0 then [] else Flatten(gs[..|gs| - 1]) + Last(gs)
  }

  /** The smallest distance of a non-empty run, folded from its first sample. */
  function MinDistance(g: seq<Conflict>): real
    requires |g| > 0
    decreases |g|
  {
    if |g| == 1 then g[0].distance else Min(MinDistance(g[..|g| - 1]), Last(g).distance)
  }

  /** The window of a run: from its first sample's time to its last's, at its
      first sample's location, with the run's smallest distance. */
  function Summarize(g: seq<Conflict>): ConflictWindow
    requires |g| > 0
  {
    ConflictWindow(g[0].time, Last(g).time, g[0].location, MinDistance(g), g[0].flightId, g[0].flightName)
  }

  /** The conflict windows of a sequence of raw samples: one per run. */
  function Consolidate(cs: seq<Conflict>, res: real): (ws: seq<ConflictWindow>)
    ensures |ws| == |Groups(cs, res)|
    ensures |ws| <= |cs|
    ensures |ws| == 0 <==> |cs| == 0
  {
    var gs := Groups(cs, res);
    seq(|gs|, i requires 0 <= i < |gs| => Summarize(gs[i]))
  }

  /** The smallest distance of a run is at most each of its distances and is
      one of them. */
  lemma {:induction false} MinDistanceIsMinimum(g: seq<Conflict>)
    requires |g| > 0
    ensures forall c :: c in g ==> MinDistance(g) <= c.distance
    ensures exists c :: c in g && MinDistance(g) == c.distance
    decreases |g|
  {
    if |g| > 1 {
      var init := g[..|g| - 1];
      MinDistanceIsMinimum(init);
      assert g == init + [Last(g)];
      var c :| c in init && MinDistance(init) == c.distance;
      assert c in g && Last(g) in g;
    } else {
      assert g[0] in g;
    }
  }

  lemma FlattenSnoc(gs: seq<seq<Conflict>>, g: seq<Conflict>)
    ensures Flatten(gs + [g]) == Flatten(gs) + g
  {
    assert (gs + [g])[..|gs|] == gs;
  }

  /** Extending the last run by one sample extends the flattened runs by it. */
  lemma FlattenExtendLast(front: seq<seq<Conflict>>, g: seq<Conflict>, c: Conflict)
    ensures Flatten(front + [g + [c]]) == Flatten(front + [g]) + [c]
  {
    FlattenSnoc(front, g + [c]);
    FlattenSnoc(front, g);
    assert Flatten(front) + (g + [c]) == (Flatten(front) + g) + [c];
  }

  /** One step of cutting runs keeps the runs laid end to end equal to the
      samples cut so far, followed by the new sample. */
  lemma FlattenStep(gs: seq<seq<Conflict>>, gs': seq<seq<Conflict>>, init: seq<Conflict>, c: Conflict, extend: bool)
    requires Flatten(gs) == init
    requires extend ==> |gs| > 0
    requires gs' == if extend then gs[..|gs| - 1] + [Last(gs) + [c]] else gs + [[c]]
    ensures Flatten(gs') == init + [c]
  {
    if extend {
      var front := gs[..|gs| - 1];
      assert gs == front + [Last(gs)];
      FlattenExtendLast(front, Last(gs), c);
    } else {
      FlattenSnoc(gs, [c]);
    }
  }

  /** The runs cover the samples exactly, in order. */
  lemma {:induction false} GroupsPartition(cs: seq<Conflict>, res: real)
    ensures Flatten(Groups(cs, res)) == cs
    decreases |cs|
  {
    if |cs| > 0 {
      var init := cs[..|cs| - 1];
      var c := Last(cs);
      var gs := Groups(init, res);
      GroupsPartition(init, res);
      FlattenStep(gs, Groups(cs, res), init, c, |gs| > 0 && Continues(Last(gs), c, res));
      assert cs == init + [c];
    }
  }

  /** Within a run all samples concern the run's first flight, and each
      sample follows the one before by at most two time steps. */
  ghost predicate Run(g: seq<Conflict>, res: real)
  {
    |g| > 0 &&
    (forall c :: c in g ==> c.flightId == g[0].flightId) &&
    (forall i :: 0 < i < |g| ==> g[i].time - g[i - 1].time <= 2.0 * res)
  }

  /** Every group is a run, and no group could have been continued by the
      first sample of the next one: runs are maximal. */
  lemma {:induction false} GroupsAreMaximalRuns(cs: seq<Conflict>, res: real)
    ensures forall g :: g in Groups(cs, res) ==> Run(g, res)
    ensures forall i :: 0 < i < |Groups(cs, res)| ==>
      !Continues(Groups(cs, res)[i - 1], Groups(cs, res)[i][0], res)
    decreases |cs|
  {
    if |cs| > 0 {
      var init := cs[..|cs| - 1];
      var c := Last(cs);
      var gs := Groups(init, res);
      GroupsAreMaximalRuns(init, res);
      if |gs| > 0 && Continues(Last(gs), c, res) {
        var g := Last(gs) + [c];
        assert Last(gs) in gs;
        assert Run(g, res) by {
          forall i | 0 < i < |g|
            ensures g[i].time - g[i - 1].time <= 2.0 * res
          {
            if i < |g| - 1 {
              assert g[i] == Last(gs)[i] && g[i - 1] == Last(gs)[i - 1];
            }
          }
        }
        var gs' := gs[..|gs| - 1] + [g];
        forall i | 0 < i < |gs'|
          ensures !Continues(gs'[i - 1], gs'[i][0], res)
        {
          if i == |gs'| - 1 {
            assert gs'[i][0] == gs[i][0];
          } else {
            assert gs'[i] == gs[i];
          }
        }
      }
    }
  }

  /** Sample `c` joins the window of run `g` exactly when it continues `g`,
      and the extended window is the window of the extended run. */
  lemma SummarizeSnoc(g: seq<Conflict>, c: Conflict, res: real)
    requires |g| > 0
    ensures Joins(Summarize(g), c, res) <==> Continues(g, c, res)
    ensures Summarize(g + [c]) == Extend(Summarize(g), c)
  {
    assert (g + [c])[..|g|] == g;
  }

  /** A single sample makes a single window. */
  lemma ConsolidateSingle(c: Conflict, res: real)
    ensures Consolidate([c], res) == [Open(c)]
  {
    assert [c][..0] == [];
  }

  /** One more sample either extends the last window, when it joins it, or
      opens a new one: the step of the consolidation loop. */
  lemma ConsolidateSnoc(cs: seq<Conflict>, c: Conflict, res: real)
    requires |cs| > 0
    ensures var ws := Consolidate(cs, res);
      Consolidate(cs + [c], res) ==
        if Joins(Last(ws), c, res) then ws[..|ws| - 1] + [Extend(Last(ws), c)]
        else ws + [Open(c)]
  {
    var gs := Groups(cs, res);
    var ws := Consolidate(cs, res);
    assert (cs + [c])[..|cs|] == cs;
    SummarizeSnoc(Last(gs), c, res);
    assert Last(ws) == Summarize(Last(gs));
    var ws' := Consolidate(cs + [c], res);
    if Continues(Last(gs), c, res) {
      assert ws' == ws[..|ws| - 1] + [Extend(Last(ws), c)];
    } else {
      assert ws' == ws + [Open(c)];
    }
  }

  /** The consolidation loop's step: with the windows of the first `i`
      samples split into the closed ones and the current one, sample `i`
      either extends the current window or closes it and opens its own. */
  lemma ConsolidateStep(cs: seq<Conflict>, i: nat, closed: seq<ConflictWindow>, current: ConflictWindow, res: real)
    requires 0 < i < |cs|
    requires closed + [current] == Consolidate(cs[..i], res)
    ensures Joins(current, cs[i], res) ==>
      Consolidate(cs[..i + 1], res) == closed + [Extend(current, cs[i])]
    ensures !Joins(current, cs[i], res) ==>
      Consolidate(cs[..i + 1], res) == closed + [current] + [Open(cs[i])]
  {
    var ws := Consolidate(cs[..i], res);
    ConsolidateSnoc(cs[..i], cs[i], res);
    assert cs[..i + 1] == cs[..i] + [cs[i]];
    assert Last(ws) == current;
    assert ws[..|ws| - 1] == closed;
  }

  /** Window `w` sums up run `g`: it spans from the run's first sample's time
      to its last's, stands at the first sample's location, carries the run's
      flight, and its distance is the smallest distance of the run. */
  ghost predicate WindowOfRun(w: ConflictWindow, g: seq<Conflict>)
  {
    |g| > 0 &&
    w.startTime == g[0].time && w.endTime == Last(g).time &&
    w.location == g[0].location && w.flightName == g[0].flightName &&
    (forall c :: c in g ==> c.flightId == w.flightId && w.minDistance <= c.distance) &&
    (exists c :: c in g && c.distance == w.minDistance)
  }

  /** Each window sums up its run of samples. */
  lemma WindowsOfRuns(cs: seq<Conflict>, res: real)
    ensures forall i :: 0 <= i < |Consolidate(cs, res)| ==>
      WindowOfRun(Consolidate(cs, res)[i], Groups(cs, res)[i])
  {
    var gs := Groups(cs, res);
    GroupsAreMaximalRuns(cs, res);
    forall i | 0 <= i < |gs|
      ensures WindowOfRun(Consolidate(cs, res)[i], gs[i])
    {
      assert gs[i] in gs;
      MinDistanceIsMinimum(gs[i]);
    }
  }

  /** A sample is in the flattened runs exactly when it is in one of them. */
  lemma {:induction false} FlattenMembers(gs: seq<seq<Conflict>>)
    ensures forall x :: x in Flatten(gs) <==> exists g :: g in gs && x in g
    decreases |gs|
  {
    if |gs| > 0 {
      var front := gs[..|gs| - 1];
      FlattenMembers(front);
      assert gs == front + [Last(gs)];
      forall x | x in Flatten(gs)
        ensures exists g :: g in gs && x in g
      {
        if x !in Last(gs) {
          var g :| g in front && x in g;
          assert g in gs;
        }
      }
      forall x, g | g in gs && x in g
        ensures x in Flatten(gs)
      {
        if g != Last(gs) {
          assert g in front;
        }
      }
    }
  }

  /** Every sample is merged into a window of its own flight whose distance is
      at most the sample's. */
  lemma SamplesCovered(cs: seq<Conflict>, res: real)
    ensures forall c :: c in cs ==>
      exists w :: w in Consolidate(cs, res) && w.flightId == c.flightId && w.minDistance <= c.distance
  {
    var gs := Groups(cs, res);
    var ws := Consolidate(cs, res);
    GroupsPartition(cs, res);
    FlattenMembers(gs);
    WindowsOfRuns(cs, res);
    forall c | c in cs
      ensures exists w :: w in ws && w.flightId == c.flightId && w.minDistance <= c.distance
    {
      var g :| g in gs && c in g;
      var i :| 0 <= i < |gs| && gs[i] == g;
      assert ws[i] in ws;
    }
  }

  /** Every window's distance is that of a sample of its flight, every
      window was opened by a sample (it starts at that sample's time and
      stands at its location), and it ends at the time of a sample of its
      flight. */
  lemma WindowsFromSamples(cs: seq<Conflict>, res: real)
    ensures forall w :: w in Consolidate(cs, res) ==>
      exists c :: c in cs && c.flightId == w.flightId && c.distance == w.minDistance
    ensures forall w :: w in Consolidate(cs, res) ==>
      exists c :: c in cs && c.time == w.startTime && c.location == w.location &&
                  c.flightId == w.flightId && c.flightName == w.flightName
    ensures forall w :: w in Consolidate(cs, res) ==>
      exists c :: c in cs && c.time == w.endTime && c.flightId == w.flightId
  {
    var gs := Groups(cs, res);
    var ws := Consolidate(cs, res);
    GroupsPartition(cs, res);
    FlattenMembers(gs);
    WindowsOfRuns(cs, res);
    forall w | w in ws
      ensures exists c :: c in cs && c.flightId == w.flightId && c.distance == w.minDistance
      ensures exists c :: c in cs && c.time == w.startTime && c.location == w.location &&
                          c.flightId == w.flightId && c.flightName == w.flightName
      ensures exists c :: c in cs && c.time == w.endTime && c.flightId == w.flightId
    {
      var i :| 0 <= i < |ws| && ws[i] == w;
      assert gs[i] in gs;
      var c: Conflict :| c in gs[i] && c.distance == w.minDistance;
      assert c in cs;
      assert gs[i][0] in gs[i];
      assert gs[i][0] in cs;
      assert Last(gs[i]) in gs[i];
      assert Last(gs[i]) in cs;
    }
  }

  /** When the samples are in order of time, so is every run. */
  lemma {:induction false} GroupsSorted(cs: seq<Conflict>, res: real)
    requires SortedByTime(cs)
    ensures forall g :: g in Groups(cs, res) ==> SortedByTime(g)
    decreases |cs|
  {
    if |cs| > 0 {
      var init := cs[..|cs| - 1];
      var c := Last(cs);
      var gs := Groups(init, res);
      GroupsSorted(init, res);
      if |gs| > 0 && Continues(Last(gs), c, res) {
        var g := Last(gs);
        GroupsPartition(init, res);
        FlattenMembers(gs);
        assert g in gs;
        forall x | x in g
          ensures x.time <= c.time
        {
          assert x in init;
          var a :| 0 <= a < |init| && init[a] == x;
          assert cs[a] == x;
        }
        var g' := g + [c];
        forall a, b | 0 <= a < b < |g'|
          ensures g'[a].time <= g'[b].time
        {
          assert g'[a] == g[a];
          assert g[a] in g;
          if b < |g| {
            assert g'[b] == g[b];
          }
        }
        assert SortedByTime(g');
      }
    }
  }

  /** The window of a run in order of time spans each of the run's samples. */
  lemma WindowSpansRun(w: ConflictWindow, g: seq<Conflict>)
    requires WindowOfRun(w, g) && SortedByTime(g)
    ensures w.startTime <= w.endTime
    ensures forall c :: c in g ==> w.startTime <= c.time <= w.endTime
  {
    forall c | c in g
      ensures w.startTime <= c.time <= w.endTime
    {
      var a :| 0 <= a < |g| && g[a] == c;
      if 0 < a {
        assert g[0].time <= g[a].time;
      }
      if a < |g| - 1 {
        assert g[a].time <= g[|g| - 1].time;
      }
    }
    assert g[0] in g;
  }

  /** When the samples are in order of time, every window starts no later
      than it ends. */
  lemma WindowsInOrder(cs: seq<Conflict>, res: real)
    requires SortedByTime(cs)
    ensures forall w :: w in Consolidate(cs, res) ==> w.startTime <= w.endTime
  {
    var gs := Groups(cs, res);
    var ws := Consolidate(cs, res);
    GroupsSorted(cs, res);
    WindowsOfRuns(cs, res);
    forall w | w in ws
      ensures w.startTime <= w.endTime
    {
      var i :| 0 <= i < |ws| && ws[i] == w;
      assert gs[i] in gs;
      WindowSpansRun(ws[i], gs[i]);
    }
  }

  /** When the samples are in order of time, each sample of a run lies
      within the run's window, which carries its flight and a distance at
      most its own. */
  lemma WithinRunWindow(cs: seq<Conflict>, res: real, i: nat, c: Conflict)
    requires SortedByTime(cs)
    requires i < |Groups(cs, res)| && c in Groups(cs, res)[i]
    ensures var w := Consolidate(cs, res)[i];
      w.flightId == c.flightId && w.startTime <= c.time <= w.endTime && w.minDistance <= c.distance
  {
    var gs := Groups(cs, res);
    GroupsSorted(cs, res);
    WindowsOfRuns(cs, res);
    assert gs[i] in gs;
    WindowSpansRun(Consolidate(cs, res)[i], gs[i]);
  }

  /** When the samples are in order of time, every sample lies within a
      window of its own flight whose distance is at most the sample's. */
  lemma SamplesWithinWindows(cs: seq<Conflict>, res: real)
    requires SortedByTime(cs)
    ensures forall c :: c in cs ==>
      exists w :: w in Consolidate(cs, res) && w.flightId == c.flightId &&
                  w.startTime <= c.time <= w.endTime && w.minDistance <= c.distance
  {
    var gs := Groups(cs, res);
    var ws := Consolidate(cs, res);
    GroupsPartition(cs, res);
    FlattenMembers(gs);
    forall c | c in cs
      ensures exists w :: w in ws && w.flightId == c.flightId &&
                          w.startTime <= c.time <= w.endTime && w.minDistance <= c.distance
    {
      var g: seq<Conflict> :| g in gs && c in g;
      var i :| 0 <= i < |gs| && gs[i] == g;
      WithinRunWindow(cs, res, i, c);
      assert ws[i] in ws;
    }
  }
}
