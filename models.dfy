/** The records the deconfliction engine works on: waypoints, missions and
    raw conflict samples. They are plain values that compare field by field. */
module Models {

  datatype Option<T> = None | Some(value: T)

  /** The last element of a non-empty sequence. */
  function Last<T>(s: seq<T>): T
    requires |s| > 0
  {
    s[|s| - 1]
  }

  /** A point of 3D space, in meters. */
  datatype Waypoint = Waypoint(x: real, y: real, z: real)
  {
    /** The coordinates as a vector, in the order x, y, z. */
    function ToArray(): (a: seq<real>)
      ensures |a| == 3
      ensures FromArray(a) == this
    {
      [x, y, z]
    }
  }

  /** The waypoint whose coordinates are the three entries of `a`. */
  function FromArray(a: seq<real>): Waypoint
    requires |a| == 3
  {
    Waypoint(a[0], a[1], a[2])
  }

  /** `ToArray` is injective: two waypoints with the same vector are the same
      waypoint, and equal waypoints are exactly equal coordinate triples. */
  lemma WaypointEquality(p: Waypoint, q: Waypoint)
    ensures p == q <==> p.ToArray() == q.ToArray()
    ensures p == q <==> (p.x == q.x && p.y == q.y && p.z == q.z)
  {
    if p.ToArray() == q.ToArray() {
      assert FromArray(p.ToArray()) == FromArray(q.ToArray());
    }
  }

  /** A drone mission: a waypoint polyline flown between two times. A mission
      built without an identifier is the primary one. */
  datatype Mission = Mission(waypoints: seq<Waypoint>, startTime: real, endTime: real,
                             missionId: string := "PRIMARY")
  {
    /** The length of the mission's time window. */
    function Duration(): (d: real)
      ensures d >= 0.0 <==> startTime <= endTime
      ensures d == 0.0 <==> startTime == endTime
    {
      endTime - startTime
    }
  }

  /** A mission constructed without an identifier is called "PRIMARY". */
  lemma DefaultMissionId(waypoints: seq<Waypoint>, startTime: real, endTime: real)
    ensures Mission(waypoints, startTime, endTime).missionId == "PRIMARY"
    ensures Mission(waypoints, startTime, endTime).waypoints == waypoints
  {
  }

  /** One raw safety-buffer violation observed at one time step. */
  datatype Conflict = Conflict(time: real, location: Waypoint, distance: real,
                               primaryPosition: Waypoint, otherPosition: Waypoint,
                               flightId: string, flightName: string)

  /** Samples listed in order of time. */
  predicate SortedByTime(cs: seq<Conflict>)
  {
    forall a, b :: 0 <= a < b < |cs| ==> cs[a].time <= cs[b].time
  }
}
