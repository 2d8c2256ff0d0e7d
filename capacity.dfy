/** Capacity aggregation for the station "capacity" view.
    A station snapshot carries four counts; its capacity is their sum, and the
    view keeps the largest capacity over the current list of stations. */
module Capacity {

  /** One station of the status feed, already parsed: its id and the four counts. */
  datatype Station = Station(
    id: string,
    bikes: int,          // bikes available
    docks: int,          // docks available
    bikesDisabled: int,  // bikes disabled
    docksDisabled: int   // docks disabled
  )

  /** All four counts of a station are non-negative (as the feed reports them). */
  predicate NonNegative(s: Station) {
    s.bikes >= 0 && s.docks >= 0 && s.bikesDisabled >= 0 && s.docksDisabled >= 0
  }

  /** The larger of two integers. */
  function Max(a: int, b: int): (m: int)
    ensures m >= a && m >= b && (m == a || m == b)
  {
    if a >= b then a else b
  }

  /** A station's capacity: the four counts added together. With non-negative
      counts it is non-negative and no count exceeds it. */
  function StationCapacity(s: Station): (c: int)
    ensures NonNegative(s) ==>
      0 <= s.bikes <= c && s.docks <= c && s.bikesDisabled <= c && s.docksDisabled <= c
  {
    s.bikes + s.docks + s.bikesDisabled + s.docksDisabled
  }

  /** The running maximum after visiting `stations` left to right, starting from 0:
      the value the aggregation loop leaves behind. It is non-negative, bounds every
      station's capacity, and is either the starting 0 or some station's capacity. */
  function MaxCapacity(stations: seq<Station>): (m: int)
    ensures m >= 0
    ensures forall i :: 0 <= i < |stations| ==> StationCapacity(stations[i]) <= m
    ensures m == 0 || exists i :: 0 <= i < |stations| && StationCapacity(stations[i]) == m
  {
    if |stations| == 0 then 0
    else
      var last := |stations| - 1;
      Max(MaxCapacity(stations[..last]), StationCapacity(stations[last]))
  }

  /** Visiting one more station folds its capacity into the running maximum. */
  lemma MaxCapacityStep(stations: seq<Station>, i: nat)
    requires i < |stations|
    ensures MaxCapacity(stations[..i + 1])
         == Max(MaxCapacity(stations[..i]), StationCapacity(stations[i]))
  {
  }

  /** With no stations the maximum is the starting value 0. */
  lemma MaxCapacityEmpty(stations: seq<Station>)
    requires |stations| == 0
    ensures MaxCapacity(stations) == 0
  {
  }

  /** The maximum is attained by some station exactly when some station has a
      non-negative capacity; in particular it is attained for every non-empty list
      of stations whose counts are all non-negative. */
  lemma MaxCapacityAttained(stations: seq<Station>)
    ensures (exists i :: 0 <= i < |stations| && StationCapacity(stations[i]) == MaxCapacity(stations))
        <==> (exists i :: 0 <= i < |stations| && StationCapacity(stations[i]) >= 0)
    ensures |stations| > 0 && (forall i :: 0 <= i < |stations| ==> NonNegative(stations[i])) ==>
      exists i :: 0 <= i < |stations| && StationCapacity(stations[i]) == MaxCapacity(stations)
  {
    var m := MaxCapacity(stations);
    if i :| 0 <= i < |stations| && StationCapacity(stations[i]) >= 0 {
      if m == 0 {
        assert StationCapacity(stations[i]) == m;
      }
    }
    if |stations| > 0 && (forall i :: 0 <= i < |stations| ==> NonNegative(stations[i])) {
      assert StationCapacity(stations[0]) >= 0;
    }
  }

  /** The three properties of MaxCapacity determine it: any value that is
      non-negative, bounds every capacity and is 0 or attained equals it. */
  lemma MaxCapacityUnique(stations: seq<Station>, m: int)
    requires m >= 0
    requires forall i :: 0 <= i < |stations| ==> StationCapacity(stations[i]) <= m
    requires m == 0 || exists i :: 0 <= i < |stations| && StationCapacity(stations[i]) == m
    ensures m == MaxCapacity(stations)
  {
  }
}
