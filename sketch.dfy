/** The sketch's global state and its two procedures: loading a station list
    (which recomputes the maximum capacity and redraws) and drawing one circle
    per station on the grid. */
module Sketch {
  import opened Capacity
  import opened Layout

  /** One `ellipse` call: its centre and its width and height. */
  datatype Circle = Circle(centre: Point, width: int, height: int)

  /** The circle drawn for station i. */
  function StationCircle(i: nat): (c: Circle)
    ensures c.width == CircleSize && c.height == CircleSize
    ensures (c.centre.x - MarginX) / CircleSpacingX == Column(i)
    ensures (c.centre.y - MarginY) / CircleSpacingY == Row(i)
  {
    Circle(Centre(i), CircleSize, CircleSize)
  }

  /** The global variables of the sketch. Before the first load the station data
      and the maximum are unset (`loaded` is false); after a load the maximum is
      the largest capacity over the current station list. */
  class StationView {
    var loaded: bool
    var stationData: seq<Station>
    var maxCapacity: int

    ghost predicate Valid()
      reads this
    {
      loaded ==> maxCapacity == MaxCapacity(stationData)
    }

    /** The state at start-up, before any station data has arrived. */
    constructor ()
      ensures Valid() && !loaded
    {
      loaded := false;
      stationData := [];
      maxCapacity := 0;
    }

    /** Stores a freshly loaded station list, resets the maximum to 0 and folds
        every station's capacity into it, then draws the stations. The new
        maximum depends on `apiData` alone, not on any earlier load. */
    method GetStationData(apiData: seq<Station>) returns (drawn: seq<Circle>)
      modifies this
      ensures Valid() && loaded && stationData == apiData
      ensures maxCapacity == MaxCapacity(apiData)
      ensures |drawn| == |apiData|
      ensures forall i :: 0 <= i < |drawn| ==> drawn[i] == StationCircle(i)
    {
      stationData := apiData;
      loaded := true;
      maxCapacity := 0;
      for i := 0 to |stationData|
        invariant stationData == apiData && loaded
        invariant maxCapacity == MaxCapacity(stationData[..i])
      {
        var station := stationData[i];
        var stationCapacity := station.bikes + station.docks
                             + station.bikesDisabled + station.docksDisabled;
        MaxCapacityStep(stationData, i);
        maxCapacity := Max(maxCapacity, stationCapacity);
      }
      assert stationData[..|stationData|] == stationData;
      drawn := DrawStations();
    }

    /** Draws one circle per station, in list order: the i-th circle drawn is
        station i's, and no two circles share a centre. */
    method DrawStations() returns (drawn: seq<Circle>)
      requires loaded
      ensures |drawn| == |stationData|
      ensures forall i :: 0 <= i < |drawn| ==> drawn[i] == StationCircle(i)
      ensures forall i, j :: 0 <= i < |drawn| && 0 <= j < |drawn| && i != j ==>
        drawn[i].centre != drawn[j].centre
    {
      drawn := [];
      for i := 0 to |stationData|
        invariant |drawn| == i
        invariant forall k :: 0 <= k < i ==> drawn[k] == StationCircle(k)
      {
        var row := i / Columns;
        var column := i % Columns;
        drawn := drawn + [Circle(Point(MarginX + CircleSpacingX * column,
                                       MarginY + CircleSpacingY * row),
                                 CircleSize, CircleSize)];
      }
      forall i, j | 0 <= i < |drawn| && 0 <= j < |drawn| && drawn[i].centre == drawn[j].centre
        ensures i == j
      {
        CentreInjective(i, j);
      }
    }
  }
}
