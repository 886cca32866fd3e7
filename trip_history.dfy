/** What the trip-metrics tracker shows, as a function of the history of
    waypoints it has recorded since it was created.

    The tracker starts from one fixed state and is never reset, so every one of
    its fields is determined by the waypoint history alone, except the speed
    status colour, which a stop clears. The definitions below say what each
    field means for a whole history; the methods of Controller.ViewController
    update the fields one sample at a time and keep them equal to these
    definitions. */
module TripHistory {
  import opened Conversions

  datatype Option<T> = None | Some(value: T)

  /** A (latitude, longitude) pair in degrees. */
  datatype Coordinate = Coordinate(latitude: real, longitude: real)

  /** One location fix: position, instantaneous speed in m/s (negative when
      the platform does not know it) and timestamp in seconds. */
  datatype Location = Location(coordinate: Coordinate, speed: real, timestamp: real)

  /** The platform's surface distance in metres: Distance(a, b) is the distance
      of a location at `a` from a location at `b`. Its formula is not modelled. */
  type DistanceFn = (Coordinate, Coordinate) -> real

  /** The speed limit, in km/h. */
  const SpeedLimitKmh: real := 115.0

  ghost predicate NonNegative(dist: DistanceFn)
  {
    forall a, b :: dist(a, b) >= 0.0
  }

  // ---------------------------------------------------------------------------
  // Total distance

  /** The sum, over every consecutive pair of waypoints, of the distance of
      the later one from the earlier one. */
  function TotalDistance(dist: DistanceFn, w: seq<Location>): real
  {
    if |w| < 2 then 0.0
    else dist(w[1].coordinate, w[0].coordinate) + TotalDistance(dist, w[1..])
  }

  /** Appending a waypoint adds exactly its distance from the previous last
      waypoint (and nothing when it is the first). */
  lemma {:induction false} TotalDistanceAppend(dist: DistanceFn, w: seq<Location>, x: Location)
    ensures TotalDistance(dist, w + [x]) ==
            TotalDistance(dist, w) + (if |w| == 0 then 0.0 else dist(x.coordinate, w[|w| - 1].coordinate))
  {
    if |w| >= 2 {
      assert (w + [x])[1..] == w[1..] + [x];
      TotalDistanceAppend(dist, w[1..], x);
    }
  }

  /** With exactly one waypoint the total distance is zero. The empty history
      also gives zero here, by convention: the app never sums an empty list,
      since it sums only after an append. */
  lemma TotalDistanceOfOne(dist: DistanceFn, x: Location)
    ensures TotalDistance(dist, []) == 0.0
    ensures TotalDistance(dist, [x]) == 0.0
  {
  }

  /** If the platform distance is never negative, neither is the total. */
  lemma {:induction false} TotalDistanceNonNegative(dist: DistanceFn, w: seq<Location>)
    requires NonNegative(dist)
    ensures TotalDistance(dist, w) >= 0.0
  {
    if |w| >= 2 {
      TotalDistanceNonNegative(dist, w[1..]);
      assert dist(w[1].coordinate, w[0].coordinate) >= 0.0;
    }
  }

  /** Under the same assumption the total never shrinks when a waypoint is
      appended. */
  lemma TotalDistanceGrows(dist: DistanceFn, w: seq<Location>, x: Location)
    requires NonNegative(dist)
    ensures TotalDistance(dist, w) <= TotalDistance(dist, w + [x])
  {
    TotalDistanceAppend(dist, w, x);
    if |w| > 0 {
      assert dist(x.coordinate, w[|w| - 1].coordinate) >= 0.0;
    }
  }

  // ---------------------------------------------------------------------------
  // Maximum speed

  /** The running maximum of the raw speeds, starting from 0: each sample
      replaces it only when its speed is strictly greater. */
  function MaxSpeed(w: seq<Location>): (m: real)
    ensures m >= 0.0
  {
    if w == [] then 0.0
    else
      var before := MaxSpeed(w[..|w| - 1]);
      if w[|w| - 1].speed > before then w[|w| - 1].speed else before
  }

  /** The running maximum is the largest raw speed seen, or 0 when every speed
      seen is at most 0 (or there is none). */
  lemma {:induction false} MaxSpeedIsMaximum(w: seq<Location>)
    ensures forall i :: 0 <= i < |w| ==> w[i].speed <= MaxSpeed(w)
    ensures MaxSpeed(w) == 0.0 || exists i :: 0 <= i < |w| && w[i].speed == MaxSpeed(w)
  {
    if w != [] {
      var prefix := w[..|w| - 1];
      MaxSpeedIsMaximum(prefix);
      assert forall i :: 0 <= i < |w| - 1 ==> w[i] == prefix[i];
      if MaxSpeed(w) != 0.0 && w[|w| - 1].speed != MaxSpeed(w) {
        var j :| 0 <= j < |prefix| && prefix[j].speed == MaxSpeed(prefix);
        assert w[j].speed == MaxSpeed(w);
      }
    }
  }

  /** A new sample changes the maximum only when its raw speed is strictly
      greater, and then the maximum is that speed; a tie changes nothing. */
  lemma MaxSpeedAppend(w: seq<Location>, x: Location)
    ensures MaxSpeed(w + [x]) == if x.speed > MaxSpeed(w) then x.speed else MaxSpeed(w)
  {
    assert (w + [x])[..|w|] == w;
  }

  /** The maximum never decreases as a trip goes on. */
  lemma MaxSpeedMonotone(w: seq<Location>, v: seq<Location>)
    ensures MaxSpeed(w) <= MaxSpeed(w + v)
  {
    MaxSpeedIsMaximum(w);
    MaxSpeedIsMaximum(w + v);
    var m := MaxSpeed(w);
    if m != 0.0 {
      var j :| 0 <= j < |w| && w[j].speed == m;
      assert (w + v)[j] == w[j];
    }
  }

  /** The maximum-speed label, in km/h, never decreases either: the
      conversion keeps the order of raw speeds. */
  lemma MaxSpeedShownMonotone(w: seq<Location>, v: seq<Location>)
    requires w != []
    ensures MaxSpeedShown(w).value <= MaxSpeedShown(w + v).value
  {
    MaxSpeedMonotone(w, v);
    KmPerHourStrictlyMonotone(MaxSpeed(w), MaxSpeed(w + v));
  }

  // ---------------------------------------------------------------------------
  // Speed limit

  /** A sample whose speed, in km/h, is above the limit. */
  predicate Exceeds(x: Location)
  {
    ToKmPerHour(x.speed) > SpeedLimitKmh
  }

  /** The index of the first waypoint above the speed limit, if any. */
  function FirstExceed(w: seq<Location>): (r: Option<nat>)
    ensures r.Some? ==> r.value < |w| && Exceeds(w[r.value])
  {
    if w == [] then None
    else if Exceeds(w[0]) then Some(0)
    else
      match FirstExceed(w[1..])
      case None => None
      case Some(k) => Some(k + 1)
  }

  /** The crossing found is the first one, and none is found exactly when no
      waypoint is above the limit. */
  lemma {:induction false} FirstExceedIsFirst(w: seq<Location>)
    ensures FirstExceed(w).Some? ==> forall j :: 0 <= j < FirstExceed(w).value ==> !Exceeds(w[j])
    ensures FirstExceed(w).None? <==> forall j :: 0 <= j < |w| ==> !Exceeds(w[j])
  {
    if w != [] && !Exceeds(w[0]) {
      FirstExceedIsFirst(w[1..]);
      assert forall j :: 1 <= j < |w| ==> w[j] == w[1..][j - 1];
    }
  }

  /** Any index above the limit with none above it before is the first. */
  lemma {:induction false} FirstExceedUnique(w: seq<Location>, k: nat)
    requires k < |w| && Exceeds(w[k])
    requires forall j :: 0 <= j < k ==> !Exceeds(w[j])
    ensures FirstExceed(w) == Some(k)
  {
    if k > 0 {
      assert !Exceeds(w[0]);
      assert forall j :: 0 <= j < k - 1 ==> w[1..][j] == w[j + 1];
      FirstExceedUnique(w[1..], k - 1);
    }
  }

  /** Appending a sample: an earlier crossing stays the first one; otherwise
      the new sample is the first crossing exactly when it is above the limit. */
  lemma FirstExceedAppend(w: seq<Location>, x: Location)
    ensures FirstExceed(w + [x]) ==
            if FirstExceed(w).Some? then FirstExceed(w)
            else if Exceeds(x) then Some(|w|) else None
  {
    assert forall i :: 0 <= i < |w| ==> (w + [x])[i] == w[i];
    assert (w + [x])[|w|] == x;
    var r := FirstExceed(w);
    FirstExceedIsFirst(w);
    if r.Some? {
      FirstExceedUnique(w + [x], r.value);
    } else if Exceeds(x) {
      FirstExceedUnique(w + [x], |w|);
    }
  }

  /** The "distance before exceeding" reports of a history: one report, at
      the first sample above the limit, of the total distance in km up to and
      including that sample; none if no sample is above the limit. */
  function ExceedReports(dist: DistanceFn, w: seq<Location>): seq<real>
  {
    match FirstExceed(w)
    case None => []
    case Some(k) => [ToKm(TotalDistance(dist, w[..k + 1]))]
  }

  /** Once made, the report never changes and no second one is made, however
      the trip goes on; there is never more than one. */
  lemma ExceedReportsStable(dist: DistanceFn, w: seq<Location>, v: seq<Location>)
    ensures |ExceedReports(dist, w)| <= 1
    ensures ExceedReports(dist, w) != [] ==> ExceedReports(dist, w + v) == ExceedReports(dist, w)
    ensures ExceedReports(dist, w) != [] <==> FirstExceed(w).Some?
  {
    var r := FirstExceed(w);
    FirstExceedIsFirst(w);
    assert forall i :: 0 <= i < |w| ==> (w + v)[i] == w[i];
    if r.Some? {
      FirstExceedUnique(w + v, r.value);
      assert (w + v)[..r.value + 1] == w[..r.value + 1];
    }
  }

  /** The reported distance includes the segment ending at the triggering
      sample: it is the distance up to the sample before it plus that segment. */
  lemma ExceedDistanceIncludesTrigger(dist: DistanceFn, w: seq<Location>, k: nat)
    requires FirstExceed(w) == Some(k) && k > 0
    ensures ExceedReports(dist, w) ==
            [ToKm(TotalDistance(dist, w[..k]) + dist(w[k].coordinate, w[k - 1].coordinate))]
  {
    assert w[..k + 1] == w[..k] + [w[k]];
    TotalDistanceAppend(dist, w[..k], w[k]);
  }

  /** The red speed status: the last sample is above the limit. */
  predicate SpeedStatusRed(w: seq<Location>)
  {
    |w| > 0 && Exceeds(w[|w| - 1])
  }

  // ---------------------------------------------------------------------------
  // Labels: each shows the last value reported to it

  function CurrentSpeedShown(w: seq<Location>): Option<real>
  {
    if w == [] then None else Some(ToKmPerHour(w[|w| - 1].speed))
  }

  function MaxSpeedShown(w: seq<Location>): Option<real>
  {
    if w == [] then None else Some(ToKmPerHour(MaxSpeed(w)))
  }

  function DistanceShown(dist: DistanceFn, w: seq<Location>): Option<real>
  {
    if w == [] then None else Some(ToKm(TotalDistance(dist, w)))
  }

  /** The maximum acceleration reported by the latest sample of a history:
      only when it sets a new maximum speed and time has passed since the
      first waypoint, and then that speed over the elapsed time. */
  function AccelerationReport(w: seq<Location>): Option<real>
    requires |w| > 0
  {
    var last := w[|w| - 1];
    var elapsed := last.timestamp - w[0].timestamp;
    if last.speed > MaxSpeed(w[..|w| - 1]) && elapsed > 0.0 then Some(last.speed / elapsed) else None
  }

  /** The maximum-acceleration label: the latest report (None before any). */
  function MaxAccelerationShown(w: seq<Location>): Option<real>
  {
    if w == [] then None
    else if AccelerationReport(w).Some? then AccelerationReport(w)
    else MaxAccelerationShown(w[..|w| - 1])
  }

  /** The average speed in km/h reported by the latest sample of a history:
      only when the total distance and the time from the first to the last
      waypoint are both positive. */
  function AverageSpeedReport(dist: DistanceFn, w: seq<Location>): Option<real>
    requires |w| > 0
  {
    var d := TotalDistance(dist, w);
    var t := w[|w| - 1].timestamp - w[0].timestamp;
    if d > 0.0 && t > 0.0 then Some(ToKmPerHour(d / t)) else None
  }

  /** The average-speed label: the latest report (None before any). */
  function AverageSpeedShown(dist: DistanceFn, w: seq<Location>): Option<real>
  {
    if w == [] then None
    else if AverageSpeedReport(dist, w).Some? then AverageSpeedReport(dist, w)
    else AverageSpeedShown(dist, w[..|w| - 1])
  }

  /** One step of the speed-limit check: the latch is set by the first
      sample above the limit, which alone adds a report of the distance up to
      and including it. */
  lemma ExceedStep(dist: DistanceFn, w: seq<Location>, x: Location, latched: bool, reports: seq<real>)
    requires latched == FirstExceed(w).Some? && reports == ExceedReports(dist, w)
    ensures (latched || Exceeds(x)) == FirstExceed(w + [x]).Some?
    ensures ExceedReports(dist, w + [x]) ==
            if Exceeds(x) && !latched then reports + [ToKm(TotalDistance(dist, w + [x]))] else reports
  {
    FirstExceedAppend(w, x);
    assert (w + [x])[..|w| + 1] == w + [x];
    var r := FirstExceed(w);
    if r.Some? {
      assert (w + [x])[..r.value + 1] == w[..r.value + 1];
    }
  }

  /** One step of the maximum-acceleration label: a sample that sets a new
      maximum after time has passed since the first waypoint shows its speed
      over that time; any other sample leaves the label as it was. */
  lemma AccelerationStep(w: seq<Location>, x: Location, w': seq<Location>, shown: Option<real>)
    requires w' == w + [x] && shown == MaxAccelerationShown(w)
    ensures MaxAccelerationShown(w') ==
            if x.speed > MaxSpeed(w) && x.timestamp - w'[0].timestamp > 0.0
            then Some(x.speed / (x.timestamp - w'[0].timestamp)) else shown
  {
    assert w'[..|w|] == w;
  }

  /** One step of the average-speed label: shown when the total distance and
      the time from the first to the last waypoint are both positive; left as
      it was otherwise. */
  lemma AverageSpeedStep(dist: DistanceFn, w: seq<Location>, x: Location, w': seq<Location>, shown: Option<real>)
    requires w' == w + [x] && shown == AverageSpeedShown(dist, w)
    ensures AverageSpeedShown(dist, w') ==
            if TotalDistance(dist, w') > 0.0 && w'[|w'| - 1].timestamp - w'[0].timestamp > 0.0
            then Some(ToKmPerHour(TotalDistance(dist, w') / (w'[|w'| - 1].timestamp - w'[0].timestamp)))
            else shown
  {
    assert w'[..|w|] == w;
  }

  /** A positive quantity over a positive time is positive, in either unit;
      shared by the two label lemmas below. */
  lemma QuotientPositive(x: real, y: real)
    requires x > 0.0 && y > 0.0
    ensures x / y > 0.0 && ToKmPerHour(x / y) > 0.0
  {
  }

  /** The maximum-acceleration label is empty exactly when no sample has
      reported; otherwise it shows the report of some sample after which none
      reported, and that value is positive. */
  lemma {:induction false} MaxAccelerationShownIsLatest(w: seq<Location>)
    ensures MaxAccelerationShown(w).None? <==>
            forall n :: 0 < n <= |w| ==> AccelerationReport(w[..n]).None?
    ensures MaxAccelerationShown(w).Some? ==>
              MaxAccelerationShown(w).value > 0.0 &&
              exists n :: 0 < n <= |w| && AccelerationReport(w[..n]) == MaxAccelerationShown(w) &&
                          forall m :: n < m <= |w| ==> AccelerationReport(w[..m]).None?
  {
    if w != [] {
      var last := |w| - 1;
      var prefix := w[..last];
      assert w[..last + 1] == w;
      var elapsed := w[last].timestamp - w[0].timestamp;
      if AccelerationReport(w).Some? {
        QuotientPositive(w[last].speed, elapsed);
      } else {
        MaxAccelerationShownIsLatest(prefix);
        assert forall m :: 0 < m <= last ==> prefix[..m] == w[..m];
      }
    }
  }

  /** The average-speed label is empty exactly when no sample has reported;
      otherwise it shows the report of some sample after which none reported,
      and that value is positive. */
  lemma {:induction false} AverageSpeedShownIsLatest(dist: DistanceFn, w: seq<Location>)
    ensures AverageSpeedShown(dist, w).None? <==>
            forall n :: 0 < n <= |w| ==> AverageSpeedReport(dist, w[..n]).None?
    ensures AverageSpeedShown(dist, w).Some? ==>
              AverageSpeedShown(dist, w).value > 0.0 &&
              exists n :: 0 < n <= |w| && AverageSpeedReport(dist, w[..n]) == AverageSpeedShown(dist, w) &&
                          forall m :: n < m <= |w| ==> AverageSpeedReport(dist, w[..m]).None?
  {
    if w != [] {
      var last := |w| - 1;
      var prefix := w[..last];
      assert w[..last + 1] == w;
      if AverageSpeedReport(dist, w).Some? {
        QuotientPositive(TotalDistance(dist, w), w[last].timestamp - w[0].timestamp);
      } else {
        AverageSpeedShownIsLatest(dist, prefix);
        assert forall m :: 0 < m <= last ==> prefix[..m] == w[..m];
      }
    }
  }

  /** The red status follows the latest sample only: it can be off on a
      history whose latch is set. */
  lemma RedStatusCanClearAfterLatch()
    ensures exists w :: FirstExceed(w).Some? && !SpeedStatusRed(w)
  {
    var fast := Location(Coordinate(0.0, 0.0), 40.0, 0.0);
    var slow := Location(Coordinate(0.0, 0.0), 10.0, 1.0);
    assert Exceeds(fast) && !Exceeds(slow);
    assert FirstExceed([fast, slow]).Some?;
  }

  /** A negative (unknown) speed, after any history, is shown as it is, not
      clamped, and leaves the maximum as it was. */
  lemma NegativeSpeedNotClamped(w: seq<Location>, x: Location)
    requires x.speed < 0.0
    ensures CurrentSpeedShown(w + [x]) == Some(x.speed * 3.6)
    ensures CurrentSpeedShown(w + [x]).value < 0.0
    ensures MaxSpeed(w + [x]) == MaxSpeed(w)
  {
    MaxSpeedAppend(w, x);
  }

  /** A three-sample trip: 10, 20 and 50 m/s at 0, 10 and 20 seconds. */
  lemma ThreeSampleTrip(dist: DistanceFn)
    ensures var w := [Location(Coordinate(0.0, 0.0), 10.0, 0.0),
                      Location(Coordinate(0.0, 0.001), 20.0, 10.0),
                      Location(Coordinate(0.0, 0.002), 50.0, 20.0)];
            MaxSpeedShown(w) == Some(180.0) &&
            FirstExceed(w) == Some(2) &&
            AccelerationReport(w[..1]) == None &&
            AccelerationReport(w[..2]) == Some(2.0) &&
            AccelerationReport(w) == Some(2.5) &&
            MaxAccelerationShown(w) == Some(2.5)
  {
    var a := Location(Coordinate(0.0, 0.0), 10.0, 0.0);
    var b := Location(Coordinate(0.0, 0.001), 20.0, 10.0);
    var c := Location(Coordinate(0.0, 0.002), 50.0, 20.0);
    var w := [a, b, c];
    assert [a, b][..1] == [a] && w[..1] == [a] && w[..2] == [a, b];
    assert MaxSpeed([a]) == 10.0 by { assert [a][..0] == []; }
    assert MaxSpeed([a, b]) == 20.0;
    assert MaxSpeed(w) == 50.0;
    assert AccelerationReport([a]) == None;
    assert AccelerationReport([a, b]) == Some(2.0) by {
      var ab := [a, b];
      assert ab[..1] == [a] && MaxSpeed(ab[..1]) == 10.0;
      var last, elapsed := ab[|ab| - 1], ab[|ab| - 1].timestamp - ab[0].timestamp;
      assert last == b && elapsed == 10.0 && last.speed > MaxSpeed(ab[..|ab| - 1]);
      assert AccelerationReport(ab) == Some(last.speed / elapsed);
    }
    assert AccelerationReport(w) == Some(2.5) by {
      assert w[..2] == [a, b] && MaxSpeed(w[..2]) == 20.0;
      var last, elapsed := w[|w| - 1], w[|w| - 1].timestamp - w[0].timestamp;
      assert last == c && elapsed == 20.0 && last.speed > MaxSpeed(w[..|w| - 1]);
      assert AccelerationReport(w) == Some(last.speed / elapsed);
    }
    assert !Exceeds(a) && !Exceeds(b) && Exceeds(c);
  }

  /** A one-sample trip reports no distance, no average and no acceleration;
      its current speed, and its maximum when the speed is not negative, is
      the sample's speed in km/h. */
  lemma OneSampleTrip(dist: DistanceFn, x: Location)
    ensures DistanceShown(dist, [x]) == Some(0.0)
    ensures AverageSpeedShown(dist, [x]) == None
    ensures MaxAccelerationShown([x]) == None
    ensures CurrentSpeedShown([x]) == Some(ToKmPerHour(x.speed))
    ensures x.speed >= 0.0 ==> MaxSpeedShown([x]) == Some(ToKmPerHour(x.speed))
  {
    assert [x][..0] == [];
    assert MaxSpeed([x]) == (if x.speed > 0.0 then x.speed else 0.0) by { assert MaxSpeed([]) == 0.0; }
  }
}
