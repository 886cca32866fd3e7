/** The trip-metrics part of the app's view controller: the waypoint history,
    the speed-limit latch, the running maximum speed and the values last shown
    on the trip labels, updated by the location-manager callback. */
module Controller {
  import opened Conversions
  import opened TripHistory

  class ViewController {
    /** The platform's distance between two locations (a foreign call). */
    const distance: DistanceFn

    var waypoints: seq<Location>
    var hasExceedSpeed: bool
    var maxSpeed: real

    /** The value each label last showed (None: nothing reported yet). */
    var currentSpeedLabel: Option<real>
    var maxSpeedLabel: Option<real>
    var distanceLabel: Option<real>
    var averageSpeedLabel: Option<real>
    var maxAccelerationLabel: Option<real>
    /** Whether the speed status view is red (otherwise it is clear). */
    var speedStatusRed: bool

    /** The "distance before exceeding the speed limit" messages, in km. */
    ghost var exceedReports: seq<real>

    /** The fields set by the current-speed report are what history `w`
        determines, except that the status colour may have been cleared by a
        stop since the latest sample: red only when that sample is above the
        limit. */
    ghost predicate SpeedReportValid(w: seq<Location>)
      reads this`hasExceedSpeed, this`exceedReports, this`speedStatusRed, this`currentSpeedLabel
    {
      hasExceedSpeed == FirstExceed(w).Some? &&
      exceedReports == ExceedReports(distance, w) &&
      (speedStatusRed ==> SpeedStatusRed(w)) &&
      currentSpeedLabel == CurrentSpeedShown(w)
    }

    /** The fields set by the maximum-speed report are what history `w`
        determines. */
    ghost predicate MaxSpeedReportValid(w: seq<Location>)
      reads this`maxSpeed, this`maxSpeedLabel, this`maxAccelerationLabel
    {
      maxSpeed == MaxSpeed(w) &&
      maxSpeedLabel == MaxSpeedShown(w) &&
      maxAccelerationLabel == MaxAccelerationShown(w)
    }

    /** The fields set by the distance report are what history `w` determines. */
    ghost predicate DistanceReportValid(w: seq<Location>)
      reads this`distanceLabel, this`averageSpeedLabel
    {
      distanceLabel == DistanceShown(distance, w) &&
      averageSpeedLabel == AverageSpeedShown(distance, w)
    }

    /** Every field is what the waypoint history determines (the status colour
        up to a stop). */
    ghost predicate Valid()
      reads this
    {
      SpeedReportValid(waypoints) && MaxSpeedReportValid(waypoints) && DistanceReportValid(waypoints)
    }

    constructor (distance: DistanceFn)
      ensures Valid() && this.distance == distance
      ensures waypoints == [] && !hasExceedSpeed && maxSpeed == 0.0 && exceedReports == []
      ensures currentSpeedLabel == maxSpeedLabel == distanceLabel == None
      ensures averageSpeedLabel == maxAccelerationLabel == None && !speedStatusRed
    {
      this.distance := distance;
      hasExceedSpeed := false;
      waypoints := [];
      maxSpeed := 0.0;
      currentSpeedLabel, maxSpeedLabel, distanceLabel := None, None, None;
      averageSpeedLabel, maxAccelerationLabel := None, None;
      speedStatusRed := false;
      exceedReports := [];
    }

    /** The location-manager callback: record the last fix of the batch, then
        report the current speed, the maximum speed and the distance. */
    method LocationManagerDidUpdateLocations(locations: seq<Location>)
      requires Valid()
      modifies this
      ensures Valid()
      ensures |locations| == 0 ==> unchanged(this)
      ensures |locations| > 0 ==> waypoints == old(waypoints) + [locations[|locations| - 1]]
      ensures |locations| > 0 ==> speedStatusRed == SpeedStatusRed(waypoints)
      ensures maxSpeed >= old(maxSpeed)
      ensures |locations| > 0 ==>
                maxSpeed == if locations[|locations| - 1].speed > old(maxSpeed)
                            then locations[|locations| - 1].speed else old(maxSpeed)
      ensures old(hasExceedSpeed) ==> hasExceedSpeed
      ensures |exceedReports| <= 1
      ensures old(exceedReports) != [] ==> exceedReports == old(exceedReports)
    {
      if |locations| == 0 {
        return;
      }
      ghost var before := waypoints;
      var location := locations[|locations| - 1];
      waypoints := waypoints + [location];

      GetCurrentSpeed(location, before);
      GetMaxSpeed(location, before);
      GetDistance(before);

      ExceedReportsStable(distance, before, [location]);
    }

    /** The stop-trip action: of the tracker's state it only clears the speed
        status colour; the waypoints, the maximum speed, the latch and the
        labels stay. */
    method DidTapStopTrip()
      requires Valid()
      modifies this`speedStatusRed
      ensures Valid()
      ensures !speedStatusRed
    {
      speedStatusRed := false;
    }

    /** Show the current speed in km/h, after checking it against the limit.
        `before` is the history before the latest sample was appended. */
    method GetCurrentSpeed(location: Location, ghost before: seq<Location>)
      requires ToKmPerHour(location.speed) > SpeedLimitKmh && !hasExceedSpeed ==> |waypoints| >= 1
      modifies this`currentSpeedLabel, this`hasExceedSpeed, this`speedStatusRed, this`exceedReports
      ensures currentSpeedLabel == Some(ToKmPerHour(location.speed))
      ensures hasExceedSpeed == (old(hasExceedSpeed) || Exceeds(location))
      ensures exceedReports ==
                if Exceeds(location) && !old(hasExceedSpeed)
                then old(exceedReports) + [ToKm(TotalDistance(distance, waypoints))]
                else old(exceedReports)
      ensures speedStatusRed == Exceeds(location)
      ensures old(SpeedReportValid(before)) && waypoints == before + [location] ==>
                SpeedReportValid(waypoints)
    {
      ghost var latched, reports := hasExceedSpeed, exceedReports;
      var speed := ToKmPerHour(location.speed);
      CheckSpeedLimit(speed);
      currentSpeedLabel := Some(speed);
      if latched == FirstExceed(before).Some? && reports == ExceedReports(distance, before) &&
         waypoints == before + [location] {
        ExceedStep(distance, before, location, latched, reports);
      }
    }

    /** Latch the first speed above the limit, report the distance travelled up
        to it, and set the status colour from this speed alone. */
    method CheckSpeedLimit(speed: real)
      requires speed > SpeedLimitKmh && !hasExceedSpeed ==> |waypoints| >= 1
      modifies this`hasExceedSpeed, this`speedStatusRed, this`exceedReports
      ensures hasExceedSpeed == (old(hasExceedSpeed) || speed > SpeedLimitKmh)
      ensures exceedReports ==
                if speed > SpeedLimitKmh && !old(hasExceedSpeed)
                then old(exceedReports) + [ToKm(TotalDistance(distance, waypoints))]
                else old(exceedReports)
      ensures speedStatusRed == (speed > SpeedLimitKmh)
    {
      if speed > SpeedLimitKmh && !hasExceedSpeed {
        hasExceedSpeed := true;
        var d := CalculateTotalDistance();
        exceedReports := exceedReports + [ToKm(d)];
      }
      speedStatusRed := speed > SpeedLimitKmh;
    }

    /** Raise the maximum speed on a strictly greater raw speed (and then
        report the maximum acceleration), and show the maximum in km/h.
        `before` is the history before the latest sample was appended. */
    method GetMaxSpeed(location: Location, ghost before: seq<Location>)
      modifies this`maxSpeed, this`maxAccelerationLabel, this`maxSpeedLabel
      ensures maxSpeed == if location.speed > old(maxSpeed) then location.speed else old(maxSpeed)
      ensures maxAccelerationLabel ==
                if location.speed > old(maxSpeed) && |waypoints| > 0 &&
                   location.timestamp - waypoints[0].timestamp > 0.0
                then Some(location.speed / (location.timestamp - waypoints[0].timestamp))
                else old(maxAccelerationLabel)
      ensures maxSpeedLabel == Some(ToKmPerHour(maxSpeed))
      ensures old(MaxSpeedReportValid(before)) && waypoints == before + [location] ==>
                MaxSpeedReportValid(waypoints)
    {
      ghost var accelerationShown := maxAccelerationLabel;
      if location.speed > maxSpeed {
        maxSpeed := location.speed;
        GetMaxAcceleration(maxSpeed, location);
      }
      maxSpeedLabel := Some(ToKmPerHour(maxSpeed));
      if waypoints == before + [location] && accelerationShown == MaxAccelerationShown(before) {
        MaxSpeedAppend(before, location);
        AccelerationStep(before, location, waypoints, accelerationShown);
      }
    }

    /** Show the new maximum speed over the time since the first waypoint,
        when there is a first waypoint and that time is positive. */
    method GetMaxAcceleration(newMaxSpeed: real, location: Location)
      modifies this`maxAccelerationLabel
      ensures maxAccelerationLabel ==
                if |waypoints| > 0 && location.timestamp - waypoints[0].timestamp > 0.0
                then Some(newMaxSpeed / (location.timestamp - waypoints[0].timestamp))
                else old(maxAccelerationLabel)
    {
      if |waypoints| == 0 {
        return;
      }
      var startTime := waypoints[0].timestamp;
      var time := location.timestamp - startTime;
      if time > 0.0 {
        maxAccelerationLabel := Some(newMaxSpeed / time);
      }
    }

    /** Show the total distance in km, after reporting the average speed.
        `before` is the history before the latest sample was appended. */
    method GetDistance(ghost before: seq<Location>)
      requires |waypoints| >= 1
      modifies this`averageSpeedLabel, this`distanceLabel
      ensures distanceLabel == Some(ToKm(TotalDistance(distance, waypoints)))
      ensures averageSpeedLabel ==
                if TotalDistance(distance, waypoints) > 0.0 &&
                   waypoints[|waypoints| - 1].timestamp - waypoints[0].timestamp > 0.0
                then Some(ToKmPerHour(TotalDistance(distance, waypoints) /
                                      (waypoints[|waypoints| - 1].timestamp - waypoints[0].timestamp)))
                else old(averageSpeedLabel)
      ensures old(DistanceReportValid(before)) && before == waypoints[..|waypoints| - 1] ==>
                DistanceReportValid(waypoints)
    {
      ghost var averageShown := averageSpeedLabel;
      var d := CalculateTotalDistance();
      GetAverageSpeed(d);
      distanceLabel := Some(ToKm(d));
      if before == waypoints[..|waypoints| - 1] && averageShown == AverageSpeedShown(distance, before) {
        assert waypoints == before + [waypoints[|waypoints| - 1]];
        AverageSpeedStep(distance, before, waypoints[|waypoints| - 1], waypoints, averageShown);
      }
    }

    /** Show the distance over the time from the first to the last waypoint,
        in km/h, when both are positive. */
    method GetAverageSpeed(totalDistance: real)
      modifies this`averageSpeedLabel
      ensures averageSpeedLabel ==
                if |waypoints| > 0 && totalDistance > 0.0 &&
                   waypoints[|waypoints| - 1].timestamp - waypoints[0].timestamp > 0.0
                then Some(ToKmPerHour(totalDistance / (waypoints[|waypoints| - 1].timestamp - waypoints[0].timestamp)))
                else old(averageSpeedLabel)
    {
      if |waypoints| == 0 {
        return;
      }
      var startTime := waypoints[0].timestamp;
      var currentTime := waypoints[|waypoints| - 1].timestamp;
      var totalTime := currentTime - startTime;
      if totalDistance > 0.0 && totalTime > 0.0 {
        averageSpeedLabel := Some(ToKmPerHour(totalDistance / totalTime));
      }
    }

    /** Sum the distances of consecutive waypoints (the loop over 1..<count
        needs at least one waypoint). */
    method CalculateTotalDistance() returns (totalDistance: real)
      requires |waypoints| >= 1
      ensures totalDistance == TotalDistance(distance, waypoints)
    {
      totalDistance := 0.0;
      for i := 1 to |waypoints|
        invariant totalDistance == TotalDistance(distance, waypoints[..i])
      {
        var startLocation := waypoints[i].coordinate;
        var currentLocation := waypoints[i - 1].coordinate;
        assert waypoints[..i + 1] == waypoints[..i] + [waypoints[i]];
        TotalDistanceAppend(distance, waypoints[..i], waypoints[i]);
        totalDistance := totalDistance + distance(startLocation, currentLocation);
      }
      assert waypoints[..|waypoints|] == waypoints;
    }
  }
}
