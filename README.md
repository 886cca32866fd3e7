# Trip-metrics tracker

This is a model of the trip-metrics tracker in the Lab 7 "Trip Summary" iOS app. The app's view controller
receives location fixes from the platform's location manager. On every delivered batch it
appends the last fix to its waypoint list. It then reports five things:
- the current speed, checked against a 115 km/h limit;
- the maximum speed, and the maximum acceleration whenever a new maximum is set;
- the total distance travelled;
- the average speed.

The state is a waypoint list that is only ever appended to, a one-shot "has exceeded the speed limit"
latch, and a running maximum of the raw speeds. It is updated in place.

The project has three modules:

- `Conversions` (`conversions.dfy`) models the `Double` extension: metres per second to km/h
  (`× 3.6`) and metres to km (`÷ 1000`). Doubles are modelled as reals.
- `TripHistory` (`trip_history.dfy`) gives reference definitions of every tracker field as a function
  of the waypoint history. These are the total distance, the running maximum, the first sample above
  the limit, the "distance before exceeding" message, the red status, and the value each label last
  showed. It also proves their properties: how each behaves when a sample is appended, monotonicity,
  the one-shot latch, and what a shown value means.
- `Controller` (`view_controller.dfy`) is the class `ViewController`, with the source's fields and
  methods. Its invariant `Valid()` says that every field equals the reference definition of the
  current waypoint history. The one exception is the speed-status colour: a stop can clear it, so
  the invariant says only that red implies the latest sample is above the limit. The
  location-manager callback and the stop action keep that invariant. After every sample the colour
  is exactly the reference value.
  `CalculateTotalDistance` is the source's `for` loop, with the consecutive-pair sum as its invariant.

Modelling choices:

- **Labels.** Each UI label is a field `Option<real>` holding the last value reported to it. `None`
  means nothing has been reported yet. The placeholder text set by the UI setup is not modelled.
- **Red status.** The speed-status colour is a `bool`: red or clear. Each sample sets it, and the
  stop action clears it.
- **Exceed message.** The printed "distance before exceeding" message is a ghost log `exceedReports`
  that holds the reported distances in km.
- **Distance.** `CLLocation.distance(from:)` is a function value `distance` supplied to the
  constructor, with no formula. Lemmas that need non-negative distances take that as an explicit
  `requires NonNegative(dist)`.
- **Timestamps.** Timestamps are reals in seconds, so `timeIntervalSince` is a subtraction.
- **Empty list.** The Swift loop `for i in 1..<waypoints.count` traps on an empty list. So
  `CalculateTotalDistance` requires at least one waypoint. This always holds, because it is only
  called after the append. `GetCurrentSpeed`/`CheckSpeedLimit` require it only on the branch that
  calls it.
- **Proof-only parameters.** The ghost parameter `before` of the three report methods is the history
  before the append. It exists only so that each method can prove its own part of the invariant.

This model follows the code:

- There is no reset. Starting or stopping a trip does not clear the waypoints, the maximum speed or
  the latch. Stopping clears only the speed-status colour (`DidTapStopTrip`). The only initial
  state is the one set by the initializer.
- Negative (unknown) speeds are neither clamped nor rejected. They are shown as they are
  (`NegativeSpeedNotClamped`).
- The average speed is the total distance over the time from the first to the last waypoint, in
  km/h. It is reported only when both are positive.

## Model

| member | source | states |
|---|---|---|
| `Conversions.KmPerHourStrictlyMonotone` | Lab7MarianaRiosSilveiraCarvalho/Lab7MarianaRiosSilveiraCarvalho/Double+Conversions.swift:18-20 | `x > y` iff `toKmPerHour(x) > toKmPerHour(y)`, and equality likewise, so comparing raw speeds agrees with comparing km/h values |
| `Conversions.ConversionsRoundTrip` | Lab7MarianaRiosSilveiraCarvalho/Lab7MarianaRiosSilveiraCarvalho/Double+Conversions.swift:18-25 | `toKmPerHour(x) / 3.6 == x` and `toKm(x) * 1000 == x`; both conversions map 0 to 0 |
| `Conversions.SpeedLimitInMetersPerSecond` | Lab7MarianaRiosSilveiraCarvalho/Lab7MarianaRiosSilveiraCarvalho/Double+Conversions.swift:18-20 | the 115 km/h test on the converted speed is the test `s > 115 / 3.6` on the raw speed |
| `TripHistory.TotalDistanceAppend` | Lab7MarianaRiosSilveiraCarvalho/Lab7MarianaRiosSilveiraCarvalho/ViewController.swift:184-194 | appending a waypoint adds exactly its distance from the previous last waypoint, and nothing when it is the first |
| `TripHistory.TotalDistanceOfOne` | Lab7MarianaRiosSilveiraCarvalho/Lab7MarianaRiosSilveiraCarvalho/ViewController.swift:185-187 | the total distance of one waypoint is 0, because the loop `1..<1` is empty; the empty history also gives 0, but only by convention of the reference function, since the app never sums an empty list (there `1..<0` would trap) |
| `TripHistory.TotalDistanceNonNegative` | Lab7MarianaRiosSilveiraCarvalho/Lab7MarianaRiosSilveiraCarvalho/ViewController.swift:184-194 | if the platform distance is never negative, the total distance is never negative |
| `TripHistory.TotalDistanceGrows` | Lab7MarianaRiosSilveiraCarvalho/Lab7MarianaRiosSilveiraCarvalho/ViewController.swift:111 | under the same assumption, appending a waypoint never decreases the total distance |
| `TripHistory.MaxSpeed` | Lab7MarianaRiosSilveiraCarvalho/Lab7MarianaRiosSilveiraCarvalho/ViewController.swift:39 | the running maximum starts at 0 and is never negative |
| `TripHistory.MaxSpeedIsMaximum` | Lab7MarianaRiosSilveiraCarvalho/Lab7MarianaRiosSilveiraCarvalho/ViewController.swift:145-149 | the running maximum is at least every raw speed seen, and it is 0 or the speed of some waypoint |
| `TripHistory.MaxSpeedAppend` | Lab7MarianaRiosSilveiraCarvalho/Lab7MarianaRiosSilveiraCarvalho/ViewController.swift:146-147 | a sample changes the maximum only if its raw speed is strictly greater, and then the maximum becomes that speed; ties change nothing |
| `TripHistory.MaxSpeedMonotone` | Lab7MarianaRiosSilveiraCarvalho/Lab7MarianaRiosSilveiraCarvalho/ViewController.swift:145-149 | the maximum never decreases as samples are appended |
| `TripHistory.MaxSpeedShownMonotone` | Lab7MarianaRiosSilveiraCarvalho/Lab7MarianaRiosSilveiraCarvalho/ViewController.swift:145-151 | the km/h value on the maximum-speed label never decreases as samples are appended, because the conversion keeps the order of raw speeds |
| `TripHistory.FirstExceed` | Lab7MarianaRiosSilveiraCarvalho/Lab7MarianaRiosSilveiraCarvalho/ViewController.swift:134 | a found crossing is an index of the history whose km/h speed is above 115 |
| `TripHistory.FirstExceedIsFirst` | Lab7MarianaRiosSilveiraCarvalho/Lab7MarianaRiosSilveiraCarvalho/ViewController.swift:134-135 | no earlier waypoint is above the limit, and no crossing is found exactly when no waypoint is above the limit |
| `TripHistory.FirstExceedUnique` | Lab7MarianaRiosSilveiraCarvalho/Lab7MarianaRiosSilveiraCarvalho/ViewController.swift:134-135 | any index above the limit with none above it before is the crossing found |
| `TripHistory.FirstExceedAppend` | Lab7MarianaRiosSilveiraCarvalho/Lab7MarianaRiosSilveiraCarvalho/ViewController.swift:134-135 | an earlier crossing stays the first one; otherwise the new sample is the first crossing exactly when it is above the limit |
| `TripHistory.ExceedReportsStable` | Lab7MarianaRiosSilveiraCarvalho/Lab7MarianaRiosSilveiraCarvalho/ViewController.swift:133-138 | there is at most one "distance before exceeding" message; once made it never changes however the trip goes on; it exists exactly when some sample was above the limit |
| `TripHistory.ExceedDistanceIncludesTrigger` | Lab7MarianaRiosSilveiraCarvalho/Lab7MarianaRiosSilveiraCarvalho/ViewController.swift:111-118 | the reported distance includes the segment that ends at the triggering sample, because the append precedes the check |
| `TripHistory.ExceedStep` | Lab7MarianaRiosSilveiraCarvalho/Lab7MarianaRiosSilveiraCarvalho/ViewController.swift:133-138 | one sample sets the latch iff it is latched already or above the limit; only the first sample above the limit adds a message, holding the distance up to and including that sample |
| `TripHistory.AccelerationStep` | Lab7MarianaRiosSilveiraCarvalho/Lab7MarianaRiosSilveiraCarvalho/ViewController.swift:146-164 | the acceleration label shows the new maximum over the time since the first waypoint only on a sample that sets a new maximum when that time is positive; otherwise it keeps its previous value |
| `TripHistory.AverageSpeedStep` | Lab7MarianaRiosSilveiraCarvalho/Lab7MarianaRiosSilveiraCarvalho/ViewController.swift:173-181 | the average label shows `(distance / time) * 3.6` only when the total distance and the last-minus-first time are both positive; otherwise it keeps its previous value |
| `TripHistory.MaxAccelerationShownIsLatest` | Lab7MarianaRiosSilveiraCarvalho/Lab7MarianaRiosSilveiraCarvalho/ViewController.swift:155-164 | the acceleration label is empty iff no sample reported; otherwise it shows the report of a sample after which none reported, and the value is positive |
| `TripHistory.AverageSpeedShownIsLatest` | Lab7MarianaRiosSilveiraCarvalho/Lab7MarianaRiosSilveiraCarvalho/ViewController.swift:173-181 | the average label is empty iff no sample reported; otherwise it shows the report of a sample after which none reported, and the value is positive |
| `TripHistory.RedStatusCanClearAfterLatch` | Lab7MarianaRiosSilveiraCarvalho/Lab7MarianaRiosSilveiraCarvalho/ViewController.swift:140 | the red status follows the latest sample alone: some history has the latch set and the status clear |
| `TripHistory.NegativeSpeedNotClamped` | Lab7MarianaRiosSilveiraCarvalho/Lab7MarianaRiosSilveiraCarvalho/ViewController.swift:126-129 | after any history, a negative raw speed is shown as `speed * 3.6`, which is negative, and leaves the maximum unchanged |
| `TripHistory.ThreeSampleTrip` | Lab7MarianaRiosSilveiraCarvalho/Lab7MarianaRiosSilveiraCarvalho/ViewController.swift:118-164 | samples at 10, 20 and 50 m/s at 0, 10 and 20 s: the maximum shown is 180 km/h; the third sample is the first above the limit; accelerations are reported as none, 2.0 and 2.5 |
| `TripHistory.OneSampleTrip` | Lab7MarianaRiosSilveiraCarvalho/Lab7MarianaRiosSilveiraCarvalho/ViewController.swift:118-181 | after one sample the distance shown is 0; no average and no acceleration is shown; the current speed is its km/h speed, and so is the maximum when that speed is not negative |
| `Controller.ViewController.constructor` | Lab7MarianaRiosSilveiraCarvalho/Lab7MarianaRiosSilveiraCarvalho/ViewController.swift:35-42 | no waypoints, latch off, maximum speed 0, nothing reported; the invariant holds |
| `Controller.ViewController.LocationManagerDidUpdateLocations` | Lab7MarianaRiosSilveiraCarvalho/Lab7MarianaRiosSilveiraCarvalho/ViewController.swift:108-121 | an empty batch changes nothing; otherwise exactly the last fix is appended, earlier waypoints stay, the status colour is red iff that fix is above the limit, the maximum never decreases and changes only on a strictly greater speed, the latch stays set, and at most one exceed message exists and never changes once made; the invariant is kept |
| `Controller.ViewController.DidTapStopTrip` | Lab7MarianaRiosSilveiraCarvalho/Lab7MarianaRiosSilveiraCarvalho/ViewController.swift:94-99 | stopping sets the speed status to clear and changes no other tracker field; the invariant is kept |
| `Controller.ViewController.GetCurrentSpeed` | Lab7MarianaRiosSilveiraCarvalho/Lab7MarianaRiosSilveiraCarvalho/ViewController.swift:126-131 | the current-speed label shows raw speed × 3.6 after the limit check; the speed-report fields follow the new history |
| `Controller.ViewController.CheckSpeedLimit` | Lab7MarianaRiosSilveiraCarvalho/Lab7MarianaRiosSilveiraCarvalho/ViewController.swift:133-143 | the latch becomes set iff it was set or the speed is above 115; only the first such speed logs the total distance in km; the red status is recomputed as `speed > 115` |
| `Controller.ViewController.GetMaxSpeed` | Lab7MarianaRiosSilveiraCarvalho/Lab7MarianaRiosSilveiraCarvalho/ViewController.swift:145-153 | the maximum becomes the raw speed only if that speed is strictly greater, the acceleration is reported only then, and the maximum label shows it in km/h |
| `Controller.ViewController.GetMaxAcceleration` | Lab7MarianaRiosSilveiraCarvalho/Lab7MarianaRiosSilveiraCarvalho/ViewController.swift:155-164 | the label shows `maxSpeed / elapsed` only when there is a first waypoint and the elapsed time since it is positive; otherwise it is unchanged |
| `Controller.ViewController.GetDistance` | Lab7MarianaRiosSilveiraCarvalho/Lab7MarianaRiosSilveiraCarvalho/ViewController.swift:166-171 | the distance label shows the consecutive-pair sum in km, after the average-speed report |
| `Controller.ViewController.GetAverageSpeed` | Lab7MarianaRiosSilveiraCarvalho/Lab7MarianaRiosSilveiraCarvalho/ViewController.swift:173-182 | the average label shows `(distance / time) * 3.6` only when there are waypoints and both distance and last-minus-first time are positive; otherwise it is unchanged |
| `Controller.ViewController.CalculateTotalDistance` | Lab7MarianaRiosSilveiraCarvalho/Lab7MarianaRiosSilveiraCarvalho/ViewController.swift:184-194 | the loop returns the sum over consecutive pairs of the distance of each waypoint from the one before it |

## Left out

- UI work: outlets, the text and number formatting of labels, colours, the trip-status view, map
  centring and region setting, and `loadViewIfNeeded`. Labels and the status colour are modelled
  only as the values reported to them.
- `toString()` (the `%.2f` formatting, in `Double+Conversions.swift` and its duplicate
  `Double+ToString.swift`). String formatting goes through a platform call.
- Location-manager setup, start and stop of updates, and the authorization checks and alerts,
  including the background dispatch in `checkLocationServices`. These are platform calls with no
  tracker logic. Of the stop action, only its clearing of the speed-status colour is modelled
  (`DidTapStopTrip`). The start action changes no tracker state and is not modelled.
- The geodesic formula of `CLLocation.distance(from:)`. It is a foreign library, kept as an
  uninterpreted function. So the model does not prove that a point's distance from itself is 0,
  nor that the distance is symmetric.
- IEEE-754 rounding and overflow. Doubles are modelled as reals.
- `print` diagnostics. They are logging only; the one message with meaning is kept as the ghost
  log `exceedReports`.
- A reset operation and an arithmetic-mean average speed. The app has neither.
