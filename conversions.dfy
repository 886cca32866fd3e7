/** Unit conversions on speeds and distances (the `Double` extension of the app).
    Doubles are modelled as reals: rounding is not part of this model. */
module Conversions {

  /** Metres per second to kilometres per hour. */
  function ToKmPerHour(metersPerSecond: real): real
  {
    metersPerSecond * 3.6
  }

  /** Metres to kilometres. */
  function ToKm(meters: real): real
  {
    meters / 1000.0
  }

  /** ToKmPerHour is strictly monotone, so comparing raw speeds agrees with
      comparing the km/h values, in both directions. */
  lemma KmPerHourStrictlyMonotone(x: real, y: real)
    ensures x > y <==> ToKmPerHour(x) > ToKmPerHour(y)
    ensures x == y <==> ToKmPerHour(x) == ToKmPerHour(y)
  {
  }

  /** Both conversions can be undone (which pins their factors, 3.6 and 1/1000),
      and both keep zero at zero. */
  lemma ConversionsRoundTrip(x: real)
    ensures ToKmPerHour(x) / 3.6 == x
    ensures ToKm(x) * 1000.0 == x
    ensures ToKmPerHour(0.0) == 0.0 && ToKm(0.0) == 0.0
  {
  }

  /** The 115 km/h limit, stated on the raw metres-per-second speed. */
  lemma SpeedLimitInMetersPerSecond(s: real)
    ensures ToKmPerHour(s) > 115.0 <==> s > 115.0 / 3.6
  {
  }
}
