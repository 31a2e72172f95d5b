/** The position types the app receives from the platform and draws on the map. */
module Geo {
  import opened Aggregates

  /** An `android.location.Location` fix, reduced to the fields the app reads. */
  datatype Location = Location(latitude: real, longitude: real, speed: real, time: int)

  /** A map coordinate (`LatLng`). */
  datatype LatLng = LatLng(latitude: real, longitude: real)

  /** The map coordinate of a fix: `LatLng(location.latitude, location.longitude)`. */
  function ToLatLng(l: Location): LatLng
  {
    LatLng(l.latitude, l.longitude)
  }

  /** The route drawn for a list of fixes: one coordinate per fix, in the same order. */
  function RouteOf(ls: seq<Location>): (route: seq<LatLng>)
    ensures |route| == |ls|
    ensures forall i :: 0 <= i < |ls| ==> route[i] == ToLatLng(ls[i])
  {
    Column(ls, ToLatLng)
  }

  /** Appending a fix appends its coordinate to the route. */
  lemma RouteOfAppend(ls: seq<Location>, l: Location)
    ensures RouteOf(ls + [l]) == RouteOf(ls) + [ToLatLng(l)]
  {
    assert forall i :: 0 <= i < |ls| ==> (ls + [l])[i] == ls[i];
  }

  /** `Location.distanceTo` is a geodesic length: never negative. */
  ghost predicate NonNegative(distanceTo: (Location, Location) -> real)
  {
    forall a, b :: distanceTo(a, b) >= 0.0
  }
}
