/** Travel between places and the minutes a route takes. */
module Travel {
  import opened Wrappers
  import opened CourseRoles

  const MAX_LEG_KM := 40.0
  const MOUNTAIN_SPORTS := {"hiking", "mountain", "ski", "snowboard", "등산", "스키", "산악"}

  datatype Theme = Healing | Thrill | PhotoSpot | StampTheme

  type Kilometres = km: real | km >= 0.0

  /** The request schema admits 1 to 1440 minutes. */
  type Budget = minutes: int | 1 <= minutes <= 1440 witness 1

  /** One recommendation request, with the parts of it this model does not compute:
      which places satisfy the requested sport, which texts carry a theme keyword,
      and the great-circle distance between two places. */
  datatype Trip = Trip(
    available: Budget,
    theme: Theme,
    region: string,
    sigun: Option<string>,
    isAnchor: Activity -> bool,
    keyword: Activity -> bool,
    straightKm: (Activity, Activity) -> Kilometres)
  {
    function Relevance(a: Activity): (r: nat)
      ensures r <= 2
    {
      if a.themeMatch then 2
      else if theme == Thrill && a.category == Sports then 1
      else if keyword(a) then 1 else 0
    }

    predicate OnTheme(a: Activity) { Relevance(a) > 0 }

    function DistanceKm(a: Activity, b: Activity): Option<Kilometres>
    {
      if a.id == b.id then Some(0.0)
      else if a.place.Located? && b.place.Located? then
        Some(straightKm(a, b) * if Mountainous(a) || Mountainous(b) then 1.6 else 1.3)
      else if a.sigun != "" && a.sigun == b.sigun then Some(10.0)
      else None
    }

    predicate Near(a: Activity, b: Activity)
    {
      DistanceKm(a, b).Some? && DistanceKm(a, b).value <= MAX_LEG_KM
    }

    function TravelMinutes(a: Activity, b: Activity): (t: Option<nat>)
      ensures t.Some? <==> DistanceKm(a, b).Some? && DistanceKm(a, b).value <= 40.0
      ensures t.Some? && t.value == 0 <==> DistanceKm(a, b) == Some(0.0)
      ensures t.Some? && t.value > 0 ==> 10 <= t.value <= 60
      ensures t.Some? && t.value > 0 ==> t.value as real >= 1.5 * DistanceKm(a, b).value
      ensures t.Some? && t.value > 10 ==> (t.value - 1) as real < 1.5 * DistanceKm(a, b).value
    {
      if !Near(a, b) then None
      else
        var km := DistanceKm(a, b).value;
        if km == 0.0 then Some(0)
        else Some(if Ceil(km / 40.0 * 60.0) < 10 then 10 else Ceil(km / 40.0 * 60.0))
    }

    function LegMinutes(a: Activity, b: Activity): nat
    {
      TravelMinutes(a, b).GetOr(0)
    }

    /** Minutes added by visiting `next` after the last stop of `route`; None for an unreachable leg. */
    function Segment(route: seq<Activity>, next: Activity): (m: Option<int>)
      ensures m.Some? <==> route == [] || Near(route[|route| - 1], next)
      ensures m.Some? ==> m.value >= 1
    {
      if route == [] then Some(Minutes(next))
      else match TravelMinutes(route[|route| - 1], next)
        case None => None
        case Some(t) => Some(t + Minutes(next))
    }

    ghost predicate Reachable(route: seq<Activity>)
    {
      forall i :: 0 < i < |route| ==> Near(route[i - 1], route[i])
    }

    function StayMinutes(route: seq<Activity>): nat {
      if route == [] then 0 else StayMinutes(route[..|route| - 1]) + Minutes(route[|route| - 1])
    }

    function TravelTotal(route: seq<Activity>): nat
    {
      if |route| < 2 then 0
      else TravelTotal(route[..|route| - 1]) + LegMinutes(route[|route| - 2], route[|route| - 1])
    }

    function RouteMinutes(route: seq<Activity>): nat
    {
      StayMinutes(route) + TravelTotal(route)
    }

    /** The legs of a route driven at 40 km/h, a minute and a half for each kilometre. */
    function DriveMinutes(route: seq<Activity>): real
    {
      if |route| < 2 then 0.0
      else
        var n := |route| - 1;
        DriveMinutes(route[..n]) + 1.5 * DistanceKm(route[n - 1], route[n]).GetOr(0.0)
    }
  }

  predicate Mountainous(a: Activity) {
    a.sport in MOUNTAIN_SPORTS ||
    Contains(a.placeName, "스키장") || Contains(a.placeName, "등산") || Contains(a.placeName, "산악")
  }

  function Ceil(x: real): (n: int)
    ensures n as real - 1.0 < x <= n as real
  {
    -((-x).Floor)
  }

  /** A reachable extension costs exactly its segment. */
  lemma RouteMinutesAppend(trip: Trip, route: seq<Activity>, next: Activity)
    requires trip.Segment(route, next).Some?
    ensures trip.RouteMinutes(route + [next]) == trip.RouteMinutes(route) + trip.Segment(route, next).value
    ensures trip.Reachable(route) ==> trip.Reachable(route + [next])
  {
    var longer := route + [next];
    assert longer[..|longer| - 1] == route;
  }

  /** A place fits the theme doubly when the search matched it, and once when a keyword does or, for
      thrills, when it is a sport. */
  lemma RelevanceIff(trip: Trip, a: Activity)
    ensures trip.Relevance(a) == 2 <==> a.themeMatch
    ensures trip.Relevance(a) == 0 <==>
      !a.themeMatch && !trip.keyword(a) && !(trip.theme == Thrill && a.category == Sports)
  {
  }

  /** A straight line of 25 km in the mountains, or of 40 km less the detours of roads elsewhere, is the
      longest that counts as reachable. */
  lemma ReachableIff(trip: Trip, a: Activity, b: Activity)
    requires a.id != b.id && a.place.Located? && b.place.Located?
    ensures trip.Near(a, b) <==>
      if Mountainous(a) || Mountainous(b) then trip.straightKm(a, b) <= 25.0 else 13.0 * trip.straightKm(a, b) <= 400.0
  {
  }

  /** A place without coordinates is a quarter of an hour from any place of its city, and from no other. */
  lemma UnlocatedIff(trip: Trip, a: Activity, b: Activity)
    requires a.id != b.id && !(a.place.Located? && b.place.Located?)
    ensures trip.TravelMinutes(a, b) == if a.sigun != "" && a.sigun == b.sigun then Some(15) else None
  {
  }

  /** The minutes counted for a reachable route are enough to drive it at 40 km/h. */
  lemma {:induction false} DriveWithinTravel(trip: Trip, route: seq<Activity>)
    requires trip.Reachable(route)
    ensures trip.DriveMinutes(route) <= trip.TravelTotal(route) as real
  {
    if |route| > 1 {
      var n := |route| - 1;
      DriveWithinTravel(trip, route[..n]);
      assert trip.Near(route[n - 1], route[n]);
    }
  }
}
