/** The 0..100 score shown beside a course. */
module MatchScore {
  import opened Wrappers
  import opened Lists
  import opened CourseRoles
  import opened Travel

  /** Every leg has a distance, so the score is defined. */
  ghost predicate Measured(trip: Trip, route: seq<Activity>)
  {
    forall i :: 0 < i < |route| ==> trip.DistanceKm(route[i - 1], route[i]).Some?
  }

  function LegCloseness(km: real): real {
    if 1.0 - km / MAX_LEG_KM < 0.0 then 0.0 else 1.0 - km / MAX_LEG_KM
  }

  function ClosenessSum(trip: Trip, route: seq<Activity>): real
  {
    if |route| < 2 then 0.0
    else LegCloseness(trip.DistanceKm(route[0], route[1]).GetOr(0.0)) + ClosenessSum(trip, route[1..])
  }

  predicate InArea(trip: Trip, a: Activity) {
    if trip.sigun.Some? && trip.sigun.value != "" then a.sigun == trip.sigun.value else a.region == trip.region
  }

  function Location(trip: Trip, route: seq<Activity>): real
    requires route != []
  {
    Count(route, a => InArea(trip, a)) as real / |route| as real
  }

  function Theming(trip: Trip, route: seq<Activity>): real
    requires route != []
  {
    Count(route, a => trip.OnTheme(a)) as real / |route| as real
  }

  function TimeFit(trip: Trip, route: seq<Activity>): real
  {
    var used := trip.RouteMinutes(route) as real / trip.available as real;
    if used < 1.0 then used else 1.0
  }

  function Closeness(trip: Trip, route: seq<Activity>): real
    requires route != []
  {
    if |route| == 1 then 1.0 else ClosenessSum(trip, route) / (|route| - 1) as real
  }

  function Categories(route: seq<Activity>): set<Category> {
    set a | a in route :: a.category
  }

  function Diversity(route: seq<Activity>): real
    requires route != []
  {
    |Categories(route)| as real / (if |route| < 3 then |route| else 3) as real
  }

  function Weighted(trip: Trip, route: seq<Activity>): real
    requires route != []
  {
    15.0 * Location(trip, route)
    + (if Count(route, trip.isAnchor) > 0 then 20.0 else 0.0)
    + 20.0 * Theming(trip, route)
    + 15.0 * TimeFit(trip, route)
    + 20.0 * Closeness(trip, route)
    + 10.0 * Diversity(route)
  }

  predicate HasSport(trip: Trip, route: seq<Activity>) {
    exists a :: a in route && trip.isAnchor(a)
  }

  /** What separates two courses: the requested sport is worth 20 points, and a part that goes from
      nothing to full 15 for the area, 20 for the theme, 15 for the time, 20 for closeness, 10 for
      different categories. */
  lemma PartsWeigh(trip: Trip, a: seq<Activity>, b: seq<Activity>)
    requires a != [] && b != []
    ensures Weighted(trip, a) - Weighted(trip, b) ==
      15.0 * (Location(trip, a) - Location(trip, b)) + 20.0 * (Theming(trip, a) - Theming(trip, b))
      + 15.0 * (TimeFit(trip, a) - TimeFit(trip, b)) + 20.0 * (Closeness(trip, a) - Closeness(trip, b))
      + 10.0 * (Diversity(a) - Diversity(b))
      + (if HasSport(trip, a) then 20.0 else 0.0) - (if HasSport(trip, b) then 20.0 else 0.0)
  {
    CountPositive(a, trip.isAnchor);
    CountPositive(b, trip.isAnchor);
  }

  /** Round to the nearest integer, halves to the even one. */
  function Round(x: real): (n: int)
    ensures n as real - 0.5 <= x <= n as real + 0.5
  {
    var down := x.Floor;
    var part := x - down as real;
    if part < 0.5 || (part == 0.5 && down % 2 == 0) then down else down + 1
  }

  function Score(trip: Trip, route: seq<Activity>): int
  {
    if route == [] then 0 else Round(Weighted(trip, route))
  }

  predicate InUnit(x: real) { 0.0 <= x <= 1.0 }

  lemma Fraction(a: real, b: real)
    requires 0.0 <= a <= b && b > 0.0
    ensures InUnit(a / b)
  {
  }

  lemma {:induction false} ClosenessBounds(trip: Trip, route: seq<Activity>)
    requires Measured(trip, route) && route != []
    ensures 0.0 <= ClosenessSum(trip, route) <= (|route| - 1) as real
  {
    if |route| > 1 {
      forall i | 0 < i < |route| - 1 ensures trip.DistanceKm(route[1..][i - 1], route[1..][i]).Some? {
        assert route[1..][i - 1] == route[i] && route[1..][i] == route[i + 1];
        assert trip.DistanceKm(route[i + 1 - 1], route[i + 1]).Some?;
      }
      ClosenessBounds(trip, route[1..]);
    }
  }

  lemma {:induction false} CategoriesBounds(route: seq<Activity>)
    requires route != []
    ensures 1 <= |Categories(route)| <= |route| && |Categories(route)| <= 3
  {
    var all := {Tour, Sports, Event};
    forall c: Category ensures c in all {
      match c case Tour => case Sports => case Event =>
    }
    Subset(Categories(route), all);
    CategoriesAtMost(route);
    assert route[0].category in Categories(route);
  }

  lemma {:induction false} CategoriesAtMost(route: seq<Activity>)
    ensures |Categories(route)| <= |route|
  {
    if route != [] {
      var n := |route| - 1;
      CategoriesAtMost(route[..n]);
      assert route == route[..n] + [route[n]];
      assert Categories(route) == Categories(route[..n]) + {route[n].category};
    }
  }

  /** Each part of the score is a fraction, so the score of any measured course is within 0..100;
      a course with the requested sport scores at least 20. */
  lemma ScoreBounds(trip: Trip, route: seq<Activity>)
    requires Measured(trip, route)
    ensures 0 <= Score(trip, route) <= 100
    ensures HasSport(trip, route) ==> Score(trip, route) >= 20
  {
    if route != [] {
      PartsInUnit(trip, route);
      CountPositive(route, trip.isAnchor);
    }
  }

  lemma Nonnegative(a: real, b: real)
    requires a >= 0.0 && b > 0.0
    ensures a / b >= 0.0
  {
  }

  // ----- when a course scores the maximum -----

  lemma Whole(a: real, b: real)
    requires b > 0.0
    ensures a / b == 1.0 <==> a == b
  {
  }

  lemma {:induction false} CountAll(s: seq<Activity>, p: Activity -> bool)
    ensures Count(s, p) == |s| <==> forall a :: a in s ==> p(a)
  {
    if s != [] {
      CountAll(s[1..], p);
      assert s == [s[0]] + s[1..];
    }
  }

  lemma {:induction false} ClosenessWhole(trip: Trip, route: seq<Activity>)
    requires Measured(trip, route) && route != []
    ensures ClosenessSum(trip, route) == (|route| - 1) as real <==>
      forall i :: 0 < i < |route| ==> trip.DistanceKm(route[i - 1], route[i]) == Some(0.0)
  {
    if |route| > 1 {
      var rest := route[1..];
      forall i | 0 < i < |rest| ensures trip.DistanceKm(rest[i - 1], rest[i]).Some? {
        assert trip.DistanceKm(route[i + 1 - 1], route[i + 1]).Some?;
      }
      ClosenessWhole(trip, rest);
      ClosenessBounds(trip, rest);
      LaterLegs(trip, route);
    }
  }

  lemma LaterLegs(trip: Trip, route: seq<Activity>)
    requires |route| > 1
    ensures (forall i :: 0 < i < |route| ==> trip.DistanceKm(route[i - 1], route[i]) == Some(0.0)) <==>
      && trip.DistanceKm(route[0], route[1]) == Some(0.0)
      && forall i :: 0 < i < |route[1..]| ==> trip.DistanceKm(route[1..][i - 1], route[1..][i]) == Some(0.0)
  {
    var rest := route[1..];
    if trip.DistanceKm(route[0], route[1]) == Some(0.0)
      && forall i :: 0 < i < |rest| ==> trip.DistanceKm(rest[i - 1], rest[i]) == Some(0.0)
    {
      forall i | 0 < i < |route| ensures trip.DistanceKm(route[i - 1], route[i]) == Some(0.0) {
        if i > 1 {
          assert trip.DistanceKm(rest[i - 1 - 1], rest[i - 1]) == Some(0.0);
        }
      }
    }
    if forall i :: 0 < i < |route| ==> trip.DistanceKm(route[i - 1], route[i]) == Some(0.0) {
      forall i | 0 < i < |rest| ensures trip.DistanceKm(rest[i - 1], rest[i]) == Some(0.0) {
        assert trip.DistanceKm(route[i + 1 - 1], route[i + 1]) == Some(0.0);
      }
    }
  }

  lemma FullParts(location: real, sport: real, theming: real, time: real, closeness: real, diversity: real)
    requires InUnit(location) && InUnit(sport) && InUnit(theming) && InUnit(time) && InUnit(closeness)
    requires InUnit(diversity)
    ensures 15.0 * location + 20.0 * sport + 20.0 * theming + 15.0 * time + 20.0 * closeness + 10.0 * diversity
        == 100.0
      <==> location == sport == theming == time == closeness == diversity == 1.0
  {
  }

  lemma PartsInUnit(trip: Trip, route: seq<Activity>)
    requires Measured(trip, route) && route != []
    ensures InUnit(Location(trip, route)) && InUnit(Theming(trip, route)) && InUnit(TimeFit(trip, route))
    ensures InUnit(Closeness(trip, route)) && InUnit(Diversity(route))
  {
    var n := |route| as real;
    Fraction(Count(route, a => InArea(trip, a)) as real, n);
    Fraction(Count(route, a => trip.OnTheme(a)) as real, n);
    Nonnegative(trip.RouteMinutes(route) as real, trip.available as real);
    ClosenessBounds(trip, route);
    if |route| > 1 {
      Fraction(ClosenessSum(trip, route), (|route| - 1) as real);
    }
    CategoriesBounds(route);
    Fraction(|Categories(route)| as real, (if |route| < 3 then |route| else 3) as real);
  }

  lemma PartsFullIff(trip: Trip, route: seq<Activity>)
    requires Measured(trip, route) && route != []
    ensures Location(trip, route) == 1.0 <==> forall a :: a in route ==> InArea(trip, a)
    ensures Theming(trip, route) == 1.0 <==> forall a :: a in route ==> trip.Relevance(a) > 0
    ensures TimeFit(trip, route) == 1.0 <==> trip.RouteMinutes(route) >= trip.available
    ensures Closeness(trip, route) == 1.0 <==>
      forall i :: 0 < i < |route| ==> trip.DistanceKm(route[i - 1], route[i]) == Some(0.0)
    ensures Diversity(route) == 1.0 <==> |Categories(route)| == if |route| < 3 then |route| else 3
  {
    var n := |route| as real;
    CountAll(route, a => InArea(trip, a));
    Whole(Count(route, a => InArea(trip, a)) as real, n);
    CountAll(route, a => trip.OnTheme(a));
    Whole(Count(route, a => trip.OnTheme(a)) as real, n);
    AtLeastWhole(trip.RouteMinutes(route) as real, trip.available as real);
    ClosenessWhole(trip, route);
    if |route| > 1 {
      Whole(ClosenessSum(trip, route), (|route| - 1) as real);
    }
    Whole(|Categories(route)| as real, (if |route| < 3 then |route| else 3) as real);
  }

  lemma AtLeastWhole(a: real, b: real)
    requires a >= 0.0 && b > 0.0
    ensures a / b >= 1.0 <==> a >= b
  {
  }

  /** A course has the full 100 points exactly when it has the requested sport, every stop is in the area
      and on the theme, the time is used up, no leg has any length, and the categories are as many as
      there can be. */
  lemma FullScoreIff(trip: Trip, route: seq<Activity>)
    requires Measured(trip, route) && route != []
    ensures Weighted(trip, route) == 100.0 <==>
      && HasSport(trip, route)
      && (forall a :: a in route ==> InArea(trip, a) && trip.Relevance(a) > 0)
      && trip.RouteMinutes(route) >= trip.available
      && (forall i :: 0 < i < |route| ==> trip.DistanceKm(route[i - 1], route[i]) == Some(0.0))
      && |Categories(route)| == if |route| < 3 then |route| else 3
  {
    PartsInUnit(trip, route);
    PartsFullIff(trip, route);
    CountPositive(route, trip.isAnchor);
    FullParts(Location(trip, route), if HasSport(trip, route) then 1.0 else 0.0, Theming(trip, route),
              TimeFit(trip, route), Closeness(trip, route), Diversity(route));
  }
}
