/** The condition-based planner: from every affordable sports anchor it grows a route greedily,
    and keeps the best route. */
module DayTripPlanner {
  import opened Wrappers
  import opened CourseRoles
  import opened Travel
  import opened Chains
  import opened Lists

  const MAX_STOPS := 5

  datatype Stop = Stop(activityId: int, reason: string, minutes: int)

  /** The purpose a stop serves in a course whose main stop is `mainId`. */
  function Label(a: Activity, mainId: Option<int>): Purpose {
    if mainId == Some(a.id) then Experience else Role(a)
  }

  function PurposeList(items: seq<Activity>, mainId: Option<int>): seq<Purpose> {
    seq(|items|, i requires 0 <= i < |items| => Label(items[i], mainId))
  }

  function CountLabel(items: seq<Activity>, mainId: Option<int>, p: Purpose): nat {
    multiset(PurposeList(items, mainId))[p]
  }

  predicate ValidRoles(items: seq<Activity>, mainId: Option<int>) {
    && CountLabel(items, mainId, Experience) <= 1
    && CountLabel(items, mainId, Meal) <= 1
    && CountLabel(items, mainId, Rest) <= 1
    && CountLabel(items, mainId, Sightseeing) <= 2
  }

  function Labels(items: seq<Activity>, mainId: Option<int>): set<Purpose> {
    set a | a in items :: Label(a, mainId)
  }

  function FirstWith(items: seq<Activity>, p: Activity -> bool): Option<int> {
    if items == [] then None
    else if p(items[0]) then Some(items[0].id)
    else FirstWith(items[1..], p)
  }

  /** The main stop: the first anchor whose own role is an experience, else the first anchor. */
  function MainId(trip: Trip, items: seq<Activity>): Option<int> {
    match FirstWith(items, a => Role(a) == Experience && trip.isAnchor(a))
    case Some(id) => Some(id)
    case None => FirstWith(items, trip.isAnchor)
  }

  // ----- the greedy step -----

  /** `item` may follow `route`, which started at its main stop `route[0]`. */
  predicate Appendable(trip: Trip, pool: seq<Activity>, route: seq<Activity>, item: Activity)
    requires route != []
  {
    var main := route[0];
    && item in pool && item.id != main.id && Role(item) != Experience
    && item !in route
    && ValidRoles(route + [item], Some(main.id))
    && trip.Segment(route, item).Some?
    && trip.RouteMinutes(route) + trip.Segment(route, item).value <= trip.available
  }

  datatype SupportKey = SupportKey(repeats: bool, relevance: int, km: real, id: int)

  function KeyOf(trip: Trip, route: seq<Activity>, item: Activity): SupportKey
    requires route != []
  {
    SupportKey(
      Role(item) in Labels(route, Some(route[0].id)),
      trip.Relevance(item),
      trip.DistanceKm(route[|route| - 1], item).GetOr(0.0),
      item.id)
  }

  /** Tuple order of the selection key: new purposes first, then relevance (descending),
      distance and id. */
  predicate KeyLess(a: SupportKey, b: SupportKey) {
    if a.repeats != b.repeats then !a.repeats
    else if a.relevance != b.relevance then a.relevance > b.relevance
    else if a.km != b.km then a.km < b.km
    else a.id < b.id
  }

  ghost predicate IsNext(trip: Trip, pool: seq<Activity>, route: seq<Activity>, item: Activity)
    requires route != []
  {
    && Appendable(trip, pool, route, item)
    && forall other :: Appendable(trip, pool, route, other) && other != item ==>
         KeyLess(KeyOf(trip, route, item), KeyOf(trip, route, other))
  }

  ghost predicate Start(trip: Trip, pool: seq<Activity>, main: Activity) {
    main in pool && trip.isAnchor(main) && Minutes(main) <= trip.available
  }

  /** Every stop after the first is the best one that could follow the stops before it. */
  ghost predicate GreedyPrefix(trip: Trip, pool: seq<Activity>, route: seq<Activity>)
  {
    && route != []
    && Start(trip, pool, route[0])
    && Chain(NextIn(trip, pool), route)
  }

  ghost function NextIn(trip: Trip, pool: seq<Activity>): (seq<Activity>, Activity) -> bool {
    (route, item) => route != [] && IsNext(trip, pool, route, item)
  }

  /** A greedy prefix that is full, or that nothing can follow. */
  ghost predicate GreedyRoute(trip: Trip, pool: seq<Activity>, route: seq<Activity>)
  {
    && GreedyPrefix(trip, pool, route)
    && |route| <= MAX_STOPS
    && (|route| == MAX_STOPS || forall item :: !Appendable(trip, pool, route, item))
  }

  // ----- what a route is worth -----

  datatype RouteRank = RouteRank(purposes: nat, stops: nat, travel: nat)

  function Rank(trip: Trip, route: seq<Activity>): RouteRank
    requires route != []
  {
    RouteRank(|Labels(route, Some(route[0].id))|, |route|, trip.TravelTotal(route))
  }

  predicate RankLess(a: RouteRank, b: RouteRank) {
    if a.purposes != b.purposes then a.purposes < b.purposes
    else if a.stops != b.stops then a.stops < b.stops
    else a.travel > b.travel
  }

  /** A course a traveller can follow: distinct known places, reachable legs, within the budget,
      and exactly one stop that serves as the experience. */
  ghost predicate Itinerary(trip: Trip, pool: seq<Activity>, route: seq<Activity>)
  {
    && 1 <= |route| <= MAX_STOPS
    && DistinctIds(route)
    && (forall a :: a in route ==> a in pool)
    && trip.Reachable(route)
    && trip.RouteMinutes(route) <= trip.available
    && (exists a :: a in route && trip.isAnchor(a))
    && ValidRoles(route, MainId(trip, route))
  }

  // ----- the planner -----

  function Nearer(trip: Trip, route: seq<Activity>): (Activity, Activity) -> bool
    requires route != []
  {
    (a, b) => KeyLess(KeyOf(trip, route, a), KeyOf(trip, route, b))
  }

  lemma NearerTransitive(trip: Trip, route: seq<Activity>)
    requires route != []
    ensures Transitive(Nearer(trip, route))
  {
    forall x, y, z | Nearer(trip, route)(x, y) && Nearer(trip, route)(y, z) ensures Nearer(trip, route)(x, z) {
      KeyOrder(KeyOf(trip, route, x), KeyOf(trip, route, y), KeyOf(trip, route, z));
    }
  }

  lemma KeyOrder(a: SupportKey, b: SupportKey, c: SupportKey)
    ensures KeyLess(a, b) && KeyLess(b, c) ==> KeyLess(a, c)
    ensures a.id != b.id ==> KeyLess(a, b) || KeyLess(b, a)
  {
  }

  lemma NearerTotal(trip: Trip, pool: seq<Activity>, route: seq<Activity>, a: Activity, b: Activity)
    requires DistinctIds(pool) && route != [] && a in pool && b in pool && a != b
    ensures Nearer(trip, route)(a, b) || Nearer(trip, route)(b, a)
  {
    KeyOrder(KeyOf(trip, route, a), KeyOf(trip, route, b), KeyOf(trip, route, a));
  }

  /** The smallest-key place that can follow `route`. */
  method ChooseNext(trip: Trip, pool: seq<Activity>, route: seq<Activity>) returns (chosen: Option<Activity>)
    requires DistinctIds(pool) && route != []
    ensures chosen.None? <==> forall item :: !Appendable(trip, pool, route, item)
    ensures chosen.Some? ==> IsNext(trip, pool, route, chosen.value)
  {
    var ok := (a: Activity) => Appendable(trip, pool, route, a);
    var less := Nearer(trip, route);
    NearerTransitive(trip, route);
    chosen := None;
    for k := 0 to |pool|
      invariant chosen.None? ==> forall a :: a in pool[..k] ==> !ok(a)
      invariant chosen.Some? ==> LeastOf(pool[..k], ok, less, chosen.value)
    {
      var x := pool[k];
      assert pool[..k + 1] == pool[..k] + [x];
      if chosen.None? {
        if ok(x) {
          chosen := Some(x);
        }
      } else if ok(x) && less(x, chosen.value) {
        LeastTake(pool[..k], ok, less, chosen.value, x);
        chosen := Some(x);
      } else {
        if ok(x) && x != chosen.value {
          NearerTotal(trip, pool, route, x, chosen.value);
        }
        LeastSkip(pool[..k], ok, less, chosen.value, x);
      }
    }
    assert pool[..|pool|] == pool;
    assert chosen.Some? ==> ok(chosen.value);
  }

  /** The route grown from one start. */
  method RouteFrom(trip: Trip, pool: seq<Activity>, main: Activity) returns (ordered: seq<Activity>)
    requires DistinctIds(pool) && Start(trip, pool, main)
    ensures GreedyRoute(trip, pool, ordered) && ordered[0] == main
  {
    ordered := [main];
    var total := Minutes(main);
    RouteMinutesAppend(trip, [], main);
    assert [] + [main] == [main];
    while |ordered| < MAX_STOPS
      invariant 1 <= |ordered| <= MAX_STOPS && ordered[0] == main
      invariant total == trip.RouteMinutes(ordered)
      invariant GreedyPrefix(trip, pool, ordered)
      decreases MAX_STOPS - |ordered|
    {
      var next := ChooseNext(trip, pool, ordered);
      match next {
        case None => return;
        case Some(item) =>
          RouteMinutesAppend(trip, ordered, item);
          ChainAppend(NextIn(trip, pool), ordered, item);
          total := total + trip.Segment(ordered, item).value;
          ordered := ordered + [item];
      }
    }
  }

  function ReasonFor(a: Activity, mainId: Option<int>): string {
    var purpose := match Label(a, mainId)
      case Experience => "메인 체험"
      case Meal => "식사"
      case Rest => "휴식"
      case Sightseeing => "관광";
    purpose + ": " + (if a.placeName != "" then a.placeName else "선택 장소") + "에서의 체류와 주변 이동을 연결했습니다."
  }

  /** Among greedy routes from starts before position `k`, `best` (from position `from`)
      is the first of the best. */
  ghost predicate BestBelow(trip: Trip, pool: seq<Activity>, best: seq<Activity>, from: nat, k: nat)
    requires k <= |pool|
  {
    && GreedyRoute(trip, pool, best) && from < k && best[0] == pool[from]
    && forall other, i | GreedyRoute(trip, pool, other) && 0 <= i < k && other[0] == pool[i] ::
         && !RankLess(Rank(trip, best), Rank(trip, other))
         && (i < from ==> RankLess(Rank(trip, other), Rank(trip, best)))
  }

  /** The best greedy route over all starts, the earliest start winning ties; empty when no
      anchor fits the budget. */
  method Fallback(trip: Trip, pool: seq<Activity>) returns (best: seq<Activity>)
    requires DistinctIds(pool)
    ensures best == [] <==> forall main :: !Start(trip, pool, main)
    ensures best != [] ==> exists from: nat :: BestBelow(trip, pool, best, from, |pool|)
  {
    best := [];
    ghost var from := 0;
    for k := 0 to |pool|
      invariant best == [] ==> forall i :: 0 <= i < k ==> !Start(trip, pool, pool[i])
      invariant best != [] ==> BestBelow(trip, pool, best, from, k)
    {
      var main := pool[k];
      if trip.isAnchor(main) && Minutes(main) <= trip.available {
        var route := RouteFrom(trip, pool, main);
        if best == [] {
          FirstRoute(trip, pool, k, route);
          best, from := route, k;
        } else if RankLess(Rank(trip, best), Rank(trip, route)) {
          BetterRoute(trip, pool, best, from, k, route);
          best, from := route, k;
        } else {
          WorseRoute(trip, pool, best, from, k, route);
        }
      } else if best != [] {
        NoRoute(trip, pool, best, from, k);
      }
    }
  }

  // ----- what greedy routes are -----

  lemma NextUnique(trip: Trip, pool: seq<Activity>, route: seq<Activity>, x: Activity, y: Activity)
    requires route != []
    requires IsNext(trip, pool, route, x) && IsNext(trip, pool, route, y)
    ensures x == y
  {
  }

  /** The next stop serves a new purpose if any place could, then fits the theme best, then is nearest,
      then has the lowest id. */
  lemma NextIsBest(trip: Trip, pool: seq<Activity>, route: seq<Activity>, item: Activity, other: Activity)
    requires route != [] && IsNext(trip, pool, route, item) && Appendable(trip, pool, route, other)
    ensures var served, here := Labels(route, Some(route[0].id)), route[|route| - 1];
      var km, otherKm := trip.DistanceKm(here, item), trip.DistanceKm(here, other);
      && km.Some? && otherKm.Some?
      && (Role(item) in served ==> Role(other) in served)
      && ((Role(item) in served <==> Role(other) in served) ==>
            && trip.Relevance(item) >= trip.Relevance(other)
            && (trip.Relevance(item) == trip.Relevance(other) ==>
                  && km.value <= otherKm.value
                  && (km == otherKm ==> item.id <= other.id)))
  {
    assert trip.Near(route[|route| - 1], item) && trip.Near(route[|route| - 1], other);
  }

  /** The route kept serves most purposes, then has most stops, then the least travel, and comes from
      the earliest of equal starts. */
  lemma FallbackIsBest(trip: Trip, pool: seq<Activity>, best: seq<Activity>, from: nat, other: seq<Activity>, i: nat)
    requires BestBelow(trip, pool, best, from, |pool|)
    requires GreedyRoute(trip, pool, other) && i < |pool| && other[0] == pool[i]
    ensures var purposes, others := |Labels(best, Some(best[0].id))|, |Labels(other, Some(other[0].id))|;
      && purposes >= others
      && (purposes == others ==>
            && |best| >= |other|
            && (|best| == |other| ==>
                  && trip.TravelTotal(best) <= trip.TravelTotal(other)
                  && (trip.TravelTotal(best) == trip.TravelTotal(other) ==> from <= i)))
  {
    assert !RankLess(Rank(trip, best), Rank(trip, other));
    assert i < from ==> RankLess(Rank(trip, other), Rank(trip, best));
  }

  lemma GreedyStep(trip: Trip, pool: seq<Activity>, route: seq<Activity>, i: nat)
    requires GreedyPrefix(trip, pool, route) && 0 < i < |route|
    ensures IsNext(trip, pool, route[..i], route[i])
  {
    assert NextIn(trip, pool)(route[..i], route[i]);
  }

  lemma GreedyRouteNotExtended(trip: Trip, pool: seq<Activity>, a: seq<Activity>, b: seq<Activity>)
    requires GreedyRoute(trip, pool, a) && GreedyRoute(trip, pool, b)
    requires |a| <= |b| && b[..|a|] == a
    ensures a == b
  {
    if |a| < |b| {
      GreedyStep(trip, pool, b, |a|);
    }
  }

  /** The rules leave no choice: two greedy routes from one start are the same route. */
  lemma GreedyRouteUnique(trip: Trip, pool: seq<Activity>, a: seq<Activity>, b: seq<Activity>)
    requires GreedyRoute(trip, pool, a) && GreedyRoute(trip, pool, b) && a[0] == b[0]
    ensures a == b
  {
    var n := if |a| <= |b| then |a| else |b|;
    forall route, x, y | NextIn(trip, pool)(route, x) && NextIn(trip, pool)(route, y) ensures x == y {
      NextUnique(trip, pool, route, x, y);
    }
    ChainUnique(NextIn(trip, pool), a, b, n);
    assert a[..|a|] == a && b[..|b|] == b;
    if |a| <= |b| {
      GreedyRouteNotExtended(trip, pool, a, b);
    } else {
      GreedyRouteNotExtended(trip, pool, b, a);
    }
  }

  // ----- greedy routes can be followed -----

  lemma {:induction false} FirstWithSpec(items: seq<Activity>, p: Activity -> bool)
    ensures FirstWith(items, p).None? <==> forall a :: a in items ==> !p(a)
    ensures FirstWith(items, p).Some? ==> exists a :: a in items && p(a) && FirstWith(items, p) == Some(a.id)
    ensures items != [] && p(items[0]) ==> FirstWith(items, p) == Some(items[0].id)
  {
    if items != [] {
      FirstWithSpec(items[1..], p);
      assert items == [items[0]] + items[1..];
    }
  }

  lemma MainIsAnchor(trip: Trip, items: seq<Activity>)
    ensures MainId(trip, items).None? <==> forall a :: a in items ==> !trip.isAnchor(a)
    ensures MainId(trip, items).Some? ==>
      exists a :: a in items && trip.isAnchor(a) && MainId(trip, items) == Some(a.id)
  {
    FirstWithSpec(items, a => Role(a) == Experience && trip.isAnchor(a));
    FirstWithSpec(items, trip.isAnchor);
  }

  /** On a planned route the recomputed main stop is the stop the planner started from. */
  lemma MainIsStart(trip: Trip, items: seq<Activity>)
    requires items != [] && trip.isAnchor(items[0])
    requires forall i :: 0 < i < |items| ==> Role(items[i]) != Experience
    ensures MainId(trip, items) == Some(items[0].id)
  {
    FirstWithSpec(items, a => Role(a) == Experience && trip.isAnchor(a));
    FirstWithSpec(items, trip.isAnchor);
  }

  lemma LabelCounted(items: seq<Activity>, mainId: Option<int>, a: Activity)
    requires a in items
    ensures CountLabel(items, mainId, Label(a, mainId)) >= 1
  {
    var i :| 0 <= i < |items| && items[i] == a;
    assert PurposeList(items, mainId)[i] in PurposeList(items, mainId);
  }

  /** A course with an anchor and valid roles shows exactly one experience. */
  lemma OneExperience(trip: Trip, items: seq<Activity>)
    requires exists a :: a in items && trip.isAnchor(a)
    requires ValidRoles(items, MainId(trip, items))
    ensures CountLabel(items, MainId(trip, items), Experience) == 1
  {
    MainIsAnchor(trip, items);
    var main :| main in items && MainId(trip, items) == Some(main.id);
    LabelCounted(items, MainId(trip, items), main);
  }

  /** What a greedy prefix keeps at every step. */
  ghost predicate Sound(trip: Trip, pool: seq<Activity>, route: seq<Activity>)
    requires route != []
  {
    && DistinctIds(route)
    && (forall a :: a in route ==> a in pool)
    && (forall i :: 0 < i < |route| ==> Role(route[i]) != Experience)
    && trip.Reachable(route)
    && trip.RouteMinutes(route) <= trip.available
    && ValidRoles(route, Some(route[0].id))
  }

  lemma SoundStart(trip: Trip, pool: seq<Activity>, main: Activity)
    requires Start(trip, pool, main)
    ensures Sound(trip, pool, [main])
  {
    RouteMinutesAppend(trip, [], main);
    assert [] + [main] == [main] && [main][..0] == [];
  }

  lemma SoundAppend(trip: Trip, pool: seq<Activity>, route: seq<Activity>, item: Activity)
    requires DistinctIds(pool) && route != []
    requires Sound(trip, pool, route) && Appendable(trip, pool, route, item)
    ensures Sound(trip, pool, route + [item])
  {
    RouteMinutesAppend(trip, route, item);
    forall i | 0 <= i < |route| ensures route[i].id != item.id {
      assert route[i] in pool;
    }
  }

  lemma GreedySound(trip: Trip, pool: seq<Activity>, route: seq<Activity>)
    requires DistinctIds(pool) && GreedyPrefix(trip, pool, route)
    ensures Sound(trip, pool, route)
  {
    var kept := (r: seq<Activity>) => r != [] && Sound(trip, pool, r);
    SoundStart(trip, pool, route[0]);
    assert route[..1] == [route[0]];
    forall r, x | kept(r) && NextIn(trip, pool)(r, x) ensures kept(r + [x]) {
      SoundAppend(trip, pool, r, x);
    }
    ChainKeeps(NextIn(trip, pool), kept, route, |route|);
    assert route[..|route|] == route;
  }

  /** Every planned route is an itinerary whose main stop is its start. */
  lemma GreedyIsItinerary(trip: Trip, pool: seq<Activity>, route: seq<Activity>)
    requires DistinctIds(pool) && GreedyRoute(trip, pool, route)
    ensures Itinerary(trip, pool, route)
    ensures MainId(trip, route) == Some(route[0].id)
  {
    GreedySound(trip, pool, route);
    MainIsStart(trip, route);
    assert route[0] in route;
  }

  // ----- the steps of the search over starts -----

  lemma RankOrder(a: RouteRank, b: RouteRank, c: RouteRank)
    ensures !RankLess(a, a)
    ensures RankLess(a, b) ==> !RankLess(b, a)
    ensures !RankLess(b, a) && RankLess(b, c) ==> RankLess(a, c)
  {
  }

  lemma FirstRoute(trip: Trip, pool: seq<Activity>, k: nat, route: seq<Activity>)
    requires DistinctIds(pool) && k < |pool|
    requires forall i :: 0 <= i < k ==> !Start(trip, pool, pool[i])
    requires GreedyRoute(trip, pool, route) && route[0] == pool[k]
    ensures BestBelow(trip, pool, route, k, k + 1)
  {
    forall other, i | GreedyRoute(trip, pool, other) && 0 <= i < k + 1 && other[0] == pool[i]
      ensures i == k && other == route
    {
      assert Start(trip, pool, other[0]);
      GreedyRouteUnique(trip, pool, other, route);
    }
  }

  lemma BetterRoute(trip: Trip, pool: seq<Activity>, best: seq<Activity>, from: nat, k: nat, route: seq<Activity>)
    requires DistinctIds(pool) && k < |pool|
    requires BestBelow(trip, pool, best, from, k)
    requires GreedyRoute(trip, pool, route) && route[0] == pool[k]
    requires RankLess(Rank(trip, best), Rank(trip, route))
    ensures BestBelow(trip, pool, route, k, k + 1)
  {
    forall other, i | GreedyRoute(trip, pool, other) && 0 <= i < k + 1 && other[0] == pool[i]
      ensures !RankLess(Rank(trip, route), Rank(trip, other))
      ensures i < k ==> RankLess(Rank(trip, other), Rank(trip, route))
    {
      if i == k {
        GreedyRouteUnique(trip, pool, other, route);
      } else {
        RankOrder(Rank(trip, other), Rank(trip, best), Rank(trip, route));
      }
      RankOrder(Rank(trip, other), Rank(trip, route), Rank(trip, route));
    }
  }

  lemma WorseRoute(trip: Trip, pool: seq<Activity>, best: seq<Activity>, from: nat, k: nat, route: seq<Activity>)
    requires DistinctIds(pool) && k < |pool|
    requires BestBelow(trip, pool, best, from, k)
    requires GreedyRoute(trip, pool, route) && route[0] == pool[k]
    requires !RankLess(Rank(trip, best), Rank(trip, route))
    ensures BestBelow(trip, pool, best, from, k + 1)
  {
    forall other, i | GreedyRoute(trip, pool, other) && 0 <= i < k + 1 && other[0] == pool[i]
      ensures !RankLess(Rank(trip, best), Rank(trip, other))
      ensures i < from ==> RankLess(Rank(trip, other), Rank(trip, best))
    {
      if i == k {
        GreedyRouteUnique(trip, pool, other, route);
      }
    }
  }

  lemma NoRoute(trip: Trip, pool: seq<Activity>, best: seq<Activity>, from: nat, k: nat)
    requires DistinctIds(pool) && k < |pool|
    requires BestBelow(trip, pool, best, from, k)
    requires !Start(trip, pool, pool[k])
    ensures BestBelow(trip, pool, best, from, k + 1)
  {
    forall other, i | GreedyRoute(trip, pool, other) && 0 <= i < k + 1 && other[0] == pool[i]
      ensures i < k
    {
      assert Start(trip, pool, other[0]);
    }
  }
}
