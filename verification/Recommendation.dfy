/** The whole recommendation: candidates, fallback course, and the checked AI course. */
module Recommendation {
  import opened Wrappers
  import opened CourseRoles
  import opened Travel
  import opened DayTripPlanner
  import opened AiCourse
  import Candidates
  import MatchScore

  /** What came back from the language model: no key configured, a failed or unreadable reply, one whose
      choices are empty, one nested beyond what the interpreter can read, or a reply (title and
      description already stripped) with its stop list if it had one. */
  datatype AiReply =
    | NotConfigured
    | Unavailable
    | NoChoice
    | TooDeep
    | Replied(title: string, description: string, stops: Option<seq<Suggestion>>)

  /** The errors that leave a request without a course, because only others are caught. */
  datatype Escape = IndexError | RecursionError | OverflowError

  datatype CourseStop = CourseStop(activityId: int, reason: string, minutes: int, purpose: Purpose)

  datatype Course = Course(
    stops: seq<CourseStop>,
    legs: seq<nat>,
    activityMinutes: nat,
    travelMinutes: nat,
    totalMinutes: nat,
    usedAi: bool,
    matchScore: int)

  /** The response for a route: the main stop is recomputed from the stops. */
  function Present(trip: Trip, route: seq<Activity>, reasons: seq<string>, usedAi: bool): Course
    requires |reasons| == |route|
  {
    var mainId := MainId(trip, route);
    Course(
      seq(|route|, i requires 0 <= i < |route| =>
        CourseStop(route[i].id, reasons[i], Minutes(route[i]), Label(route[i], mainId))),
      seq(if |route| == 0 then 0 else |route| - 1, i requires 0 <= i < |route| - 1 =>
        trip.LegMinutes(route[i], route[i + 1])),
      trip.StayMinutes(route),
      trip.TravelTotal(route),
      trip.StayMinutes(route) + trip.TravelTotal(route),
      usedAi,
      MatchScore.Score(trip, route))
  }

  function Sum(values: seq<int>): int {
    if values == [] then 0 else Sum(values[..|values| - 1]) + values[|values| - 1]
  }

  /** Distinct candidates joined by reachable legs. */
  ghost predicate Connected(trip: Trip, pool: seq<Activity>, course: Course)
  {
    && 1 <= |course.stops| <= MAX_STOPS
    && |course.legs| == |course.stops| - 1
    && (forall i, j :: 0 <= i < j < |course.stops| ==> course.stops[i].activityId != course.stops[j].activityId)
    && (forall i :: 0 <= i < |course.stops| ==> Find(pool, course.stops[i].activityId).Some?)
    && (forall i :: 0 <= i < |course.legs| ==>
          trip.TravelMinutes(Find(pool, course.stops[i].activityId).value,
                             Find(pool, course.stops[i + 1].activityId).value) == Some(course.legs[i]))
  }

  /** The totals add up and fit the budget. */
  ghost predicate Timed(trip: Trip, course: Course) {
    && course.activityMinutes == Sum(StopMinutes(course))
    && course.travelMinutes == Sum(course.legs)
    && course.totalMinutes == course.activityMinutes + course.travelMinutes <= trip.available
  }

  function StopMinutes(course: Course): seq<int> {
    seq(|course.stops|, i requires 0 <= i < |course.stops| => course.stops[i].minutes)
  }

  function StopPurposes(course: Course): seq<Purpose> {
    seq(|course.stops|, i requires 0 <= i < |course.stops| => course.stops[i].purpose)
  }

  /** One experience, at most one meal, one rest and two sights. */
  ghost predicate Balanced(course: Course) {
    var counts := multiset(StopPurposes(course));
    counts[Experience] == 1 && counts[Meal] <= 1 && counts[Rest] <= 1 && counts[Sightseeing] <= 2
  }

  /** The places of the stops, in order. */
  function Visited(pool: seq<Activity>, course: Course): seq<Activity>
    requires forall i :: 0 <= i < |course.stops| ==> Find(pool, course.stops[i].activityId).Some?
  {
    seq(|course.stops|, i requires 0 <= i < |course.stops| => Find(pool, course.stops[i].activityId).value)
  }

  /** The stays and the legs driven at 40 km/h fit the budget. */
  ghost predicate Drivable(trip: Trip, pool: seq<Activity>, course: Course)
    requires Connected(trip, pool, course)
  {
    course.activityMinutes as real + trip.DriveMinutes(Visited(pool, course)) <= trip.available as real
  }

  /** What every non-empty response promises to the traveller. */
  ghost predicate Followable(trip: Trip, pool: seq<Activity>, course: Course)
  {
    && Connected(trip, pool, course) && Timed(trip, course) && Drivable(trip, pool, course)
    && Balanced(course) && 20 <= course.matchScore <= 100
  }

  lemma {:induction false} StaySum(trip: Trip, route: seq<Activity>)
    ensures trip.StayMinutes(route) == Sum(seq(|route|, i requires 0 <= i < |route| => Minutes(route[i])))
  {
    if route != [] {
      var n := |route| - 1;
      StaySum(trip, route[..n]);
      var minutes := seq(|route|, i requires 0 <= i < |route| => Minutes(route[i]));
      assert minutes[..n] == seq(n, i requires 0 <= i < n => Minutes(route[..n][i]));
    }
  }

  function Legs(trip: Trip, route: seq<Activity>): seq<int>
    requires route != []
  {
    seq(|route| - 1, i requires 0 <= i < |route| - 1 => trip.LegMinutes(route[i], route[i + 1]))
  }

  lemma {:induction false} LegSum(trip: Trip, route: seq<Activity>)
    requires route != []
    ensures trip.TravelTotal(route) == Sum(Legs(trip, route))
  {
    if |route| > 1 {
      var n := |route| - 1;
      LegSum(trip, route[..n]);
      assert Legs(trip, route)[..n - 1] == Legs(trip, route[..n]);
    }
  }

  lemma PresentConnected(trip: Trip, pool: seq<Activity>, route: seq<Activity>, reasons: seq<string>, usedAi: bool)
    requires DistinctIds(pool) && |reasons| == |route| && Itinerary(trip, pool, route)
    ensures Connected(trip, pool, Present(trip, route, reasons, usedAi))
  {
    FoundAgain(pool, route);
    ItineraryNear(trip, pool, route);
    RouteConnected(trip, pool, route, Present(trip, route, reasons, usedAi));
  }

  lemma RouteConnected(trip: Trip, pool: seq<Activity>, route: seq<Activity>, course: Course)
    requires 1 <= |route| <= MAX_STOPS && DistinctIds(route)
    requires |course.stops| == |route| && |course.legs| == |route| - 1
    requires forall i :: 0 <= i < |route| ==>
      course.stops[i].activityId == route[i].id && Find(pool, route[i].id) == Some(route[i])
    requires forall i :: 0 <= i < |route| - 1 ==> trip.TravelMinutes(route[i], route[i + 1]) == Some(course.legs[i])
    ensures Connected(trip, pool, course)
  {
  }

  lemma FoundAgain(pool: seq<Activity>, route: seq<Activity>)
    requires DistinctIds(pool) && forall a :: a in route ==> a in pool
    ensures forall i :: 0 <= i < |route| ==> Find(pool, route[i].id) == Some(route[i])
  {
    forall i | 0 <= i < |route| ensures Find(pool, route[i].id) == Some(route[i]) {
      assert route[i] in route;
      FindUnique(pool, route[i]);
    }
  }

  lemma ItineraryNear(trip: Trip, pool: seq<Activity>, route: seq<Activity>)
    requires Itinerary(trip, pool, route)
    ensures forall i :: 0 <= i < |route| - 1 ==>
      trip.TravelMinutes(route[i], route[i + 1]) == Some(trip.LegMinutes(route[i], route[i + 1]))
  {
    forall i | 0 <= i < |route| - 1 ensures trip.Near(route[i], route[i + 1]) {
      assert trip.Near(route[i + 1 - 1], route[i + 1]);
    }
  }

  lemma PresentTimed(trip: Trip, route: seq<Activity>, reasons: seq<string>, usedAi: bool)
    requires |reasons| == |route| && route != []
    requires trip.RouteMinutes(route) <= trip.available
    ensures Timed(trip, Present(trip, route, reasons, usedAi))
  {
    var course := Present(trip, route, reasons, usedAi);
    StaySum(trip, route);
    assert StopMinutes(course) == seq(|route|, i requires 0 <= i < |route| => Minutes(route[i]));
    LegSum(trip, route);
    assert course.legs == Legs(trip, route);
  }

  lemma PresentBalanced(trip: Trip, route: seq<Activity>, reasons: seq<string>, usedAi: bool)
    requires |reasons| == |route|
    requires (exists a :: a in route && trip.isAnchor(a)) && ValidRoles(route, MainId(trip, route))
    ensures Balanced(Present(trip, route, reasons, usedAi))
  {
    OneExperience(trip, route);
    assert StopPurposes(Present(trip, route, reasons, usedAi)) == PurposeList(route, MainId(trip, route));
  }

  lemma ItineraryMeasured(trip: Trip, pool: seq<Activity>, route: seq<Activity>)
    requires Itinerary(trip, pool, route)
    ensures MatchScore.Measured(trip, route)
  {
    forall i | 0 < i < |route| ensures trip.DistanceKm(route[i - 1], route[i]).Some? {
      assert trip.Near(route[i - 1], route[i]);
    }
  }

  lemma PresentDrivable(trip: Trip, pool: seq<Activity>, route: seq<Activity>, reasons: seq<string>, usedAi: bool)
    requires DistinctIds(pool) && |reasons| == |route| && Itinerary(trip, pool, route)
    requires Connected(trip, pool, Present(trip, route, reasons, usedAi))
    ensures Drivable(trip, pool, Present(trip, route, reasons, usedAi))
  {
    FoundAgain(pool, route);
    assert Visited(pool, Present(trip, route, reasons, usedAi)) == route;
    DriveWithinTravel(trip, route);
  }

  /** Presenting an itinerary yields a course that can be followed. */
  lemma PresentFollowable(trip: Trip, pool: seq<Activity>, route: seq<Activity>, reasons: seq<string>, usedAi: bool)
    requires DistinctIds(pool) && |reasons| == |route| && Itinerary(trip, pool, route)
    ensures Followable(trip, pool, Present(trip, route, reasons, usedAi))
  {
    PresentConnected(trip, pool, route, reasons, usedAi);
    PresentTimed(trip, route, reasons, usedAi);
    PresentDrivable(trip, pool, route, reasons, usedAi);
    PresentBalanced(trip, route, reasons, usedAi);
    ItineraryMeasured(trip, pool, route);
    MatchScore.ScoreBounds(trip, route);
  }

  function Purposes(course: Course): set<Purpose> {
    set s | s in course.stops :: s.purpose
  }

  lemma PurposesAreLabels(trip: Trip, route: seq<Activity>, reasons: seq<string>, usedAi: bool)
    requires |reasons| == |route|
    ensures Purposes(Present(trip, route, reasons, usedAi)) == Labels(route, MainId(trip, route))
  {
    var course := Present(trip, route, reasons, usedAi);
    forall a | a in route ensures Label(a, MainId(trip, route)) in Purposes(course) {
      var i :| 0 <= i < |route| && route[i] == a;
      assert course.stops[i] in course.stops;
    }
  }

  function Reasons(route: seq<Activity>, mainId: Option<int>): seq<string> {
    seq(|route|, i requires 0 <= i < |route| => ReasonFor(route[i], mainId))
  }

  /** The course shows the stops of the route in order, each with its reason and stay. */
  predicate Shows(course: Course, route: seq<Activity>, reasons: seq<string>) {
    && |course.stops| == |route| == |reasons|
    && forall i :: 0 <= i < |route| ==>
         && course.stops[i].activityId == route[i].id
         && course.stops[i].reason == reasons[i]
         && course.stops[i].minutes == Minutes(route[i])
  }

  /** The condition-based course: the best greedy route of the candidates, main stop first. */
  ghost predicate Planned(trip: Trip, pool: seq<Activity>, planned: Course)
  {
    exists route: seq<Activity>, from: nat ::
      && BestBelow(trip, pool, route, from, |pool|)
      && planned == Present(trip, route, Reasons(route, Some(route[0].id)), false)
      && Shows(planned, route, Reasons(route, Some(route[0].id)))
      && planned.stops[0].purpose == Experience
  }

  lemma PresentShows(trip: Trip, route: seq<Activity>, reasons: seq<string>, usedAi: bool)
    requires |reasons| == |route|
    ensures Shows(Present(trip, route, reasons, usedAi), route, reasons)
  {
  }

  lemma BestIsPlanned(trip: Trip, pool: seq<Activity>, route: seq<Activity>)
    requires route != [] && exists from: nat :: BestBelow(trip, pool, route, from, |pool|)
    requires MainId(trip, route) == Some(route[0].id)
    ensures Planned(trip, pool, Present(trip, route, Reasons(route, Some(route[0].id)), false))
  {
    var from: nat :| BestBelow(trip, pool, route, from, |pool|);
    PresentShows(trip, route, Reasons(route, Some(route[0].id)), false);
  }

  /** The course planned from the candidates without a model. */
  method Plan(trip: Trip, pool: seq<Activity>) returns (route: seq<Activity>, reasons: seq<string>, planned: Course)
    requires DistinctIds(pool)
    requires pool != [] ==> Start(trip, pool, pool[0])
    ensures |reasons| == |route| && planned == Present(trip, route, reasons, false)
    ensures route == [] <==> pool == []
    ensures pool != [] ==> Planned(trip, pool, planned) && Followable(trip, pool, planned)
  {
    route := Fallback(trip, pool);
    var mainId := MainId(trip, route);
    reasons := Reasons(route, mainId);
    planned := Present(trip, route, reasons, false);
    if pool != [] {
      GreedyIsItinerary(trip, pool, route);
      BestIsPlanned(trip, pool, route);
      PresentFollowable(trip, pool, route, reasons, false);
    }
  }

  /** What is kept of a generated list can be followed and serves every purpose of the planned course. */
  ghost predicate Serves(trip: Trip, pool: seq<Activity>, planned: Course, generated: seq<Suggestion>)
  {
    exists route, reasons ::
      KeepsItinerary(trip, pool, generated, route, reasons) && Purposes(planned) <= Labels(route, MainId(trip, route))
  }

  /** A reply with a title, a description and a stop list that serves. */
  ghost predicate Usable(trip: Trip, pool: seq<Activity>, planned: Course, ai: AiReply)
  {
    && ai.Replied? && ai.title != "" && ai.description != ""
    && ai.stops.Some? && Serves(trip, pool, planned, ai.stops.value)
  }

  ghost predicate FromSuggestion(trip: Trip, pool: seq<Activity>, generated: seq<Suggestion>, course: Course) {
    exists route, reasons ::
      && KeepsItinerary(trip, pool, generated, route, reasons)
      && course == Present(trip, route, reasons, true) && Shows(course, route, reasons)
  }

  /** The error that reading the reply raises past the fallback, if any. */
  ghost function Escaping(trip: Trip, pool: seq<Activity>, ai: AiReply): Option<Escape> {
    if ai.NoChoice? then Some(IndexError)
    else if ai.TooDeep? then Some(RecursionError)
    else if ai.Replied? && ai.title != "" && ai.description != "" && ai.stops.Some?
            && Overflows(trip, pool, ai.stops.value) then Some(OverflowError)
    else None
  }

  lemma KeptIsFromSuggestion(trip: Trip, pool: seq<Activity>, generated: seq<Suggestion>, route: seq<Activity>,
                             reasons: seq<string>)
    requires KeepsItinerary(trip, pool, generated, route, reasons) && |reasons| == |route|
    ensures FromSuggestion(trip, pool, generated, Present(trip, route, reasons, true))
  {
    PresentShows(trip, route, reasons, true);
  }

  /** The course the model suggested, if it can be followed and serves every purpose
      of the planned one. */
  method Suggested(trip: Trip, pool: seq<Activity>, planned: Course, generated: seq<Suggestion>)
    returns (course: Result<Course, Error>)
    requires DistinctIds(pool)
    ensures course.Success? ==>
      course.value.usedAi && Followable(trip, pool, course.value) && Purposes(planned) <= Purposes(course.value)
    ensures course.Success? <==> Serves(trip, pool, planned, generated)
    ensures course.Success? ==> FromSuggestion(trip, pool, generated, course.value)
    ensures course == Failure(Overflow) <==> Overflows(trip, pool, generated)
  {
    var outcome, route, why := AiStops(trip, pool, generated);
    VerdictExact(trip, pool, generated, outcome, route, why);
    if outcome.Failure? {
      return Failure(outcome.error);
    }
    forall other, because | KeepsItinerary(trip, pool, generated, other, because) ensures other == route {
      KeepsUnique(trip, pool, generated, other, because, route, why);
    }
    assert KeepsItinerary(trip, pool, generated, route, why);
    PlacesOfRoute(trip, pool, route, why);
    var places, told := Places(pool, outcome.value), ReasonsOf(outcome.value);
    var suggested := Present(trip, places, told, true);
    PurposesAreLabels(trip, places, told, true);
    if !(Purposes(planned) <= Purposes(suggested)) {
      return Failure(Refused(OmittedRole));
    }
    PresentFollowable(trip, pool, places, told, true);
    KeptIsFromSuggestion(trip, pool, generated, route, why);
    course := Success(suggested);
  }

  /** The course for a reply: the suggested one when it is usable, else the planned one, unless reading
      the reply raises an error that is not caught. */
  method Answered(trip: Trip, pool: seq<Activity>, planned: Course, ai: AiReply) returns (r: Result<Course, Escape>)
    requires DistinctIds(pool)
    ensures r.Failure? <==> Escaping(trip, pool, ai).Some?
    ensures r.Failure? ==> Escaping(trip, pool, ai) == Some(r.error)
    ensures r.Success? && !Usable(trip, pool, planned, ai) ==> r.value == planned
    ensures r.Success? && Usable(trip, pool, planned, ai) ==>
      && r.value.usedAi && Followable(trip, pool, r.value) && Purposes(planned) <= Purposes(r.value)
      && FromSuggestion(trip, pool, ai.stops.value, r.value)
  {
    r := Success(planned);
    match ai {
      case NoChoice => r := Failure(IndexError);
      case TooDeep => r := Failure(RecursionError);
      case Replied(title, description, Some(stops)) =>
        if title != "" && description != "" {
          var suggested := Suggested(trip, pool, planned, stops);
          if suggested.Success? {
            r := Success(suggested.value);
          } else if suggested.error.Overflow? {
            r := Failure(OverflowError);
          }
        }
      case _ =>
    }
  }

  /** What a request with a course in answer promises. */
  ghost predicate Recommended(trip: Trip, all: seq<Activity>, ai: AiReply, course: Course, pool: seq<Activity>,
                              planned: Course)
  {
    && (course.stops == [] <==> pool == [])
    && (course.stops == [] ==> course == Present(trip, [], [], false))
    && (course.stops != [] ==>
          Candidates.Coherent(trip, all, pool) && Planned(trip, pool, planned) && Followable(trip, pool, course))
    && (if course.usedAi then Purposes(planned) <= Purposes(course) else course == planned)
    && (course.usedAi <==> course.stops != [] && Usable(trip, pool, planned, ai))
    && (course.usedAi ==> FromSuggestion(trip, pool, ai.stops.value, course))
  }

  /** Recommend a course from all the places found for a request. */
  method Recommend(trip: Trip, all: seq<Activity>, ai: AiReply)
    returns (r: Result<Course, Escape>, ghost pool: seq<Activity>, ghost planned: Course)
    requires DistinctIds(all)
    ensures pool == [] <==> forall a :: a in Candidates.Usable(trip, all) ==> !trip.isAnchor(a)
    ensures r.Success? ==> Recommended(trip, all, ai, r.value, pool, planned)
    ensures r.Failure? <==> pool != [] && Escaping(trip, pool, ai).Some?
    ensures r.Failure? ==> Escaping(trip, pool, ai) == Some(r.error)
  {
    var candidates := Candidates.CoherentCandidates(trip, all);
    pool := candidates;
    if candidates != [] {
      AnchorStarts(trip, all, candidates);
    }
    var fallback, reasons, plan := Plan(trip, candidates);
    r, planned := Success(plan), plan;
    if candidates != [] {
      r := Answered(trip, candidates, plan, ai);
    }
  }

  /** One stop with an infinite id is enough to leave any request that has candidates without a course. */
  lemma OneStopEscapes(trip: Trip, pool: seq<Activity>)
    ensures Escaping(trip, pool, Replied("course", "day trip", Some([Infinite]))) == Some(OverflowError)
  {
    OverflowOrRefusalFirst(trip, pool);
  }

  /** The anchor of the candidates is affordable, so planning from them never comes back empty. */
  lemma AnchorStarts(trip: Trip, all: seq<Activity>, out: seq<Activity>)
    requires out != [] && Candidates.Coherent(trip, all, out)
    ensures DistinctIds(out) && Start(trip, out, out[0])
  {
    var usable := Candidates.Usable(trip, all);
    var k: nat, reserved :|
      && Candidates.BestAnchor(trip, usable, k, |usable|)
      && Candidates.OfferedFrom(trip, Candidates.Cluster(trip, usable, usable[k]), usable[k], reserved, out);
    assert usable[k] in usable;
  }

  function Places(pool: seq<Activity>, stops: seq<Stop>): seq<Activity>
    requires forall s :: s in stops ==> Find(pool, s.activityId).Some?
  {
    seq(|stops|, i requires 0 <= i < |stops| => Find(pool, stops[i].activityId).value)
  }

  function ReasonsOf(stops: seq<Stop>): seq<string> {
    seq(|stops|, i requires 0 <= i < |stops| => stops[i].reason)
  }

  lemma PlacesOfRoute(trip: Trip, pool: seq<Activity>, route: seq<Activity>, reasons: seq<string>)
    requires DistinctIds(pool) && |reasons| == |route| && forall a :: a in route ==> a in pool
    ensures forall s :: s in StopsOf(route, reasons) ==> Find(pool, s.activityId).Some?
    ensures Places(pool, StopsOf(route, reasons)) == route
    ensures ReasonsOf(StopsOf(route, reasons)) == reasons
  {
    FoundAgain(pool, route);
  }
}
