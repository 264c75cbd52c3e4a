/** Checking a course suggested by a language model before it is shown. */
module AiCourse {
  import opened Wrappers
  import opened CourseRoles
  import opened Travel
  import opened DayTripPlanner

  /** One entry of the generated stop list: without a readable id, with an infinite number as its id, or
      with an integer id. A missing or blank reason is None. */
  datatype Suggestion = Malformed | Infinite | Suggestion(activityId: int, reason: Option<string>)

  datatype Refusal =
    | MalformedStop
    | UnknownCandidate(id: int)
    | DuplicateCandidate(id: int)
    | UnreachableLeg(id: int)
    | EmptyReason(id: int)
    | MissingSport
    | RepeatedRole
    | OmittedRole

  /** An error raised on the way: a refusal, which the caller answers with the planned course, or the
      overflow of converting an infinite number to an integer, which it does not catch. */
  datatype Error = Refused(why: Refusal) | Overflow

  function Find(pool: seq<Activity>, id: int): (r: Option<Activity>)
    ensures r.Some? ==> r.value in pool && r.value.id == id
    ensures r.None? ==> forall a :: a in pool ==> a.id != id
  {
    if pool == [] then None
    else if pool[0].id == id then Some(pool[0])
    else Find(pool[1..], id)
  }

  lemma {:induction false} FindUnique(pool: seq<Activity>, a: Activity)
    requires DistinctIds(pool) && a in pool
    ensures Find(pool, a.id) == Some(a)
  {
    var found := Find(pool, a.id).value;
    assert found in pool && found.id == a.id;
  }

  function StopsOf(route: seq<Activity>, reasons: seq<string>): seq<Stop>
    requires |reasons| == |route|
  {
    seq(|route|, i requires 0 <= i < |route| => Stop(route[i].id, reasons[i], Minutes(route[i])))
  }

  /** One entry, given the stops already kept: the place to add, nothing when the entry
      would exceed the budget, or the error it raises. */
  function Examine(trip: Trip, pool: seq<Activity>, kept: seq<Activity>, s: Suggestion)
    : Result<Option<Activity>, Error>
  {
    match s
    case Malformed => Failure(Refused(MalformedStop))
    case Infinite => Failure(Overflow)
    case Suggestion(id, reason) =>
      match Find(pool, id)
      case None => Failure(Refused(UnknownCandidate(id)))
      case Some(a) =>
        if id in Ids(kept) then Failure(Refused(DuplicateCandidate(id)))
        else match trip.Segment(kept, a)
          case None => Failure(Refused(UnreachableLeg(id)))
          case Some(m) =>
            if trip.RouteMinutes(kept) + m > trip.available then Success(None)
            else if reason.None? then Failure(Refused(EmptyReason(id)))
            else Success(Some(a))
  }

  /** `route` and `reasons` are what is kept of `generated`: every entry passes the check it meets. */
  ghost predicate Keeps(trip: Trip, pool: seq<Activity>, generated: seq<Suggestion>,
                        route: seq<Activity>, reasons: seq<string>)
    decreases |generated|
  {
    |route| == |reasons| &&
    if generated == [] then route == []
    else
      var n := |generated| - 1;
      var last := generated[n];
      || (Keeps(trip, pool, generated[..n], route, reasons)
          && Examine(trip, pool, route, last) == Success(None))
      || (route != []
          && Keeps(trip, pool, generated[..n], route[..|route| - 1], reasons[..|route| - 1])
          && Examine(trip, pool, route[..|route| - 1], last) == Success(Some(route[|route| - 1]))
          && last == Suggestion(route[|route| - 1].id, Some(reasons[|route| - 1])))
  }

  ghost predicate FailsAt(trip: Trip, pool: seq<Activity>, generated: seq<Suggestion>, n: nat,
                          kept: seq<Activity>, why: seq<string>, e: Error)
  {
    && n < |generated| && Keeps(trip, pool, generated[..n], kept, why)
    && Examine(trip, pool, kept, generated[n]) == Failure(e)
  }

  /** The list has an infinite id that every entry before it lets the check come to. */
  ghost predicate Overflows(trip: Trip, pool: seq<Activity>, generated: seq<Suggestion>) {
    exists n, kept, why :: OverflowsAt(trip, pool, generated, n, kept, why)
  }

  ghost predicate OverflowsAt(trip: Trip, pool: seq<Activity>, generated: seq<Suggestion>, n: nat,
                              kept: seq<Activity>, why: seq<string>)
  {
    n < |generated| && generated[n].Infinite? && Keeps(trip, pool, generated[..n], kept, why)
  }

  /** The outcome the rules prescribe: success for exactly the courses that can be followed,
      and otherwise the first thing found wrong. */
  ghost predicate Verdict(trip: Trip, pool: seq<Activity>, generated: seq<Suggestion>,
                          r: Result<seq<Stop>, Error>, route: seq<Activity>, reasons: seq<string>)
  {
    match r
    case Success(stops) =>
      Keeps(trip, pool, generated, route, reasons) && Itinerary(trip, pool, route) && stops == StopsOf(route, reasons)
    case Failure(e) =>
      || (exists n, kept, why :: FailsAt(trip, pool, generated, n, kept, why, e))
      || (Keeps(trip, pool, generated, route, reasons) &&
          if forall a :: a in route ==> !trip.isAnchor(a) then e == Refused(MissingSport)
          else e == Refused(RepeatedRole) && (|route| > MAX_STOPS || !ValidRoles(route, MainId(trip, route))))
  }

  /** Accept the generated stops or refuse the whole course. */
  method AiStops(trip: Trip, pool: seq<Activity>, generated: seq<Suggestion>)
    returns (r: Result<seq<Stop>, Error>, ghost route: seq<Activity>, ghost reasons: seq<string>)
    requires DistinctIds(pool)
    ensures Verdict(trip, pool, generated, r, route, reasons)
    ensures r.Success? <==> exists kept, why :: KeepsItinerary(trip, pool, generated, kept, why)
    ensures r.Success? ==> exists kept, why :: AcceptedAs(trip, pool, generated, r.value, kept, why)
    ensures r == Failure(Overflow) <==> Overflows(trip, pool, generated)
    ensures r.Success? ==> forall s :: s in generated ==> s.Suggestion? && exists a :: a in pool && a.id == s.activityId
  {
    r, route, reasons := CheckedStops(trip, pool, generated);
    VerdictExact(trip, pool, generated, r, route, reasons);
    OverflowExact(trip, pool, generated, r, route, reasons);
    assert r.Success? ==> AcceptedAs(trip, pool, generated, r.value, route, reasons);
    if r.Success? {
      AcceptedNamesCandidates(trip, pool, generated, route, reasons);
    }
  }

  lemma StopsAppend(route: seq<Activity>, reasons: seq<string>, a: Activity, reason: string)
    requires |reasons| == |route|
    ensures StopsOf(route + [a], reasons + [reason]) == StopsOf(route, reasons) + [Stop(a.id, reason, Minutes(a))]
  {
  }

  /** What has passed every check can be followed unless it lacks an anchor or repeats a role. */
  lemma KeptIsItinerary(trip: Trip, pool: seq<Activity>, route: seq<Activity>)
    requires SoFar(trip, pool, route)
    ensures Itinerary(trip, pool, route) <==>
      (exists a :: a in route && trip.isAnchor(a)) && |route| <= MAX_STOPS && ValidRoles(route, MainId(trip, route))
  {
  }

  method CheckedStops(trip: Trip, pool: seq<Activity>, generated: seq<Suggestion>)
    returns (r: Result<seq<Stop>, Error>, ghost route: seq<Activity>, ghost reasons: seq<string>)
    requires DistinctIds(pool)
    ensures Verdict(trip, pool, generated, r, route, reasons)
  {
    var seen: set<int>, total, stops, previous := {}, 0, [], [];
    reasons := [];
    route := [];
    for k := 0 to |generated|
      invariant previous == route
      invariant seen == Ids(route) && total == trip.RouteMinutes(route)
      invariant Keeps(trip, pool, generated[..k], route, reasons)
      invariant stops == StopsOf(route, reasons)
      invariant SoFar(trip, pool, route)
    {
      var outcome := Examined(trip, pool, seen, total, previous, generated[k]);
      match outcome {
        case Failure(e) =>
          assert FailsAt(trip, pool, generated, k, route, reasons, e);
          return Failure(e), route, reasons;
        case Success(None) =>
          KeepsSkip(trip, pool, generated, k, route, reasons);
        case Success(Some(a)) =>
          var reason := generated[k].reason.value;
          KeepsAdd(trip, pool, generated, k, route, reasons, a, reason);
          SoFarAppend(trip, pool, route, a);
          total := total + trip.Segment(previous, a).value;
          StopsAppend(route, reasons, a, reason);
          stops := stops + [Stop(a.id, reason, Minutes(a))];
          seen := seen + {a.id};
          previous := previous + [a];
          route, reasons := route + [a], reasons + [reason];
      }
    }
    assert generated[..|generated|] == generated;
    var mainId := MainId(trip, previous);
    MainIsAnchor(trip, previous);
    KeptIsItinerary(trip, pool, route);
    if mainId.None? {
      return Failure(Refused(MissingSport)), route, reasons;
    }
    if |previous| > MAX_STOPS || !ValidRoles(previous, mainId) {
      return Failure(Refused(RepeatedRole)), route, reasons;
    }
    r := Success(stops);
  }

  /** The checks on one entry, in the order they are made. */
  method Examined(trip: Trip, pool: seq<Activity>, seen: set<int>, total: int, previous: seq<Activity>, s: Suggestion)
    returns (r: Result<Option<Activity>, Error>)
    requires seen == Ids(previous) && total == trip.RouteMinutes(previous)
    ensures r == Examine(trip, pool, previous, s)
    ensures r.Success? && r.value.Some? ==>
      && s == Suggestion(r.value.value.id, s.reason) && s.reason.Some?
      && r.value.value in pool && r.value.value.id !in seen
      && trip.Segment(previous, r.value.value).Some?
      && total + trip.Segment(previous, r.value.value).value <= trip.available
  {
    match s {
      case Malformed => return Failure(Refused(MalformedStop));
      case Infinite => return Failure(Overflow);
      case Suggestion(id, reason) =>
        var found := Find(pool, id);
        if found.None? { return Failure(Refused(UnknownCandidate(id))); }
        if id in seen { return Failure(Refused(DuplicateCandidate(id))); }
        var minutes := trip.Segment(previous, found.value);
        if minutes.None? { return Failure(Refused(UnreachableLeg(id))); }
        if total + minutes.value > trip.available { return Success(None); }
        if reason.None? { return Failure(Refused(EmptyReason(id))); }
        r := Success(found);
    }
  }

  ghost predicate KeepsItinerary(trip: Trip, pool: seq<Activity>, generated: seq<Suggestion>,
                                 route: seq<Activity>, reasons: seq<string>)
  {
    Keeps(trip, pool, generated, route, reasons) && Itinerary(trip, pool, route)
  }

  ghost predicate AcceptedAs(trip: Trip, pool: seq<Activity>, generated: seq<Suggestion>, stops: seq<Stop>,
                             route: seq<Activity>, reasons: seq<string>)
  {
    KeepsItinerary(trip, pool, generated, route, reasons) && stops == StopsOf(route, reasons)
  }

  /** Success means exactly that what is kept can be followed. */
  lemma VerdictExact(trip: Trip, pool: seq<Activity>, generated: seq<Suggestion>,
                     r: Result<seq<Stop>, Error>, route: seq<Activity>, reasons: seq<string>)
    requires Verdict(trip, pool, generated, r, route, reasons)
    ensures r.Success? <==> exists kept, why :: KeepsItinerary(trip, pool, generated, kept, why)
  {
    if r.Success? {
      assert KeepsItinerary(trip, pool, generated, route, reasons);
    } else {
      forall kept, why | Keeps(trip, pool, generated, kept, why)
        ensures !Itinerary(trip, pool, kept)
      {
        if n, partial, because :| FailsAt(trip, pool, generated, n, partial, because, r.error) {
          FailureEnds(trip, pool, generated, n, partial, because, r.error);
        } else {
          KeepsUnique(trip, pool, generated, kept, why, route, reasons);
        }
      }
    }
  }

  lemma KeepsSkip(trip: Trip, pool: seq<Activity>, generated: seq<Suggestion>, k: nat,
                  route: seq<Activity>, reasons: seq<string>)
    requires k < |generated| && Keeps(trip, pool, generated[..k], route, reasons)
    requires Examine(trip, pool, route, generated[k]) == Success(None)
    ensures Keeps(trip, pool, generated[..k + 1], route, reasons)
  {
    assert generated[..k + 1][..k] == generated[..k];
  }

  lemma KeepsAdd(trip: Trip, pool: seq<Activity>, generated: seq<Suggestion>, k: nat,
                 route: seq<Activity>, reasons: seq<string>, a: Activity, reason: string)
    requires k < |generated| && Keeps(trip, pool, generated[..k], route, reasons)
    requires Examine(trip, pool, route, generated[k]) == Success(Some(a))
    requires generated[k] == Suggestion(a.id, Some(reason))
    ensures Keeps(trip, pool, generated[..k + 1], route + [a], reasons + [reason])
  {
    assert generated[..k + 1][..k] == generated[..k];
    assert (route + [a])[..|route|] == route && (reasons + [reason])[..|route|] == reasons;
  }

  /** What the stops kept so far always satisfy. */
  ghost predicate SoFar(trip: Trip, pool: seq<Activity>, route: seq<Activity>)
  {
    && DistinctIds(route)
    && (forall a :: a in route ==> a in pool)
    && trip.Reachable(route)
    && trip.RouteMinutes(route) <= trip.available
  }

  lemma SoFarAppend(trip: Trip, pool: seq<Activity>, route: seq<Activity>, a: Activity)
    requires SoFar(trip, pool, route) && a in pool && a.id !in Ids(route)
    requires trip.Segment(route, a).Some?
    requires trip.RouteMinutes(route) + trip.Segment(route, a).value <= trip.available
    ensures SoFar(trip, pool, route + [a])
    ensures Ids(route + [a]) == Ids(route) + {a.id}
    ensures trip.RouteMinutes(route + [a]) == trip.RouteMinutes(route) + trip.Segment(route, a).value
  {
    RouteMinutesAppend(trip, route, a);
    forall i | 0 <= i < |route| ensures route[i].id != a.id {
      assert route[i] in route;
    }
    forall id | id in Ids(route) + {a.id} ensures id in Ids(route + [a]) {
      if id in Ids(route) {
        var x :| x in route && x.id == id;
        assert x in route + [a];
      } else {
        assert a in route + [a];
      }
    }
  }

  // ----- what is kept is determined by what was generated -----

  /** What was kept before the last entry, and what the last entry came to. */
  lemma KeptBefore(trip: Trip, pool: seq<Activity>, generated: seq<Suggestion>, route: seq<Activity>,
                   reasons: seq<string>)
    returns (r: seq<Activity>, w: seq<string>, outcome: Option<Activity>)
    requires generated != [] && Keeps(trip, pool, generated, route, reasons)
    ensures Keeps(trip, pool, generated[..|generated| - 1], r, w)
    ensures Examine(trip, pool, r, generated[|generated| - 1]) == Success(outcome)
    ensures outcome.None? ==> route == r && reasons == w
    ensures outcome.Some? ==>
      && route == r + [outcome.value]
      && generated[|generated| - 1].Suggestion? && generated[|generated| - 1].reason.Some?
      && reasons == w + [generated[|generated| - 1].reason.value]
  {
    var last := generated[|generated| - 1];
    if Keeps(trip, pool, generated[..|generated| - 1], route, reasons)
      && Examine(trip, pool, route, last) == Success(None)
    {
      r, w, outcome := route, reasons, None;
    } else {
      r, w, outcome := route[..|route| - 1], reasons[..|route| - 1], Some(route[|route| - 1]);
    }
  }

  lemma {:induction false} KeepsUnique(
      trip: Trip, pool: seq<Activity>, generated: seq<Suggestion>,
      a: seq<Activity>, why: seq<string>, b: seq<Activity>, because: seq<string>)
    requires Keeps(trip, pool, generated, a, why) && Keeps(trip, pool, generated, b, because)
    ensures a == b && why == because
    decreases |generated|
  {
    if generated != [] {
      var a', why', x := KeptBefore(trip, pool, generated, a, why);
      var b', because', y := KeptBefore(trip, pool, generated, b, because);
      KeepsUnique(trip, pool, generated[..|generated| - 1], a', why', b', because');
    }
  }

  /** Each entry of an accepted list passed the check it met. */
  lemma {:induction false} KeptPrefix(
      trip: Trip, pool: seq<Activity>, generated: seq<Suggestion>, route: seq<Activity>, reasons: seq<string>, n: nat)
    returns (r: seq<Activity>, w: seq<string>)
    requires n < |generated| && Keeps(trip, pool, generated, route, reasons)
    ensures Keeps(trip, pool, generated[..n], r, w) && Examine(trip, pool, r, generated[n]).Success?
    decreases |generated|
  {
    var before := generated[..|generated| - 1];
    var outcome;
    r, w, outcome := KeptBefore(trip, pool, generated, route, reasons);
    if n < |before| {
      r, w := KeptPrefix(trip, pool, before, r, w, n);
      assert before[..n] == generated[..n];
    }
  }

  /** Nothing is kept of a list with an entry that fails the check it meets. */
  lemma FailureEnds(trip: Trip, pool: seq<Activity>, generated: seq<Suggestion>, n: nat,
                    kept: seq<Activity>, why: seq<string>, e: Error)
    requires FailsAt(trip, pool, generated, n, kept, why, e)
    ensures forall route, reasons :: !Keeps(trip, pool, generated, route, reasons)
  {
    forall route, reasons ensures !Keeps(trip, pool, generated, route, reasons) {
      if Keeps(trip, pool, generated, route, reasons) {
        var r, w := KeptPrefix(trip, pool, generated, route, reasons, n);
        KeepsUnique(trip, pool, generated[..n], r, w, kept, why);
      }
    }
  }

  /** Of two entries that fail the check they meet neither comes first. */
  lemma FailsOnce(trip: Trip, pool: seq<Activity>, generated: seq<Suggestion>, n: nat, kept: seq<Activity>,
                  why: seq<string>, e: Error, m: nat, partial: seq<Activity>, because: seq<string>, f: Error)
    requires FailsAt(trip, pool, generated, n, kept, why, e) && FailsAt(trip, pool, generated, m, partial, because, f)
    ensures m >= n
  {
    if m < n {
      assert generated[..n][..m] == generated[..m];
      FailureEnds(trip, pool, generated[..n], m, partial, because, f);
    }
  }

  /** The overflow is raised exactly when the check comes to an infinite id. */
  lemma OverflowExact(trip: Trip, pool: seq<Activity>, generated: seq<Suggestion>,
                      r: Result<seq<Stop>, Error>, route: seq<Activity>, reasons: seq<string>)
    requires Verdict(trip, pool, generated, r, route, reasons)
    ensures r == Failure(Overflow) <==> Overflows(trip, pool, generated)
  {
    if r == Failure(Overflow) {
      var n, kept, why :| FailsAt(trip, pool, generated, n, kept, why, Overflow);
      assert OverflowsAt(trip, pool, generated, n, kept, why);
    }
    forall m, partial, because | OverflowsAt(trip, pool, generated, m, partial, because)
      ensures r == Failure(Overflow)
    {
      assert FailsAt(trip, pool, generated, m, partial, because, Overflow);
      FailureEnds(trip, pool, generated, m, partial, because, Overflow);
      if n, kept, why :| r.Failure? && FailsAt(trip, pool, generated, n, kept, why, r.error) {
        FailsOnce(trip, pool, generated, n, kept, why, r.error, m, partial, because, Overflow);
        FailsOnce(trip, pool, generated, m, partial, because, Overflow, n, kept, why, r.error);
      }
    }
  }

  /** An infinite id alone overflows; behind an entry that is refused it is never come to. */
  lemma OverflowOrRefusalFirst(trip: Trip, pool: seq<Activity>)
    ensures Overflows(trip, pool, [Infinite])
    ensures !Overflows(trip, pool, [Malformed, Infinite])
  {
    assert OverflowsAt(trip, pool, [Infinite], 0, [], []);
    assert FailsAt(trip, pool, [Malformed, Infinite], 0, [], [], Refused(MalformedStop));
    forall n: nat, kept, why ensures !OverflowsAt(trip, pool, [Malformed, Infinite], n, kept, why) {
      if OverflowsAt(trip, pool, [Malformed, Infinite], n, kept, why) {
        FailureEnds(trip, pool, [Malformed, Infinite][..n], 0, [], [], Refused(MalformedStop));
      }
    }
  }

  // ----- what the checks come to, entry by entry -----

  lemma NothingKeptYet(trip: Trip, pool: seq<Activity>, route: seq<Activity>, reasons: seq<string>)
    ensures Keeps(trip, pool, [], route, reasons) <==> route == [] && reasons == []
  {
  }

  /** What one passed check says of the entry and of what is kept after it. */
  lemma LastEntryPassed(trip: Trip, pool: seq<Activity>, generated: seq<Suggestion>, route: seq<Activity>,
                        reasons: seq<string>)
    returns (kept: seq<Activity>, why: seq<string>, a: Activity)
    requires generated != [] && Keeps(trip, pool, generated, route, reasons)
    ensures Keeps(trip, pool, generated[..|generated| - 1], kept, why)
    ensures var s := generated[|generated| - 1];
      && s.Suggestion? && a in pool && a.id == s.activityId
      && (forall k :: k in kept ==> k.id != a.id)
      && (kept != [] ==> trip.Near(kept[|kept| - 1], a))
      && if trip.RouteMinutes(kept + [a]) > trip.available
         then route == kept && reasons == why
         else s.reason.Some? && route == kept + [a] && reasons == why + [s.reason.value]
  {
    var s, outcome := generated[|generated| - 1], None;
    kept, why, outcome := KeptBefore(trip, pool, generated, route, reasons);
    a := Find(pool, s.activityId).value;
    NotKept(kept, a);
    RouteMinutesAppend(trip, kept, a);
  }

  lemma NotKept(kept: seq<Activity>, a: Activity)
    ensures a.id in Ids(kept) <==> exists k :: k in kept && k.id == a.id
  {
  }

  /** Of an accepted list every entry names a candidate that is not yet kept and within reach of the last
      one kept; it is left out exactly when it would exceed the budget, and otherwise has a reason. */
  lemma AcceptedEntry(trip: Trip, pool: seq<Activity>, generated: seq<Suggestion>, route: seq<Activity>,
                      reasons: seq<string>, n: nat)
    returns (kept: seq<Activity>, why: seq<string>, a: Activity, kept': seq<Activity>, why': seq<string>)
    requires n < |generated| && Keeps(trip, pool, generated, route, reasons)
    ensures Keeps(trip, pool, generated[..n], kept, why) && Keeps(trip, pool, generated[..n + 1], kept', why')
    ensures generated[n].Suggestion? && a in pool && a.id == generated[n].activityId
    ensures forall k :: k in kept ==> k.id != a.id
    ensures kept != [] ==> trip.Near(kept[|kept| - 1], a)
    ensures if trip.RouteMinutes(kept + [a]) > trip.available
            then kept' == kept && why' == why
            else generated[n].reason.Some? && kept' == kept + [a] && why' == why + [generated[n].reason.value]
  {
    var upTo := generated[..n + 1];
    if n + 1 == |generated| {
      assert upTo == generated;
      kept', why' := route, reasons;
    } else {
      kept', why' := KeptPrefix(trip, pool, generated, route, reasons, n + 1);
    }
    kept, why, a := LastEntryPassed(trip, pool, upTo, kept', why');
    assert upTo[..n] == generated[..n];
  }

  lemma AcceptedNamesCandidates(trip: Trip, pool: seq<Activity>, generated: seq<Suggestion>, route: seq<Activity>,
                                reasons: seq<string>)
    requires Keeps(trip, pool, generated, route, reasons)
    ensures forall s :: s in generated ==> s.Suggestion? && exists a :: a in pool && a.id == s.activityId
  {
    forall s | s in generated ensures s.Suggestion? && exists a :: a in pool && a.id == s.activityId {
      var n :| 0 <= n < |generated| && generated[n] == s;
      var kept, why, a, kept', why' := AcceptedEntry(trip, pool, generated, route, reasons, n);
    }
  }

  /** Conversely an entry of this kind extends what is kept in this way. */
  lemma EntryExtends(trip: Trip, pool: seq<Activity>, generated: seq<Suggestion>, kept: seq<Activity>,
                     why: seq<string>, a: Activity, reason: Option<string>)
    requires DistinctIds(pool) && Keeps(trip, pool, generated, kept, why)
    requires a in pool && forall k :: k in kept ==> k.id != a.id
    requires kept != [] ==> trip.Near(kept[|kept| - 1], a)
    ensures trip.RouteMinutes(kept + [a]) > trip.available ==>
      Keeps(trip, pool, generated + [Suggestion(a.id, reason)], kept, why)
    ensures trip.RouteMinutes(kept + [a]) <= trip.available && reason.Some? ==>
      Keeps(trip, pool, generated + [Suggestion(a.id, reason)], kept + [a], why + [reason.value])
  {
    var more, n := generated + [Suggestion(a.id, reason)], |generated|;
    assert more[..n] == generated && more[..n + 1] == more;
    FindUnique(pool, a);
    NotKept(kept, a);
    RouteMinutesAppend(trip, kept, a);
    if trip.RouteMinutes(kept + [a]) > trip.available {
      KeepsSkip(trip, pool, more, n, kept, why);
    } else if reason.Some? {
      KeepsAdd(trip, pool, more, n, kept, why, a, reason.value);
    }
  }

  /** An entry that fails the check it meets decides the outcome. */
  lemma FailureDecides(trip: Trip, pool: seq<Activity>, generated: seq<Suggestion>, r: Result<seq<Stop>, Error>,
                       route: seq<Activity>, reasons: seq<string>, n: nat, kept: seq<Activity>, why: seq<string>,
                       e: Error)
    requires Verdict(trip, pool, generated, r, route, reasons) && FailsAt(trip, pool, generated, n, kept, why, e)
    ensures r == Failure(e)
  {
    FailureEnds(trip, pool, generated, n, kept, why, e);
    var m, partial, because :| r.Failure? && FailsAt(trip, pool, generated, m, partial, because, r.error);
    FailsOnce(trip, pool, generated, n, kept, why, e, m, partial, because, r.error);
    FailsOnce(trip, pool, generated, m, partial, because, r.error, n, kept, why, e);
    KeepsUnique(trip, pool, generated[..n], kept, why, partial, because);
  }

  /** The first entry that is not of this kind ends the list with its refusal: without a readable id,
      unknown, repeated, out of reach, or within the budget but without a reason. */
  lemma FirstBrokenEntry(trip: Trip, pool: seq<Activity>, generated: seq<Suggestion>, r: Result<seq<Stop>, Error>,
                         route: seq<Activity>, reasons: seq<string>, n: nat, kept: seq<Activity>, why: seq<string>)
    requires DistinctIds(pool) && Verdict(trip, pool, generated, r, route, reasons)
    requires n < |generated| && Keeps(trip, pool, generated[..n], kept, why)
    ensures generated[n].Malformed? ==> r == Failure(Refused(MalformedStop))
    ensures generated[n].Infinite? ==> r == Failure(Overflow)
    ensures generated[n].Suggestion? ==> var id := generated[n].activityId;
      && ((forall a :: a in pool ==> a.id != id) ==> r == Failure(Refused(UnknownCandidate(id))))
      && forall a :: a in pool && a.id == id ==>
           if exists k :: k in kept && k.id == id then r == Failure(Refused(DuplicateCandidate(id)))
           else if kept != [] && !trip.Near(kept[|kept| - 1], a) then r == Failure(Refused(UnreachableLeg(id)))
           else trip.RouteMinutes(kept + [a]) <= trip.available && generated[n].reason.None? ==>
             r == Failure(Refused(EmptyReason(id)))
  {
    var s, outcome := generated[n], Examine(trip, pool, kept, generated[n]);
    if outcome.Failure? {
      FailureDecides(trip, pool, generated, r, route, reasons, n, kept, why, outcome.error);
    }
    if s.Suggestion? {
      forall a | a in pool && a.id == s.activityId
        ensures Find(pool, s.activityId) == Some(a) && (a.id in Ids(kept) <==> exists k :: k in kept && k.id == a.id)
        ensures trip.Segment(kept, a).Some? ==>
          trip.RouteMinutes(kept + [a]) == trip.RouteMinutes(kept) + trip.Segment(kept, a).value
      {
        FindUnique(pool, a);
        NotKept(kept, a);
        if trip.Segment(kept, a).Some? {
          RouteMinutesAppend(trip, kept, a);
        }
      }
    }
  }

  function Suggest(route: seq<Activity>, reasons: seq<string>): seq<Suggestion>
    requires |reasons| == |route|
  {
    seq(|route|, i requires 0 <= i < |route| => Suggestion(route[i].id, Some(reasons[i])))
  }

  /** A course that can be followed is kept whole when it is suggested with reasons. */
  lemma {:induction false} ItineraryKept(trip: Trip, pool: seq<Activity>, route: seq<Activity>, reasons: seq<string>)
    requires DistinctIds(pool) && |reasons| == |route|
    requires DistinctIds(route) && (forall a :: a in route ==> a in pool)
    requires trip.Reachable(route) && trip.RouteMinutes(route) <= trip.available
    ensures Keeps(trip, pool, Suggest(route, reasons), route, reasons)
  {
    if route != [] {
      var n := |route| - 1;
      var before, why := route[..n], reasons[..n];
      RouteMinutesAppend(trip, before, route[n]);
      assert route == before + [route[n]];
      ItineraryKept(trip, pool, before, why);
      assert Suggest(route, reasons)[..n] == Suggest(before, why);
      FindUnique(pool, route[n]);
      assert route[n] in route;
    }
  }
}
