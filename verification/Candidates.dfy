/** Choosing the places offered to the planner: the cluster of one sports anchor, with food and
    rest places kept visible, cut to ten by weighted random draws. */
module Candidates {
  import opened Wrappers
  import opened Lists
  import opened CourseRoles
  import opened Travel

  const MAX_COHERENT := 30
  const MAX_OFFERED := 10
  const MIN_THEME := 3

  lemma IdsDistinguish(items: seq<Activity>)
    requires DistinctIds(items)
    ensures NoRepeats(items)
  {
  }

  lemma SameId(items: seq<Activity>, a: Activity, b: Activity)
    requires DistinctIds(items) && a in items && b in items && a.id == b.id
    ensures a == b
  {
  }

  /** Places picked from a list with distinct ids have distinct ids. */
  lemma PickedDistinct(items: seq<Activity>, picked: seq<Activity>)
    requires DistinctIds(items) && NoRepeats(picked)
    requires forall a :: a in picked ==> a in items
    ensures DistinctIds(picked)
  {
    forall i, j | 0 <= i < j < |picked| ensures picked[i].id != picked[j].id {
      if picked[i].id == picked[j].id {
        SameId(items, picked[i], picked[j]);
      }
    }
  }

  lemma FilterDistinct(items: seq<Activity>, p: Activity -> bool)
    requires DistinctIds(items)
    ensures DistinctIds(Filter(items, p))
  {
    IdsDistinguish(items);
    FilterNoRepeats(items, p);
    PickedDistinct(items, Filter(items, p));
  }

  /** Two lists without repeats and with the same elements have the same length. */
  lemma SameElements(a: seq<Activity>, b: seq<Activity>)
    requires DistinctIds(a) && DistinctIds(b)
    requires forall x :: x in a <==> x in b
    ensures |a| == |b|
  {
    assert Elements(a) == Elements(b);
    IdsDistinguish(a);
    IdsDistinguish(b);
    SizeOfList(a);
    SizeOfList(b);
  }

  lemma DistinctAppend(a: seq<Activity>, b: seq<Activity>)
    requires DistinctIds(a) && DistinctIds(b)
    requires forall x, y :: x in a && y in b ==> x.id != y.id
    ensures DistinctIds(a + b)
  {
  }

  // ----- the cluster of an anchor -----

  function Usable(trip: Trip, all: seq<Activity>): seq<Activity> {
    Filter(all, a => Recommendable(a) && Minutes(a) <= trip.available)
  }

  function Cluster(trip: Trip, usable: seq<Activity>, anchor: Activity): seq<Activity>
  {
    Filter(usable, a => trip.Near(anchor, a))
  }

  function RelevanceSum(trip: Trip, items: seq<Activity>): nat {
    if items == [] then 0 else trip.Relevance(items[0]) + RelevanceSum(trip, items[1..])
  }

  function AnchorScore(trip: Trip, usable: seq<Activity>, anchor: Activity): nat
  {
    |Cluster(trip, usable, anchor)| + 2 * RelevanceSum(trip, Cluster(trip, usable, anchor))
  }

  /** The weight with which a place is drawn. */
  function Weight(trip: Trip, a: Activity): nat {
    1 + 2 * trip.Relevance(a)
  }

  function TotalWeight(trip: Trip, items: seq<Activity>): nat {
    if items == [] then 0 else Weight(trip, items[0]) + TotalWeight(trip, items[1..])
  }

  lemma {:induction false} SizeAndRelevance(trip: Trip, items: seq<Activity>)
    ensures TotalWeight(trip, items) == |items| + 2 * RelevanceSum(trip, items)
  {
    if items != [] {
      SizeAndRelevance(trip, items[1..]);
    }
  }

  /** A cluster scores the total weight of its places: one for each, and two for each point of relevance. */
  lemma ScoreIsTotalWeight(trip: Trip, usable: seq<Activity>, anchor: Activity)
    ensures AnchorScore(trip, usable, anchor) == TotalWeight(trip, Cluster(trip, usable, anchor))
  {
    SizeAndRelevance(trip, Cluster(trip, usable, anchor));
  }

  /** The anchor with the best cluster, the earliest one among equals. */
  ghost predicate BestAnchor(trip: Trip, usable: seq<Activity>, k: nat, upTo: nat)
    requires upTo <= |usable|
  {
    && k < upTo && trip.isAnchor(usable[k])
    && forall i :: 0 <= i < upTo && trip.isAnchor(usable[i]) ==>
         && AnchorScore(trip, usable, usable[i]) <= AnchorScore(trip, usable, usable[k])
         && (i < k ==> AnchorScore(trip, usable, usable[i]) < AnchorScore(trip, usable, usable[k]))
  }

  method ChooseAnchor(trip: Trip, usable: seq<Activity>) returns (best: Option<nat>)
    ensures best.None? <==> forall a :: a in usable ==> !trip.isAnchor(a)
    ensures best.Some? ==> BestAnchor(trip, usable, best.value, |usable|)
  {
    best := None;
    for k := 0 to |usable|
      invariant best.None? <==> forall i :: 0 <= i < k ==> !trip.isAnchor(usable[i])
      invariant best.Some? ==> BestAnchor(trip, usable, best.value, k)
    {
      if trip.isAnchor(usable[k]) {
        if best.None? || AnchorScore(trip, usable, usable[best.value]) < AnchorScore(trip, usable, usable[k]) {
          best := Some(k);
        }
      }
    }
  }

  // ----- the order in which places are considered -----

  /** The sort key: the anchor, then relevance (descending), distance from the anchor and id. */
  predicate Before(trip: Trip, anchor: Activity, a: Activity, b: Activity)
  {
    var da, db := trip.DistanceKm(anchor, a).GetOr(0.0), trip.DistanceKm(anchor, b).GetOr(0.0);
    if (a.id == anchor.id) != (b.id == anchor.id) then a.id == anchor.id
    else if trip.Relevance(a) != trip.Relevance(b) then trip.Relevance(a) > trip.Relevance(b)
    else if da != db then da < db
    else a.id <= b.id
  }

  function Nearest(trip: Trip, anchor: Activity): (Activity, Activity) -> bool {
    (a, b) => Before(trip, anchor, a, b)
  }

  /** In the order the anchor leads; of two other places the first fits the theme no less, then lies no
      farther from the anchor, then has no higher id. */
  lemma NearestMeans(trip: Trip, anchor: Activity, sorted: seq<Activity>, i: nat, j: nat)
    requires InOrder(sorted, Nearest(trip, anchor)) && i < j < |sorted|
    ensures var a, b := sorted[i], sorted[j];
      var da, db := trip.DistanceKm(anchor, a).GetOr(0.0), trip.DistanceKm(anchor, b).GetOr(0.0);
      && (b.id == anchor.id ==> a.id == anchor.id)
      && ((a.id == anchor.id <==> b.id == anchor.id) ==>
            && trip.Relevance(a) >= trip.Relevance(b)
            && (trip.Relevance(a) == trip.Relevance(b) ==> da <= db && (da == db ==> a.id <= b.id)))
  {
    assert Nearest(trip, anchor)(sorted[i], sorted[j]);
  }

  lemma NearestOrders(trip: Trip, anchor: Activity)
    ensures Ordering(Nearest(trip, anchor))
  {
    forall x, y, z | Before(trip, anchor, x, y) && Before(trip, anchor, y, z) ensures Before(trip, anchor, x, z) {
    }
    forall x, y ensures Before(trip, anchor, x, y) || Before(trip, anchor, y, x) {
    }
  }

  lemma AnchorFirst(trip: Trip, items: seq<Activity>, anchor: Activity)
    requires DistinctIds(items) && anchor in items && InOrder(items, Nearest(trip, anchor))
    ensures items[0] == anchor
  {
    var k :| 0 <= k < |items| && items[k] == anchor;
  }

  // ----- places for food, rest and sightseeing come first -----

  predicate Supporting(a: Activity) { Role(a) in {Meal, Rest, Sightseeing} }

  predicate Breaks(a: Activity) { Role(a) in {Meal, Rest} }

  predicate HasBreak(items: seq<Activity>) {
    exists a | a in items :: Breaks(a)
  }

  function Serving(items: seq<Activity>, anchor: Activity, p: Purpose): seq<Activity> {
    Filter(items, a => Role(a) == p && a.id != anchor.id)
  }

  function Take(n: nat, items: seq<Activity>): seq<Activity> {
    if |items| <= n then items else items[..n]
  }

  /** The anchor, then up to `n` other places for each supporting purpose. */
  function Front(items: seq<Activity>, anchor: Activity, n: nat): seq<Activity> {
    [anchor] + Take(n, Serving(items, anchor, Meal)) + Take(n, Serving(items, anchor, Rest))
    + Take(n, Serving(items, anchor, Sightseeing))
  }

  ghost predicate Serves(items: seq<Activity>, anchor: Activity, p: Purpose, part: seq<Activity>) {
    && DistinctIds(part)
    && (forall a :: a in part ==> a in items && Role(a) == p && a.id != anchor.id)
    && (part == [] ==> forall a :: a in items && Role(a) == p ==> a.id == anchor.id)
  }

  lemma ServingSpec(items: seq<Activity>, anchor: Activity, p: Purpose, n: nat)
    requires DistinctIds(items) && n > 0
    ensures Serves(items, anchor, p, Take(n, Serving(items, anchor, p)))
  {
    FilterDistinct(items, a => Role(a) == p && a.id != anchor.id);
    var part := Take(n, Serving(items, anchor, p));
    assert forall a :: a in part ==> a in Serving(items, anchor, p);
    if part == [] {
      forall a | a in items && Role(a) == p ensures a.id == anchor.id {
        assert a !in Serving(items, anchor, p);
      }
    }
  }

  /** Each supporting purpose of `items`, where the anchor may serve one itself, is served by `out`. */
  ghost predicate Covers(items: seq<Activity>, out: seq<Activity>) {
    forall a :: a in items && Supporting(a) ==> exists b :: b in out && Role(b) == Role(a)
  }

  lemma JoinServing(items: seq<Activity>, anchor: Activity,
                    meals: seq<Activity>, rests: seq<Activity>, sights: seq<Activity>)
    requires DistinctIds(items) && anchor in items
    requires Serves(items, anchor, Meal, meals) && Serves(items, anchor, Rest, rests)
    requires Serves(items, anchor, Sightseeing, sights)
    ensures var r := [anchor] + meals + rests + sights;
      && DistinctIds(r) && (forall a :: a in r ==> a in items)
      && (forall a :: a in r ==> a == anchor || Supporting(a))
      && Covers(items, r)
  {
    DistinctAppend([anchor], meals);
    DistinctAppend([anchor] + meals, rests);
    DistinctAppend([anchor] + meals + rests, sights);
    var r := [anchor] + meals + rests + sights;
    forall a | a in items && Supporting(a) ensures exists b :: b in r && Role(b) == Role(a) {
      if a.id == anchor.id {
        SameId(items, a, anchor);
        assert a in r;
      } else {
        var part := if Role(a) == Meal then meals else if Role(a) == Rest then rests else sights;
        assert part[0] in part && part[0] in r;
      }
    }
  }

  lemma FrontSpec(items: seq<Activity>, anchor: Activity, n: nat)
    requires DistinctIds(items) && anchor in items && n > 0
    ensures var r := Front(items, anchor, n);
      && DistinctIds(r) && (forall a :: a in r ==> a in items)
      && 1 <= |r| <= 1 + 3 * n && r[0] == anchor
      && (forall a :: a in r ==> a == anchor || Supporting(a))
      && Covers(items, r)
  {
    ServingSpec(items, anchor, Meal, n);
    ServingSpec(items, anchor, Rest, n);
    ServingSpec(items, anchor, Sightseeing, n);
    JoinServing(items, anchor, Take(n, Serving(items, anchor, Meal)), Take(n, Serving(items, anchor, Rest)),
                Take(n, Serving(items, anchor, Sightseeing)));
  }

  function Behind(items: seq<Activity>, front: seq<Activity>): seq<Activity> {
    Filter(items, (a: Activity) => a.id !in Ids(front))
  }

  function Arranged(items: seq<Activity>, anchor: Activity): seq<Activity> {
    if HasBreak(items) then
      var front := Front(items, anchor, 2);
      front + Behind(items, front)
    else items
  }

  /** How many places at the front are there by reservation. */
  ghost function FrontSize(items: seq<Activity>, anchor: Activity): nat {
    if HasBreak(items) then |Front(items, anchor, 2)| else 1
  }

  /** Moving some places to the front only reorders. */
  lemma FrontThenRest(trip: Trip, items: seq<Activity>, anchor: Activity, front: seq<Activity>)
    requires DistinctIds(items) && InOrder(items, Nearest(trip, anchor))
    requires DistinctIds(front) && forall a :: a in front ==> a in items
    ensures DistinctIds(front + Behind(items, front))
    ensures forall a :: a in front + Behind(items, front) <==> a in items
    ensures InOrder(Behind(items, front), Nearest(trip, anchor))
  {
    var others := (a: Activity) => a.id !in Ids(front);
    FilterDistinct(items, others);
    FilterInOrder(items, Nearest(trip, anchor), others);
    forall x, y | x in front && y in Behind(items, front) ensures x.id != y.id {
      assert x.id in Ids(front);
    }
    DistinctAppend(front, Behind(items, front));
    forall a | a in items ensures a in front || a in Behind(items, front) {
      if a.id in Ids(front) {
        var b :| b in front && b.id == a.id;
        SameId(items, a, b);
      }
    }
  }

  /** Arranging only reorders: same places, anchor first, and after the reserved front
      everything is in sorted order. */
  lemma ArrangedSpec(trip: Trip, items: seq<Activity>, anchor: Activity)
    requires DistinctIds(items) && anchor in items && InOrder(items, Nearest(trip, anchor))
    ensures var r := Arranged(items, anchor);
      && DistinctIds(r) && (forall a :: a in r <==> a in items) && |r| == |items| && r[0] == anchor
      && 1 <= FrontSize(items, anchor) <= |r| && FrontSize(items, anchor) <= 7
      && InOrder(r[FrontSize(items, anchor)..], Nearest(trip, anchor))
  {
    var r := Arranged(items, anchor);
    if HasBreak(items) {
      var front := Front(items, anchor, 2);
      FrontSpec(items, anchor, 2);
      FrontThenRest(trip, items, anchor, front);
      assert r == front + Behind(items, front);
      assert r[|front|..] == Behind(items, front);
    } else {
      AnchorFirst(trip, items, anchor);
    }
    SameElements(r, items);
  }

  // ----- the draws -----

  ghost function OnThemeIn(trip: Trip, items: seq<Activity>): set<Activity> {
    Where(items, trip.OnTheme)
  }

  /** A weighted random draw: every place has positive weight, so any of them may be drawn. */
  method Draw(pool: seq<Activity>) returns (choice: Activity, rest: seq<Activity>)
    requires NoRepeats(pool) && pool != []
    ensures choice in pool && NoRepeats(rest) && |rest| == |pool| - 1
    ensures forall a :: a in rest ==> a in pool && a != choice
  {
    var k :| 0 <= k < |pool|;
    choice := pool[k];
    rest := pool[..k] + pool[k + 1..];
    assert forall a :: a in rest <==> a in pool[..k] || a in pool[k + 1..];
  }

  /** The selection before any draw: the anchor and the first other place for each supporting purpose. */
  function Reserved(items: seq<Activity>, anchor: Activity): seq<Activity> {
    if HasBreak(items) then Front(items, anchor, 1) else [anchor]
  }

  ghost predicate PurposesKept(cluster: seq<Activity>, out: seq<Activity>) {
    HasBreak(cluster) ==> Covers(cluster, out)
  }

  lemma ReservedSpec(items: seq<Activity>, anchor: Activity)
    requires DistinctIds(items) && anchor in items
    ensures var r := Reserved(items, anchor);
      && DistinctIds(r) && 1 <= |r| <= 4 && r[0] == anchor
      && (forall a :: a in r ==> a in items && (a == anchor || Supporting(a)))
    ensures PurposesKept(items, Reserved(items, anchor))
  {
    FrontSpec(items, anchor, 1);
  }

  /** At least three theme matches are offered, or else all that are not reserved. */
  ghost predicate ThemeKept(trip: Trip, cluster: seq<Activity>, anchor: Activity, reserved: seq<Activity>,
                            out: seq<Activity>)
  {
    |OnThemeIn(trip, out)| >= Min(MIN_THEME,
      |OnThemeIn(trip, cluster) - Elements(reserved)| + (if trip.OnTheme(anchor) then 1 else 0))
  }

  lemma ThemePool(trip: Trip, nearby: seq<Activity>, first: seq<Activity>)
    requires NoRepeats(nearby)
    ensures var pool := Filter(nearby, (a: Activity) => a !in first && trip.OnTheme(a));
      NoRepeats(pool) && |pool| == |OnThemeIn(trip, nearby) - Elements(first)|
  {
    var matching := (a: Activity) => a !in first && trip.OnTheme(a);
    FilterNoRepeats(nearby, matching);
    assert Elements(Filter(nearby, matching)) == OnThemeIn(trip, nearby) - Elements(first);
    SizeOfList(Filter(nearby, matching));
  }

  lemma OnThemeCount(trip: Trip, selected: seq<Activity>)
    requires NoRepeats(selected)
    ensures |OnThemeIn(trip, selected)| == Count(selected, trip.OnTheme)
  {
    CountIsSize(selected, trip.OnTheme);
    assert OnThemeIn(trip, selected) == Where(selected, trip.OnTheme);
  }

  /** Draw theme matches until at least three are selected, or none is left;
      the pool never runs dry before that. */
  method DrawOnTheme(trip: Trip, nearby: seq<Activity>, first: seq<Activity>) returns (selected: seq<Activity>)
    requires NoRepeats(nearby) && NoRepeats(first) && 1 <= |first| <= 4
    requires forall a :: a in first ==> a in nearby
    ensures NoRepeats(selected) && first <= selected && |selected| <= |first| + MIN_THEME
    ensures forall a :: a in selected ==> a in nearby
    ensures ThemeKept(trip, nearby, first[0], first, selected)
  {
    selected := first;
    var matching := (a: Activity) => a !in first && trip.OnTheme(a);
    var themePool := Filter(nearby, matching);
    ThemePool(trip, nearby, first);
    var target := Min(MIN_THEME, |themePool| + if trip.OnTheme(first[0]) then 1 else 0);
    ghost var drawn := 0;
    ghost var pool0 := |themePool|;
    CountPositive(selected, trip.OnTheme);
    assert first[0] in first;
    while Count(selected, trip.OnTheme) < target
      invariant NoRepeats(selected) && NoRepeats(themePool)
      invariant first <= selected && |selected| == |first| + drawn
      invariant forall a :: a in selected ==> a in nearby
      invariant forall a :: a in themePool ==> a in nearby && a !in selected && trip.OnTheme(a)
      invariant drawn <= MIN_THEME && |themePool| + drawn == pool0
      invariant Count(selected, trip.OnTheme) >= drawn + (if trip.OnTheme(first[0]) then 1 else 0)
      decreases |themePool|
    {
      var choice, rest := Draw(themePool);
      CountAppend(selected, trip.OnTheme, choice);
      selected := selected + [choice];
      themePool := rest;
      drawn := drawn + 1;
    }
    OnThemeCount(trip, selected);
  }

  /** Fill the selection up to ten from whatever is left. */
  method DrawRest(nearby: seq<Activity>, first: seq<Activity>) returns (selected: seq<Activity>)
    requires DistinctIds(nearby) && NoRepeats(first) && |first| <= MAX_OFFERED < |nearby|
    requires forall a :: a in first ==> a in nearby
    ensures NoRepeats(selected) && first <= selected && |selected| == MAX_OFFERED
    ensures forall a :: a in selected ==> a in nearby
  {
    selected := first;
    var pool := Behind(nearby, first);
    FilterNoRepeats(nearby, (a: Activity) => a.id !in Ids(first));
    Unselected(nearby, first);
    while |selected| < MAX_OFFERED
      invariant NoRepeats(selected) && NoRepeats(pool)
      invariant first <= selected && |selected| <= MAX_OFFERED
      invariant forall a :: a in selected ==> a in nearby
      invariant forall a :: a in pool ==> a in nearby && a !in selected
      invariant |selected| + |pool| == |nearby|
      decreases |pool|
    {
      var choice, rest := Draw(pool);
      selected := selected + [choice];
      pool := rest;
    }
  }

  /** Selected or left: nothing else. */
  lemma Unselected(nearby: seq<Activity>, first: seq<Activity>)
    requires DistinctIds(nearby) && NoRepeats(first) && forall a :: a in first ==> a in nearby
    ensures |first| + |Behind(nearby, first)| == |nearby|
    ensures forall a :: a in Behind(nearby, first) ==> a !in first
  {
    FilterNoRepeats(nearby, (a: Activity) => a.id !in Ids(first));
    var pool := Behind(nearby, first);
    forall a | a in nearby && a !in pool ensures a in first {
      var b :| b in first && b.id == a.id;
      SameId(nearby, a, b);
    }
    forall a | a in pool ensures a !in first {
      assert a in first ==> a.id in Ids(first);
    }
    assert Elements(nearby) == Elements(first) + Elements(pool);
    IdsDistinguish(nearby);
    SizeOfList(nearby);
    SizeOfList(first);
    SizeOfList(pool);
  }

  // ----- the whole selection -----

  ghost predicate Reservation(anchor: Activity, reserved: seq<Activity>, out: seq<Activity>) {
    && 1 <= |reserved| <= 4 && reserved[0] == anchor && NoRepeats(reserved)
    && (forall a :: a in reserved ==> a in out && (a == anchor || Supporting(a)))
  }

  /** What a selection from `cluster` promises, whatever was drawn. */
  ghost predicate OfferedFrom(trip: Trip, cluster: seq<Activity>, anchor: Activity, reserved: seq<Activity>,
                              out: seq<Activity>)
  {
    && out != [] && out[0] == anchor && DistinctIds(out)
    && (forall a :: a in out ==> a in cluster)
    && |out| == Min(MAX_OFFERED, |cluster|)
    && PurposesKept(cluster, out)
    && Reservation(anchor, reserved, out)
    && ThemeKept(trip, cluster, anchor, reserved, out)
  }

  /** The selection comes from the cluster of the best anchor. */
  ghost predicate Coherent(trip: Trip, all: seq<Activity>, out: seq<Activity>)
  {
    var usable := Usable(trip, all);
    exists k: nat, reserved ::
      && BestAnchor(trip, usable, k, |usable|)
      && OfferedFrom(trip, Cluster(trip, usable, usable[k]), usable[k], reserved, out)
  }

  function Chosen(nearby: seq<Activity>, selected: seq<Activity>): seq<Activity> {
    Filter(nearby, (a: Activity) => a.id in Ids(selected))
  }

  lemma ChosenSpec(nearby: seq<Activity>, selected: seq<Activity>)
    requires DistinctIds(nearby) && NoRepeats(selected)
    requires forall a :: a in selected ==> a in nearby
    ensures DistinctIds(Chosen(nearby, selected)) && |Chosen(nearby, selected)| == |selected|
    ensures forall a :: a in Chosen(nearby, selected) <==> a in selected
    ensures nearby != [] && nearby[0] in selected ==> Chosen(nearby, selected)[0] == nearby[0]
  {
    FilterDistinct(nearby, (a: Activity) => a.id in Ids(selected));
    var out := Chosen(nearby, selected);
    PickedDistinct(nearby, selected);
    forall a | a in out ensures a in selected {
      var b :| b in selected && b.id == a.id;
      SameId(nearby, a, b);
    }
    SameElements(out, selected);
  }

  /** Ten of more than ten nearby places: the anchor, the first of each supporting purpose,
      theme matches, then anything. */
  method Sample(trip: Trip, nearby: seq<Activity>) returns (out: seq<Activity>)
    requires DistinctIds(nearby) && |nearby| > MAX_OFFERED
    ensures OfferedFrom(trip, nearby, nearby[0], Reserved(nearby, nearby[0]), out)
  {
    var anchor := nearby[0];
    var first := Reserved(nearby, anchor);
    ReservedSpec(nearby, anchor);
    IdsDistinguish(nearby);
    IdsDistinguish(first);
    var themed := DrawOnTheme(trip, nearby, first);
    var selected := DrawRest(nearby, themed);
    out := Chosen(nearby, selected);
    ChosenSpec(nearby, selected);
    SampleOffered(trip, nearby, first, themed, selected, out);
  }

  lemma SampleOffered(trip: Trip, nearby: seq<Activity>, first: seq<Activity>, themed: seq<Activity>,
                      selected: seq<Activity>, out: seq<Activity>)
    requires |nearby| > MAX_OFFERED && |out| == MAX_OFFERED && DistinctIds(out) && out[0] == nearby[0]
    requires forall a :: a in out ==> a in nearby && a in selected
    requires forall a :: a in selected ==> a in out
    requires 1 <= |first| <= 4 && first[0] == nearby[0] && NoRepeats(first)
    requires forall a :: a in first ==> a == nearby[0] || Supporting(a)
    requires PurposesKept(nearby, first) && first <= themed && themed <= selected
    requires ThemeKept(trip, nearby, nearby[0], first, themed)
    ensures OfferedFrom(trip, nearby, nearby[0], first, out)
  {
    SampleKeeps(trip, nearby, first, themed, selected, out);
  }

  lemma SampleKeeps(trip: Trip, nearby: seq<Activity>, first: seq<Activity>, themed: seq<Activity>,
                    selected: seq<Activity>, out: seq<Activity>)
    requires nearby != [] && PurposesKept(nearby, first)
    requires first <= themed && themed <= selected && forall a :: a in out <==> a in selected
    requires ThemeKept(trip, nearby, nearby[0], first, themed)
    ensures forall a :: a in first ==> a in out
    ensures PurposesKept(nearby, out) && ThemeKept(trip, nearby, nearby[0], first, out)
  {
    assert forall a :: a in themed ==> a in out;
    assert forall a :: a in first ==> a in themed;
    CoversMore(nearby, first, out);
    Subset(OnThemeIn(trip, themed), OnThemeIn(trip, out));
  }

  lemma CoversMore(items: seq<Activity>, part: seq<Activity>, out: seq<Activity>)
    requires forall a :: a in part ==> a in out
    ensures Covers(items, part) ==> Covers(items, out)
  {
    if Covers(items, part) {
      forall a | a in items && Supporting(a) ensures exists b :: b in out && Role(b) == Role(a) {
        var b :| b in part && Role(b) == Role(a);
        assert b in out;
      }
    }
  }

  lemma FrontSurvivesCut(front: seq<Activity>, rest: seq<Activity>, cut: nat)
    requires |front| <= cut
    ensures forall a :: a in front ==> a in Take(cut, front + rest)
  {
    assert forall i :: 0 <= i < |front| ==> Take(cut, front + rest)[i] == front[i];
  }

  /** The first thirty arranged places keep every supporting purpose of the cluster. */
  lemma CutKeepsPurposes(trip: Trip, sorted: seq<Activity>, anchor: Activity)
    requires DistinctIds(sorted) && anchor in sorted && HasBreak(sorted)
    ensures Covers(sorted, Take(MAX_COHERENT, Arranged(sorted, anchor)))
    ensures HasBreak(Take(MAX_COHERENT, Arranged(sorted, anchor)))
  {
    var front := Front(sorted, anchor, 2);
    FrontSpec(sorted, anchor, 2);
    FrontSurvivesCut(front, Behind(sorted, front), MAX_COHERENT);
    CoversMore(sorted, front, Take(MAX_COHERENT, Arranged(sorted, anchor)));
    var rested :| rested in sorted && Breaks(rested);
    assert Supporting(rested);
  }

  /** Anything left out by the cut comes after at least 23 places that are at least as relevant. */
  lemma CutIsSorted(trip: Trip, sorted: seq<Activity>, anchor: Activity, j: nat)
    requires DistinctIds(sorted) && anchor in sorted && InOrder(sorted, Nearest(trip, anchor))
    requires MAX_COHERENT <= j < |Arranged(sorted, anchor)|
    requires trip.OnTheme(Arranged(sorted, anchor)[j])
    ensures forall i :: 7 <= i < MAX_COHERENT ==> trip.OnTheme(Arranged(sorted, anchor)[i])
  {
    ArrangedSpec(trip, sorted, anchor);
    var arranged := Arranged(sorted, anchor);
    var size := FrontSize(sorted, anchor);
    var tail := arranged[size..];
    forall i | 7 <= i < MAX_COHERENT ensures trip.OnTheme(arranged[i]) {
      assert tail[i - size] == arranged[i] && tail[j - size] == arranged[j];
      assert Nearest(trip, anchor)(tail[i - size], tail[j - size]);
      assert arranged[0] == anchor && arranged[i].id != anchor.id;
    }
  }

  /** Cutting to thirty never costs the third theme match outside a handful of places. */
  lemma CutKeepsThemes(trip: Trip, sorted: seq<Activity>, anchor: Activity, aside: set<Activity>)
    requires DistinctIds(sorted) && anchor in sorted && InOrder(sorted, Nearest(trip, anchor))
    requires |aside| <= 4
    ensures var nearby := Take(MAX_COHERENT, Arranged(sorted, anchor));
      |OnThemeIn(trip, nearby) - aside| >= Min(MIN_THEME, |OnThemeIn(trip, sorted) - aside|)
  {
    ArrangedSpec(trip, sorted, anchor);
    var arranged := Arranged(sorted, anchor);
    assert OnThemeIn(trip, sorted) == OnThemeIn(trip, arranged);
    if lost: nat :| MAX_COHERENT <= lost < |arranged| && trip.OnTheme(arranged[lost]) {
      CutIsSorted(trip, sorted, anchor, lost);
      IdsDistinguish(arranged);
      ManyKept(arranged, trip.OnTheme, aside);
    } else {
      NoneLost(arranged, trip.OnTheme);
    }
  }

  lemma ManyKept(items: seq<Activity>, p: Activity -> bool, aside: set<Activity>)
    requires NoRepeats(items) && |items| > MAX_COHERENT && |aside| <= 4
    requires forall i :: 7 <= i < MAX_COHERENT ==> p(items[i])
    ensures |Where(Take(MAX_COHERENT, items), p) - aside| >= MIN_THEME
  {
    var nearby, middle := items[..MAX_COHERENT], items[7..MAX_COHERENT];
    SizeOfList(middle);
    forall a | a in middle ensures a in Where(nearby, p) {
      var i :| 0 <= i < |middle| && middle[i] == a;
      assert nearby[i + 7] == a;
    }
    Removed(Elements(middle), aside);
    Subset(Elements(middle) - aside, Where(nearby, p) - aside);
  }

  lemma NoneLost(items: seq<Activity>, p: Activity -> bool)
    requires forall i :: MAX_COHERENT <= i < |items| ==> !p(items[i])
    ensures Where(Take(MAX_COHERENT, items), p) == Where(items, p)
  {
    var nearby := Take(MAX_COHERENT, items);
    forall a | a in Where(items, p) ensures a in nearby {
      var i :| 0 <= i < |items| && items[i] == a;
      assert nearby[i] == a;
    }
    assert forall a :: a in nearby ==> a in items;
  }

  /** What a sample of the nearby places keeps, it keeps of the whole cluster. */
  lemma ThemesOfCluster(trip: Trip, cluster: seq<Activity>, sorted: seq<Activity>, anchor: Activity,
                        reserved: seq<Activity>, out: seq<Activity>)
    requires DistinctIds(sorted) && anchor in sorted && InOrder(sorted, Nearest(trip, anchor))
    requires forall a :: a in sorted <==> a in cluster
    requires Reservation(anchor, reserved, out)
    requires ThemeKept(trip, Take(MAX_COHERENT, Arranged(sorted, anchor)), anchor, reserved, out)
    ensures ThemeKept(trip, cluster, anchor, reserved, out)
  {
    SizeOfList(reserved);
    CutKeepsThemes(trip, sorted, anchor, Elements(reserved));
    assert OnThemeIn(trip, sorted) == OnThemeIn(trip, cluster);
  }

  lemma SampleOfCluster(trip: Trip, cluster: seq<Activity>, sorted: seq<Activity>, anchor: Activity,
                        reserved: seq<Activity>, out: seq<Activity>)
    requires DistinctIds(sorted) && anchor in sorted && InOrder(sorted, Nearest(trip, anchor))
    requires forall a :: a in sorted <==> a in cluster
    requires var nearby := Take(MAX_COHERENT, Arranged(sorted, anchor));
      Reservation(anchor, reserved, out) && PurposesKept(nearby, out) && ThemeKept(trip, nearby, anchor, reserved, out)
    ensures PurposesKept(cluster, out) && ThemeKept(trip, cluster, anchor, reserved, out)
  {
    ThemesOfCluster(trip, cluster, sorted, anchor, reserved, out);
    if HasBreak(cluster) {
      CutKeepsPurposes(trip, sorted, anchor);
      CoversChain(cluster, Take(MAX_COHERENT, Arranged(sorted, anchor)), out);
    }
  }

  lemma CoversChain(a: seq<Activity>, b: seq<Activity>, c: seq<Activity>)
    requires Covers(a, b) && Covers(b, c)
    ensures Covers(a, c)
  {
    forall x | x in a && Supporting(x) ensures exists z :: z in c && Role(z) == Role(x) {
      var y :| y in b && Role(y) == Role(x);
      assert Supporting(y);
    }
  }

  /** A whole cluster of at most ten places keeps everything. */
  lemma WholeCluster(trip: Trip, cluster: seq<Activity>, anchor: Activity, out: seq<Activity>)
    requires DistinctIds(cluster) && DistinctIds(out) && forall a :: a in cluster <==> a in out
    requires out != [] && out[0] == anchor && |out| <= MAX_OFFERED
    ensures OfferedFrom(trip, cluster, anchor, [anchor], out)
  {
    SameElements(cluster, out);
    assert OnThemeIn(trip, cluster) == OnThemeIn(trip, out);
    assert Elements([anchor]) == {anchor};
    assert OnThemeIn(trip, out) ==
      (OnThemeIn(trip, out) - {anchor}) + if trip.OnTheme(anchor) then {anchor} else {};
  }

  lemma SortedCluster(trip: Trip, cluster: seq<Activity>, anchor: Activity)
    requires DistinctIds(cluster)
    ensures var sorted := Sort(cluster, Nearest(trip, anchor));
      DistinctIds(sorted) && InOrder(sorted, Nearest(trip, anchor))
  {
    IdsDistinguish(cluster);
    SortNoRepeats(cluster, Nearest(trip, anchor));
    PickedDistinct(cluster, Sort(cluster, Nearest(trip, anchor)));
    NearestOrders(trip, anchor);
    SortInOrder(cluster, Nearest(trip, anchor));
  }

  lemma CutOfCluster(trip: Trip, cluster: seq<Activity>, sorted: seq<Activity>, anchor: Activity)
    requires DistinctIds(cluster) && anchor in cluster
    requires DistinctIds(sorted) && InOrder(sorted, Nearest(trip, anchor)) && forall a :: a in sorted <==> a in cluster
    ensures var nearby := Take(MAX_COHERENT, Arranged(sorted, anchor));
      && DistinctIds(nearby) && nearby != [] && nearby[0] == anchor
      && (forall a :: a in nearby ==> a in cluster)
      && |nearby| == Min(MAX_COHERENT, |cluster|)
      && (|nearby| <= MAX_OFFERED ==> forall a :: a in cluster ==> a in nearby)
  {
    ArrangedSpec(trip, sorted, anchor);
    SameElements(sorted, cluster);
    var arranged := Arranged(sorted, anchor);
    assert forall a :: a in Take(MAX_COHERENT, arranged) ==> a in arranged;
  }

  lemma SampledOffer(trip: Trip, cluster: seq<Activity>, sorted: seq<Activity>, anchor: Activity, out: seq<Activity>)
    requires DistinctIds(cluster) && anchor in cluster
    requires DistinctIds(sorted) && InOrder(sorted, Nearest(trip, anchor)) && forall a :: a in sorted <==> a in cluster
    requires var nearby := Take(MAX_COHERENT, Arranged(sorted, anchor));
      |nearby| > MAX_OFFERED && OfferedFrom(trip, nearby, anchor, Reserved(nearby, anchor), out)
    ensures OfferedFrom(trip, cluster, anchor, Reserved(Take(MAX_COHERENT, Arranged(sorted, anchor)), anchor), out)
  {
    CutOfCluster(trip, cluster, sorted, anchor);
    SampleOfCluster(trip, cluster, sorted, anchor, Reserved(Take(MAX_COHERENT, Arranged(sorted, anchor)), anchor), out);
  }

  /** The places of a cluster that are offered. */
  method Offered(trip: Trip, cluster: seq<Activity>, anchor: Activity)
    returns (out: seq<Activity>, ghost reserved: seq<Activity>)
    requires DistinctIds(cluster) && anchor in cluster
    ensures OfferedFrom(trip, cluster, anchor, reserved, out)
  {
    var sorted := Sort(cluster, Nearest(trip, anchor));
    SortedCluster(trip, cluster, anchor);
    CutOfCluster(trip, cluster, sorted, anchor);
    var nearby := Take(MAX_COHERENT, Arranged(sorted, anchor));
    if |nearby| <= MAX_OFFERED {
      out, reserved := nearby, [anchor];
      WholeCluster(trip, cluster, anchor, out);
    } else {
      out := Sample(trip, nearby);
      reserved := Reserved(nearby, anchor);
      SampledOffer(trip, cluster, sorted, anchor, out);
    }
  }

  /** The candidates offered for a request: nothing exactly when no usable place is an anchor. */
  method CoherentCandidates(trip: Trip, all: seq<Activity>) returns (out: seq<Activity>)
    requires DistinctIds(all)
    ensures out == [] <==> forall a :: a in Usable(trip, all) ==> !trip.isAnchor(a)
    ensures out != [] ==> Coherent(trip, all, out)
  {
    var usable := Usable(trip, all);
    FilterDistinct(all, a => Recommendable(a) && Minutes(a) <= trip.available);
    var best := ChooseAnchor(trip, usable);
    if best.None? {
      return [];
    }
    var anchor := usable[best.value];
    var cluster := Cluster(trip, usable, anchor);
    FilterDistinct(usable, a => trip.Near(anchor, a));
    ghost var reserved;
    out, reserved := Offered(trip, cluster, anchor);
  }

  /** Every place offered was found, is no lodging, shop or undated festival, fits the time on its own and
      lies within 40 km of the first, which is an anchor. */
  lemma OfferedMeans(trip: Trip, all: seq<Activity>, out: seq<Activity>, a: Activity)
    requires Coherent(trip, all, out) && a in out
    ensures a in all && a.contentType !in {"32", "38"} && (a.contentType == "15" ==> a.dated)
    ensures Minutes(a) <= trip.available && out != [] && trip.isAnchor(out[0])
    ensures trip.DistanceKm(out[0], a).Some? && trip.DistanceKm(out[0], a).value <= 40.0
  {
    var usable := Usable(trip, all);
    var k: nat, reserved :|
      && BestAnchor(trip, usable, k, |usable|)
      && OfferedFrom(trip, Cluster(trip, usable, usable[k]), usable[k], reserved, out);
    assert a in Cluster(trip, usable, usable[k]);
    assert a in usable && trip.Near(usable[k], a);
  }
}
