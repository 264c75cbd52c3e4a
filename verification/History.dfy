/** A member's activity history: the newest rows of two sources, merged, sorted and cut to a page. */
module History {
  import opened Wrappers
  import opened Lists

  datatype Kind = Submission | Stamp | Saved

  datatype Row = Row(kind: Kind, sourceId: nat, occurredAt: int)

  // ----- history ids -----

  function Code(kind: Kind): nat {
    match kind
    case Submission => 1
    case Stamp => 2
    case Saved => 3
  }

  function HistoryId(kind: Kind, sourceId: nat): nat {
    sourceId * 10 + Code(kind)
  }

  /** The row a history id asks for, if it can be one. */
  function Decoded(id: int): Option<(Kind, nat)> {
    if id / 10 < 1 then None
    else if id % 10 == 1 then Some((Submission, id / 10))
    else if id % 10 == 2 then Some((Stamp, id / 10))
    else if id % 10 == 3 then Some((Saved, id / 10))
    else None
  }

  /** Ids name one row each, whatever its kind, and decoding finds it: row ids start at 1. */
  lemma DecodesIff(id: int, kind: Kind, sourceId: nat)
    ensures Decoded(id) == Some((kind, sourceId)) <==> sourceId >= 1 && id == HistoryId(kind, sourceId)
    ensures HistoryId(kind, sourceId) ==
      sourceId * 10 + if kind == Submission then 1 else if kind == Stamp then 2 else 3
  {
  }

  // ----- pages -----

  function Id(r: Row): nat {
    HistoryId(r.kind, r.sourceId)
  }

  /** Newest first, then the highest id. */
  predicate NotAfter(a: Row, b: Row) {
    a.occurredAt > b.occurredAt || (a.occurredAt == b.occurredAt && Id(a) >= Id(b))
  }

  predicate NotOlder(a: Row, b: Row) {
    a.occurredAt >= b.occurredAt
  }

  function Slice(rows: seq<Row>, offset: nat, limit: nat): seq<Row> {
    rows[Min(offset, |rows|)..Min(offset + limit, |rows|)]
  }

  /** What a query for the `limit` newest rows may return: the database orders by time alone. */
  ghost predicate Fetched(all: seq<Row>, limit: nat, got: seq<Row>) {
    exists rest :: FetchedBefore(all, limit, got, rest)
  }

  ghost predicate FetchedBefore(all: seq<Row>, limit: nat, got: seq<Row>, rest: seq<Row>) {
    && multiset(got + rest) == multiset(all)
    && |got| == Min(limit, |all|)
    && forall g, x :: g in got && x in rest ==> NotOlder(g, x)
  }

  /** The page asked for, cut from all rows. */
  function FullPage(submissions: seq<Row>, stamps: seq<Row>, offset: nat, limit: nat): seq<Row> {
    Slice(Sort(submissions + stamps, NotAfter), offset, limit)
  }

  /** No row left out by the query is as recent as one it returned. */
  ghost predicate NoTieCut(all: seq<Row>, got: seq<Row>) {
    forall g, x :: g in got && x in all && multiset(all)[x] > multiset(got)[x] ==> g.occurredAt > x.occurredAt
  }

  /** Of all rows in order, each that comes before place `n` was returned. */
  ghost predicate FirstFetched(a: seq<Row>, b: seq<Row>, n: nat, got: seq<Row>) {
    forall i :: 0 <= i < Min(n, |a + b|) ==> Sort(a + b, NotAfter)[i] in got
  }

  /** Later rows first, and of rows at one time the higher history id. */
  ghost predicate NewestFirst(page: seq<Row>) {
    forall i, j :: 0 <= i < j < |page| ==>
      || page[i].occurredAt > page[j].occurredAt
      || (page[i].occurredAt == page[j].occurredAt
          && HistoryId(page[i].kind, page[i].sourceId) >= HistoryId(page[j].kind, page[j].sourceId))
  }

  method ActivityHistory(submissions: seq<Row>, stamps: seq<Row>, ghost allSubmissions: seq<Row>,
                         ghost allStamps: seq<Row>, offset: nat, limit: nat) returns (page: seq<Row>)
    requires Fetched(allSubmissions, offset + limit, submissions) && Fetched(allStamps, offset + limit, stamps)
    ensures var full := FullPage(allSubmissions, allStamps, offset, limit);
      && |page| == |full|
      && NewestFirst(page)
      && (forall i :: 0 <= i < |page| ==> page[i].occurredAt == full[i].occurredAt)
      && (NoTieCut(allSubmissions, submissions) && NoTieCut(allStamps, stamps) ==> page == full)
      && (limit >= 1 && NoRepeats(allSubmissions + allStamps) ==>
            (page == full <==>
              FirstFetched(allSubmissions, allStamps, offset + limit, submissions + stamps)))
  {
    var rows := submissions + stamps;
    rows := Sort(rows, NotAfter);
    page := Slice(rows, offset, limit);
    SortedNewestFirst(submissions + stamps, offset, limit);
    SameTimes(submissions, stamps, allSubmissions, allStamps, offset, limit);
    if NoTieCut(allSubmissions, submissions) && NoTieCut(allStamps, stamps) {
      SameRows(submissions, stamps, allSubmissions, allStamps, offset, limit);
    }
    if limit >= 1 && NoRepeats(allSubmissions + allStamps) {
      PageExactIff(submissions, stamps, allSubmissions, allStamps, offset, limit);
    }
  }

  // ----- counting in sorted lists -----

  lemma {:induction false} CountConcat<T(!new)>(a: seq<T>, b: seq<T>, p: T -> bool)
    ensures Count(a + b, p) == Count(a, p) + Count(b, p)
  {
    if a == [] {
      assert a + b == b;
    } else {
      CountConcat(a[1..], b, p);
      assert (a + b)[1..] == a[1..] + b;
    }
  }

  lemma CountAround<T(!new)>(a: seq<T>, x: T, b: seq<T>, p: T -> bool)
    ensures multiset(a + ([x] + b)) == multiset(a + b) + multiset{x}
    ensures Count(a + ([x] + b), p) == Count(a + b, p) + if p(x) then 1 else 0
  {
    CountConcat(a, [x] + b, p);
    CountConcat(a, b, p);
    CountConcat([x], b, p);
  }

  lemma {:induction false} CountPermutes<T(!new)>(a: seq<T>, b: seq<T>, p: T -> bool)
    requires multiset(a) == multiset(b)
    ensures Count(a, p) == Count(b, p) && |a| == |b|
  {
    assert |multiset(a)| == |a| && |multiset(b)| == |b|;
    if a != [] {
      var x, rest := a[0], a[1..];
      assert a == [] + ([x] + rest);
      var pre, post := Around(b, x);
      CountAround([], x, rest, p);
      CountAround(pre, x, post, p);
      assert [] + rest == rest;
      assert multiset(rest) == multiset(a) - multiset{x} == multiset(pre + post);
      CountPermutes(rest, pre + post, p);
    }
  }

  lemma Around<T(!new)>(s: seq<T>, x: T) returns (pre: seq<T>, post: seq<T>)
    requires x in multiset(s)
    ensures s == pre + ([x] + post)
  {
    var k :| 0 <= k < |s| && s[k] == x;
    pre, post := s[..k], s[k + 1..];
  }

  lemma {:induction false} CountAllOf<T(!new)>(s: seq<T>, p: T -> bool)
    requires forall x :: x in s ==> p(x)
    ensures Count(s, p) == |s|
  {
    if s != [] {
      assert s == [s[0]] + s[1..];
      CountAllOf(s[1..], p);
    }
  }

  function UpTo<T(!new)>(leq: (T, T) -> bool, r: T): T -> bool {
    x => leq(x, r)
  }

  /** In a sorted list the elements up to `r` fill the places before any other. */
  lemma {:induction false} CountReaches<T(!new)>(s: seq<T>, leq: (T, T) -> bool, r: T, i: nat)
    requires Ordering(leq) && InOrder(s, leq) && i < |s|
    ensures Count(s, UpTo(leq, r)) > i <==> leq(s[i], r)
  {
    var a, b := s[..i], s[i + 1..];
    assert s == a + ([s[i]] + b);
    assert forall x :: x in a ==> leq(x, s[i]);
    assert forall x :: x in b ==> leq(s[i], x);
    CountSides(a, s[i], b, leq, r);
  }

  lemma CountSides<T(!new)>(a: seq<T>, m: T, b: seq<T>, leq: (T, T) -> bool, r: T)
    requires Ordering(leq) && (forall x :: x in a ==> leq(x, m)) && (forall x :: x in b ==> leq(m, x))
    ensures Count(a + ([m] + b), UpTo(leq, r)) > |a| <==> leq(m, r)
  {
    var p := UpTo(leq, r);
    CountAround(a, m, b, p);
    CountConcat(a, b, p);
    if leq(m, r) {
      CountAllOf(a, p);
    } else {
      CountPositive(b, p);
    }
  }

  /** If as many elements up to `s[i]` fill the first places of `t`, then `t[i]` comes no later. */
  lemma PlaceReached<T(!new)>(s: seq<T>, t: seq<T>, leq: (T, T) -> bool, i: nat)
    requires Ordering(leq) && InOrder(s, leq) && InOrder(t, leq) && i < |s|
    requires Count(s, UpTo(leq, s[i])) > i ==> Count(t, UpTo(leq, s[i])) > i
    ensures i < |t| && leq(t[i], s[i])
  {
    assert leq(s[i], s[i]);
    CountReaches(s, leq, s[i], i);
    CountReaches(t, leq, s[i], i);
  }

  // ----- a merge of the newest rows against a merge of all rows -----

  /** No row left out has the property without every row returned having it. */
  ghost predicate Closed(got: seq<Row>, rest: seq<Row>, p: Row -> bool) {
    forall g, x :: g in got && x in rest && p(x) ==> p(g)
  }

  lemma CountCut(all: seq<Row>, limit: nat, got: seq<Row>, rest: seq<Row>, p: Row -> bool)
    requires FetchedBefore(all, limit, got, rest) && Closed(got, rest, p)
    ensures Count(got, p) == Min(limit, Count(all, p))
  {
    CountPermutes(got + rest, all, p);
    CountConcat(got, rest, p);
    if Count(rest, p) > 0 {
      CountPositive(rest, p);
      CountAllOf(got, p);
    }
  }

  lemma OrdersAreOrderings()
    ensures Ordering(NotAfter) && Ordering(NotOlder)
  {
  }

  lemma SortedBoth(s: seq<Row>)
    ensures InOrder(Sort(s, NotAfter), NotAfter) && InOrder(Sort(s, NotAfter), NotOlder)
  {
    OrdersAreOrderings();
    SortInOrder(s, NotAfter);
  }

  lemma SortedNewestFirst(s: seq<Row>, offset: nat, limit: nat)
    ensures NewestFirst(Slice(Sort(s, NotAfter), offset, limit))
  {
    SortedBoth(s);
    var all, page := Sort(s, NotAfter), Slice(Sort(s, NotAfter), offset, limit);
    forall i, j | 0 <= i < j < |page| ensures NotAfter(page[i], page[j]) {
      var from := Min(offset, |all|);
      assert page[i] == all[from + i] && page[j] == all[from + j];
    }
  }

  /** As many rows up to `r` fill the first places of the merge of the newest rows as of the merge of all. */
  lemma SameReach(a: seq<Row>, b: seq<Row>, limit: nat, ga: seq<Row>, ra: seq<Row>, gb: seq<Row>, rb: seq<Row>,
                  p: Row -> bool, i: nat)
    requires FetchedBefore(a, limit, ga, ra) && FetchedBefore(b, limit, gb, rb)
    requires Closed(ga, ra, p) && Closed(gb, rb, p) && i < limit
    ensures Count(Sort(ga + gb, NotAfter), p) > i <==> Count(Sort(a + b, NotAfter), p) > i
  {
    CountCut(a, limit, ga, ra, p);
    CountCut(b, limit, gb, rb, p);
    CountConcat(a, b, p);
    CountConcat(ga, gb, p);
    SortPermutes(a + b, NotAfter);
    SortPermutes(ga + gb, NotAfter);
    CountPermutes(Sort(a + b, NotAfter), a + b, p);
    CountPermutes(Sort(ga + gb, NotAfter), ga + gb, p);
  }

  /** Lists in which equally many elements up to any `r` fill the first places have equals there. */
  lemma SamePlace<T(!new)>(s: seq<T>, t: seq<T>, leq: (T, T) -> bool, i: nat)
    requires Ordering(leq) && InOrder(s, leq) && InOrder(t, leq) && i < |s|
    requires forall r :: Count(t, UpTo(leq, r)) > i <==> Count(s, UpTo(leq, r)) > i
    ensures i < |t| && leq(t[i], s[i]) && leq(s[i], t[i])
  {
    PlaceReached(s, t, leq, i);
    PlaceReached(t, s, leq, i);
  }

  /** Cutting each source at the page's end leaves the page as long as it was. */
  lemma SameBounds(a: seq<Row>, b: seq<Row>, ga: seq<Row>, gb: seq<Row>, offset: nat, limit: nat)
    requires |ga| == Min(offset + limit, |a|) && |gb| == Min(offset + limit, |b|)
    ensures Min(offset, |ga| + |gb|) == Min(offset, |a| + |b|)
    ensures Min(offset + limit, |ga| + |gb|) == Min(offset + limit, |a| + |b|)
  {
  }

  /** Whichever of tied rows the queries return, the page shows the same times. */
  lemma SameTimes(ga: seq<Row>, gb: seq<Row>, a: seq<Row>, b: seq<Row>, offset: nat, limit: nat)
    requires Fetched(a, offset + limit, ga) && Fetched(b, offset + limit, gb)
    ensures var page, full := Slice(Sort(ga + gb, NotAfter), offset, limit), FullPage(a, b, offset, limit);
      |page| == |full| && forall i :: 0 <= i < |page| ==> page[i].occurredAt == full[i].occurredAt
  {
    var n := offset + limit;
    var s, t := Sort(a + b, NotAfter), Sort(ga + gb, NotAfter);
    SameBounds(a, b, ga, gb, offset, limit);
    forall i | 0 <= i < Min(n, |s|) ensures t[i].occurredAt == s[i].occurredAt {
      TimeAt(ga, gb, a, b, n, i);
    }
    SliceTimes(s, t, offset, limit);
  }

  lemma SliceTimes(s: seq<Row>, t: seq<Row>, offset: nat, limit: nat)
    requires Min(offset, |s|) == Min(offset, |t|) && Min(offset + limit, |s|) == Min(offset + limit, |t|)
    requires forall i :: 0 <= i < Min(offset + limit, |s|) ==> t[i].occurredAt == s[i].occurredAt
    ensures |Slice(t, offset, limit)| == |Slice(s, offset, limit)|
    ensures forall i :: 0 <= i < |Slice(t, offset, limit)| ==>
      Slice(t, offset, limit)[i].occurredAt == Slice(s, offset, limit)[i].occurredAt
  {
  }

  lemma TimeAt(ga: seq<Row>, gb: seq<Row>, a: seq<Row>, b: seq<Row>, n: nat, i: nat)
    requires Fetched(a, n, ga) && Fetched(b, n, gb) && i < n && i < |a| + |b|
    ensures var s, t := Sort(a + b, NotAfter), Sort(ga + gb, NotAfter);
      i < |t| && t[i].occurredAt == s[i].occurredAt
  {
    var s, t := Sort(a + b, NotAfter), Sort(ga + gb, NotAfter);
    OrdersAreOrderings();
    SortedBoth(a + b);
    SortedBoth(ga + gb);
    forall r ensures Count(t, UpTo(NotOlder, r)) > i <==> Count(s, UpTo(NotOlder, r)) > i {
      var ra :| FetchedBefore(a, n, ga, ra);
      var rb :| FetchedBefore(b, n, gb, rb);
      AgeCloses(ga, ra, r);
      AgeCloses(gb, rb, r);
      SameReach(a, b, n, ga, ra, gb, rb, UpTo(NotOlder, r), i);
    }
    SamePlace(s, t, NotOlder, i);
  }

  lemma AgeCloses(got: seq<Row>, rest: seq<Row>, r: Row)
    requires forall g, x :: g in got && x in rest ==> NotOlder(g, x)
    ensures Closed(got, rest, UpTo(NotOlder, r))
  {
    forall g, x | g in got && x in rest && NotOlder(x, r) ensures NotOlder(g, r) {
      assert NotOlder(g, x);
    }
  }

  lemma TieCutCloses(all: seq<Row>, limit: nat, got: seq<Row>, rest: seq<Row>, r: Row)
    requires FetchedBefore(all, limit, got, rest) && NoTieCut(all, got)
    ensures Closed(got, rest, UpTo(NotAfter, r))
  {
    forall g, x | g in got && x in rest && NotAfter(x, r) ensures NotAfter(g, r) {
      assert multiset(all)[x] == multiset(got)[x] + multiset(rest)[x];
      assert x in multiset(rest) && x in multiset(all);
    }
  }

  /** When no tie is cut, in particular when each source's times differ, the page is exactly the page
      cut from all rows. */
  lemma SameRows(ga: seq<Row>, gb: seq<Row>, a: seq<Row>, b: seq<Row>, offset: nat, limit: nat)
    requires Fetched(a, offset + limit, ga) && Fetched(b, offset + limit, gb)
    requires NoTieCut(a, ga) && NoTieCut(b, gb)
    ensures Slice(Sort(ga + gb, NotAfter), offset, limit) == FullPage(a, b, offset, limit)
  {
    SameBounds(a, b, ga, gb, offset, limit);
    forall i | 0 <= i < Min(offset + limit, |a + b|)
      ensures Sort(ga + gb, NotAfter)[i] == Sort(a + b, NotAfter)[i]
    {
      RowAt(ga, gb, a, b, offset + limit, i);
    }
    SliceOf(Sort(a + b, NotAfter), Sort(ga + gb, NotAfter), offset, limit);
  }

  lemma SliceOf(s: seq<Row>, t: seq<Row>, offset: nat, limit: nat)
    requires Min(offset, |s|) == Min(offset, |t|) && Min(offset + limit, |s|) == Min(offset + limit, |t|)
    requires forall i :: 0 <= i < Min(offset + limit, |s|) ==> t[i] == s[i]
    ensures Slice(t, offset, limit) == Slice(s, offset, limit)
  {
  }

  lemma RowAt(ga: seq<Row>, gb: seq<Row>, a: seq<Row>, b: seq<Row>, n: nat, i: nat)
    requires Fetched(a, n, ga) && Fetched(b, n, gb) && i < n && i < |a| + |b|
    requires NoTieCut(a, ga) && NoTieCut(b, gb)
    ensures i < |ga| + |gb| && Sort(ga + gb, NotAfter)[i] == Sort(a + b, NotAfter)[i]
  {
    var s, t := Sort(a + b, NotAfter), Sort(ga + gb, NotAfter);
    OrdersAreOrderings();
    SortedBoth(a + b);
    SortedBoth(ga + gb);
    forall r ensures Count(t, UpTo(NotAfter, r)) > i <==> Count(s, UpTo(NotAfter, r)) > i {
      var ra :| FetchedBefore(a, n, ga, ra);
      var rb :| FetchedBefore(b, n, gb, rb);
      TieCutCloses(a, n, ga, ra, r);
      TieCutCloses(b, n, gb, rb, r);
      SameReach(a, b, n, ga, ra, gb, rb, UpTo(NotAfter, r), i);
    }
    SamePlace(s, t, NotAfter, i);
    SameRow(t[i], s[i]);
  }

  lemma SameRow(x: Row, y: Row)
    requires NotAfter(x, y) && NotAfter(y, x)
    ensures x == y
  {
  }

  // ----- the exact condition -----

  lemma CountFetched(a: seq<Row>, b: seq<Row>, n: nat, ga: seq<Row>, ra: seq<Row>, gb: seq<Row>, rb: seq<Row>,
                     p: Row -> bool)
    requires FetchedBefore(a, n, ga, ra) && FetchedBefore(b, n, gb, rb)
    ensures Count(Sort(a + b, NotAfter), p) == Count(Sort(ga + gb, NotAfter), p) + Count(ra, p) + Count(rb, p)
  {
    CountPermutes(ga + ra, a, p);
    CountPermutes(gb + rb, b, p);
    CountConcat(ga, ra, p);
    CountConcat(gb, rb, p);
    CountConcat(a, b, p);
    CountConcat(ga, gb, p);
    SortPermutes(a + b, NotAfter);
    SortPermutes(ga + gb, NotAfter);
    CountPermutes(Sort(a + b, NotAfter), a + b, p);
    CountPermutes(Sort(ga + gb, NotAfter), ga + gb, p);
  }

  /** In a strictly sorted list exactly the first `i + 1` elements come up to the one at `i`. */
  lemma CountUpTo<T(!new)>(s: seq<T>, leq: (T, T) -> bool, i: nat)
    requires Ordering(leq) && InOrder(s, leq) && i < |s|
    requires i + 1 < |s| ==> !leq(s[i + 1], s[i])
    ensures Count(s, UpTo(leq, s[i])) == i + 1
  {
    assert leq(s[i], s[i]);
    CountReaches(s, leq, s[i], i);
    if i + 1 < |s| {
      CountReaches(s, leq, s[i], i + 1);
    }
  }

  lemma NextIsAfter(s: seq<Row>, i: nat)
    requires NoRepeats(s) && InOrder(s, NotAfter) && i + 1 < |s|
    ensures !NotAfter(s[i + 1], s[i])
  {
    assert NotAfter(s[i], s[i + 1]) && s[i] != s[i + 1];
  }

  lemma UpToPlace(s: seq<Row>, j: nat, i: nat)
    requires InOrder(s, NotAfter) && j <= i < |s|
    ensures UpTo(NotAfter, s[i])(s[j])
  {
    OrdersAreOrderings();
    assert NotAfter(s[j], s[i]);
  }

  lemma {:induction false} CountAtLeast(s: seq<Row>, p: Row -> bool)
    ensures |Where(s, p)| <= Count(s, p)
  {
    if s != [] {
      var first, rest := s[0], s[1..];
      CountAtLeast(rest, p);
      assert s == [first] + rest;
      assert Where(s, p) == Where(rest, p) + if p(first) then {first} else {};
    }
  }

  lemma LeftOut(all: seq<Row>, n: nat, got: seq<Row>, rest: seq<Row>, x: Row)
    requires FetchedBefore(all, n, got, rest) && x in all && x !in got
    ensures x in rest && |all| > n
  {
    assert |multiset(got + rest)| == |got| + |rest| && |multiset(all)| == |all|;
    assert x in multiset(all) && x in multiset(got + rest) && x in got + rest;
  }

  lemma NotInPlace(s: seq<Row>, t: seq<Row>, i: nat)
    requires NoRepeats(s) && InOrder(s, NotAfter) && InOrder(t, NotAfter) && i < |s| && i < |t|
    requires Count(t, UpTo(NotAfter, s[i])) < Count(s, UpTo(NotAfter, s[i]))
    ensures t[i] != s[i]
  {
    if i + 1 < |s| {
      NextIsAfter(s, i);
    }
    OrdersAreOrderings();
    CountUpTo(s, NotAfter, i);
    CountReaches(t, NotAfter, s[i], i);
  }

  /** A row that was left out moves every later one forward. */
  lemma LeftOutShifts(ga: seq<Row>, gb: seq<Row>, a: seq<Row>, b: seq<Row>, n: nat, j: nat, i: nat)
    requires Fetched(a, n, ga) && Fetched(b, n, gb) && NoRepeats(a + b) && j <= i < n
    requires j < |a + b| && Sort(a + b, NotAfter)[j] !in ga + gb
    ensures i < |a + b| && i < |ga + gb| && Sort(ga + gb, NotAfter)[i] != Sort(a + b, NotAfter)[i]
  {
    var s, t := Sort(a + b, NotAfter), Sort(ga + gb, NotAfter);
    var ra :| FetchedBefore(a, n, ga, ra);
    var rb :| FetchedBefore(b, n, gb, rb);
    var x := s[j];
    assert x in s;
    if x in a {
      LeftOut(a, n, ga, ra, x);
    } else {
      LeftOut(b, n, gb, rb, x);
    }
    SortedBoth(a + b);
    SortedBoth(ga + gb);
    SortNoRepeats(a + b, NotAfter);
    var p := UpTo(NotAfter, s[i]);
    CountFetched(a, b, n, ga, ra, gb, rb, p);
    UpToPlace(s, j, i);
    CountPositive(ra, p);
    CountPositive(rb, p);
    NotInPlace(s, t, i);
  }

  lemma CountFirst(s: seq<Row>, t: seq<Row>, i: nat)
    requires NoRepeats(s) && InOrder(s, NotAfter) && i < |s|
    requires forall k :: 0 <= k <= i ==> s[k] in t
    ensures Count(t, UpTo(NotAfter, s[i])) > i
  {
    var p, first := UpTo(NotAfter, s[i]), s[..i + 1];
    SizeOfList(first);
    forall x | x in Elements(first) ensures x in Where(t, p) {
      var k: nat :| k <= i && s[k] == x;
      UpToPlace(s, k, i);
    }
    Subset(Elements(first), Where(t, p));
    CountAtLeast(t, p);
  }

  lemma InPlace(s: seq<Row>, t: seq<Row>, i: nat)
    requires NoRepeats(s) && InOrder(s, NotAfter) && InOrder(t, NotAfter) && i < |s|
    requires forall k :: 0 <= k <= i ==> s[k] in t
    requires forall r :: Count(t, UpTo(NotAfter, r)) <= Count(s, UpTo(NotAfter, r))
    ensures i < |t| && t[i] == s[i]
  {
    OrdersAreOrderings();
    CountFirst(s, t, i);
    PlaceReached(s, t, NotAfter, i);
    PlaceReached(t, s, NotAfter, i);
    SameRow(t[i], s[i]);
  }

  lemma FirstInPlace(ga: seq<Row>, gb: seq<Row>, a: seq<Row>, b: seq<Row>, n: nat, i: nat)
    requires Fetched(a, n, ga) && Fetched(b, n, gb) && NoRepeats(a + b)
    requires FirstFetched(a, b, n, ga + gb) && i < Min(n, |a + b|)
    ensures i < |ga + gb| && Sort(ga + gb, NotAfter)[i] == Sort(a + b, NotAfter)[i]
  {
    var s, t := Sort(a + b, NotAfter), Sort(ga + gb, NotAfter);
    SortedBoth(a + b);
    SortedBoth(ga + gb);
    SortNoRepeats(a + b, NotAfter);
    forall k | 0 <= k <= i ensures s[k] in t {
      assert s[k] in ga + gb;
    }
    forall r ensures Count(t, UpTo(NotAfter, r)) <= Count(s, UpTo(NotAfter, r)) {
      var ra :| FetchedBefore(a, n, ga, ra);
      var rb :| FetchedBefore(b, n, gb, rb);
      CountFetched(a, b, n, ga, ra, gb, rb, UpTo(NotAfter, r));
    }
    InPlace(s, t, i);
  }

  lemma DifferentPage(s: seq<Row>, t: seq<Row>, offset: nat, limit: nat, i: nat)
    requires offset <= i < offset + limit && i < |s| && i < |t| && t[i] != s[i]
    ensures Slice(t, offset, limit) != Slice(s, offset, limit)
  {
    assert Slice(t, offset, limit)[i - offset] == t[i];
    assert Slice(s, offset, limit)[i - offset] == s[i];
  }

  lemma SamePage(ga: seq<Row>, gb: seq<Row>, a: seq<Row>, b: seq<Row>, offset: nat, limit: nat)
    requires Fetched(a, offset + limit, ga) && Fetched(b, offset + limit, gb) && NoRepeats(a + b)
    requires FirstFetched(a, b, offset + limit, ga + gb)
    ensures Slice(Sort(ga + gb, NotAfter), offset, limit) == FullPage(a, b, offset, limit)
  {
    var s, t := Sort(a + b, NotAfter), Sort(ga + gb, NotAfter);
    SameBounds(a, b, ga, gb, offset, limit);
    forall i | 0 <= i < Min(offset + limit, |s|) ensures t[i] == s[i] {
      FirstInPlace(ga, gb, a, b, offset + limit, i);
    }
    SliceOf(s, t, offset, limit);
  }

  lemma AnotherPage(ga: seq<Row>, gb: seq<Row>, a: seq<Row>, b: seq<Row>, offset: nat, limit: nat, j: nat)
    requires Fetched(a, offset + limit, ga) && Fetched(b, offset + limit, gb) && limit >= 1 && NoRepeats(a + b)
    requires j < Min(offset + limit, |a + b|) && Sort(a + b, NotAfter)[j] !in ga + gb
    ensures Slice(Sort(ga + gb, NotAfter), offset, limit) != FullPage(a, b, offset, limit)
  {
    var i := if j < offset then offset else j;
    LeftOutShifts(ga, gb, a, b, offset + limit, j, i);
    DifferentPage(Sort(a + b, NotAfter), Sort(ga + gb, NotAfter), offset, limit, i);
  }

  /** The page is the one cut from all rows exactly when every row up to its end was returned. */
  lemma PageExactIff(ga: seq<Row>, gb: seq<Row>, a: seq<Row>, b: seq<Row>, offset: nat, limit: nat)
    requires Fetched(a, offset + limit, ga) && Fetched(b, offset + limit, gb)
    requires limit >= 1 && NoRepeats(a + b)
    ensures Slice(Sort(ga + gb, NotAfter), offset, limit) == FullPage(a, b, offset, limit) <==>
      FirstFetched(a, b, offset + limit, ga + gb)
  {
    if FirstFetched(a, b, offset + limit, ga + gb) {
      SamePage(ga, gb, a, b, offset, limit);
    } else {
      var j: nat :| j < Min(offset + limit, |a + b|) && Sort(a + b, NotAfter)[j] !in ga + gb;
      AnotherPage(ga, gb, a, b, offset, limit, j);
    }
  }

  /** Distinct times within a source leave no tie to cut. */
  lemma DistinctTimesCutNoTie(all: seq<Row>, limit: nat, got: seq<Row>)
    requires Fetched(all, limit, got)
    requires forall i, j :: 0 <= i < j < |all| ==> all[i].occurredAt != all[j].occurredAt
    ensures NoTieCut(all, got)
  {
    var rest :| FetchedBefore(all, limit, got, rest);
    forall g, x | g in got && x in all && multiset(all)[x] > multiset(got)[x] ensures g.occurredAt > x.occurredAt {
      assert multiset(all) == multiset(got) + multiset(rest);
      assert x in multiset(rest) && x in rest;
      assert g in multiset(got);
      assert g in multiset(all);
      var i :| 0 <= i < |all| && all[i] == g;
      var j :| 0 <= j < |all| && all[j] == x;
      if i == j {
        TwiceIn(all, x);
      }
    }
  }

  lemma TwiceIn(s: seq<Row>, x: Row)
    requires multiset(s)[x] >= 2
    ensures exists i, j :: 0 <= i < j < |s| && s[i] == x && s[j] == x
  {
    var i :| 0 <= i < |s| && s[i] == x;
    assert s == s[..i] + [x] + s[i + 1..];
    if x in s[..i] {
      var j :| 0 <= j < i && s[..i][j] == x;
      assert s[j] == x && s[i] == x;
    } else {
      assert x in multiset(s[i + 1..]);
      var j :| 0 <= j < |s[i + 1..]| && s[i + 1..][j] == x;
      assert s[i] == x && s[i + 1 + j] == x;
    }
  }

  /** With a tie at the cut the page can show a row that a page cut from all rows would not. */
  lemma TieCutShowsAnother() returns (all: seq<Row>, got: seq<Row>)
    ensures Fetched(all, 1, got)
    ensures Slice(Sort(got + [], NotAfter), 0, 1) != FullPage(all, [], 0, 1)
  {
    var low, high := Row(Stamp, 1, 0), Row(Stamp, 2, 0);
    all, got := [low, high], [low];
    assert FetchedBefore(all, 1, got, [high]);
    assert got + [] == [low] && all + [] == all;
    assert all[1..] == [high] && [high][1..] == [];
    assert Sort([low], NotAfter) == [low];
    assert Sort([high], NotAfter) == [high];
    assert Sort(all, NotAfter) == Insert(low, [high], NotAfter) == [high] + Insert(low, [], NotAfter);
  }
}
