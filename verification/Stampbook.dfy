/** The member's stampbook: one entry for each catalogue stamp, a summary, and pages. */
module Stampbook {
  import opened Wrappers
  import opened Lists

  datatype Collected = Collected(passport: nat, stamp: nat)

  /** `stamps` gives each stamp's catalogue entry, if any; `courses` the published visible courses
      each stamp belongs to; `owners` the member of each passport. */
  datatype Tables = Tables(catalogue: set<nat>, stamps: map<nat, Option<nat>>, collected: map<nat, Collected>,
                           courses: map<nat, seq<nat>>, owners: map<nat, nat>)

  /** The schema's unique keys and foreign keys. */
  ghost predicate Integrity(t: Tables) {
    && (forall a, b :: a in t.stamps && b in t.stamps && t.stamps[a] == t.stamps[b] && t.stamps[a].Some? ==> a == b)
    && (forall a, b :: a in t.collected && b in t.collected && t.collected[a] == t.collected[b] ==> a == b)
    && (forall s :: s in t.stamps && t.stamps[s].Some? ==> t.stamps[s].value in t.catalogue)
    && (forall k :: k in t.collected ==> t.collected[k].stamp in t.stamps && t.collected[k].passport in t.owners)
    && (forall p, q :: p in t.owners && q in t.owners && t.owners[p] == t.owners[q] ==> p == q)
  }

  // ----- the catalogue query -----

  /** A row of the outer joins, told apart by the ids of its parts. */
  datatype Entry = Entry(catalogue: nat, stamp: Option<nat>, collected: Option<nat>)

  /** An outer join keeps a row with nothing when there is no match. */
  function Outer(matches: set<nat>): set<Option<nat>> {
    if matches == {} then {None} else set x | x in matches :: Some(x)
  }

  function StampsOf(t: Tables, c: nat): set<nat> {
    set s | s in t.stamps && t.stamps[s] == Some(c)
  }

  function CollectedOf(t: Tables, passport: nat, stamp: Option<nat>): set<nat> {
    if stamp.None? then {} else set k | k in t.collected && t.collected[k] == Collected(passport, stamp.value)
  }

  function Entries(t: Tables, passport: nat): set<Entry> {
    set c, s, k | c in t.catalogue && s in Outer(StampsOf(t, c)) && k in Outer(CollectedOf(t, passport, s)) ::
      Entry(c, s, k)
  }

  datatype Status = IsCollected | IsAvailable | IsLocked

  function StatusOf(t: Tables, e: Entry): Status {
    if e.collected.Some? then IsCollected
    else if e.stamp.Some? && CoursesOf(t, e.stamp) != [] then IsAvailable
    else IsLocked
  }

  function CoursesOf(t: Tables, stamp: Option<nat>): seq<nat> {
    if stamp.Some? && stamp.value in t.courses then t.courses[stamp.value] else []
  }

  /** The entries of a status, or all of them. */
  function Filtered(t: Tables, passport: nat, filter: Option<Status>): set<Entry> {
    set e | e in Entries(t, passport) && (filter.None? || StatusOf(t, e) == filter.value)
  }

  datatype Summary = Summary(total: nat, collected: nat, available: nat, locked: nat)

  function Summarise(t: Tables, passport: nat): Summary {
    Summary(|Entries(t, passport)|, |Filtered(t, passport, Some(IsCollected))|,
            |Filtered(t, passport, Some(IsAvailable))|, |Filtered(t, passport, Some(IsLocked))|)
  }

  function TotalItems(s: Summary, filter: Option<Status>): nat {
    match filter
    case None => s.total
    case Some(IsCollected) => s.collected
    case Some(IsAvailable) => s.available
    case Some(IsLocked) => s.locked
  }

  // ----- totals -----

  function CataloguesOf(s: set<Entry>): set<nat> {
    set e | e in s :: e.catalogue
  }

  lemma {:induction false} EntriesByCatalogue(s: set<Entry>)
    requires forall d, e :: d in s && e in s && d.catalogue == e.catalogue ==> d == e
    ensures |CataloguesOf(s)| == |s|
  {
    if s != {} {
      var e :| e in s;
      EntriesByCatalogue(s - {e});
      assert CataloguesOf(s) == CataloguesOf(s - {e}) + {e.catalogue};
    }
  }

  lemma OneEntryEach(t: Tables, passport: nat, d: Entry, e: Entry)
    requires Integrity(t) && d in Entries(t, passport) && e in Entries(t, passport) && d.catalogue == e.catalogue
    ensures d == e
  {
    if d.stamp.Some? && e.stamp.Some? {
      assert t.stamps[d.stamp.value] == t.stamps[e.stamp.value];
    }
    if d.collected.Some? && e.collected.Some? {
      assert t.collected[d.collected.value] == t.collected[e.collected.value];
    }
  }

  lemma OuterHas(matches: set<nat>) returns (x: Option<nat>)
    ensures x in Outer(matches)
  {
    if matches == {} {
      x := None;
    } else {
      var y :| y in matches;
      x := Some(y);
    }
  }

  lemma EntryFor(t: Tables, passport: nat, c: nat) returns (e: Entry)
    requires c in t.catalogue
    ensures e in Entries(t, passport) && e.catalogue == c
  {
    var s := OuterHas(StampsOf(t, c));
    var k := OuterHas(CollectedOf(t, passport, s));
    e := Entry(c, s, k);
  }

  /** Every catalogue entry is counted once, as collected, available or locked. */
  lemma SummaryAddsUp(t: Tables, passport: nat)
    requires Integrity(t)
    ensures var s := Summarise(t, passport);
      s.collected + s.available + s.locked == s.total == |t.catalogue|
  {
    var all := Entries(t, passport);
    var a, b, c := Filtered(t, passport, Some(IsCollected)), Filtered(t, passport, Some(IsAvailable)),
                   Filtered(t, passport, Some(IsLocked));
    assert all == a + b + c && a !! b && (a + b) !! c;
    CatalogueImage(t, passport);
  }

  /** An entry counts as collected when the passport has its stamp, else as available when a published
      visible course has the stamp, else as locked. */
  lemma SummaryMeans(t: Tables, passport: nat)
    ensures var s, all := Summarise(t, passport), Entries(t, passport);
      && s.collected == |set e | e in all && e.collected.Some?|
      && s.available == |set e | e in all && e.collected.None? && e.stamp.Some? && e.stamp.value in t.courses
                                 && t.courses[e.stamp.value] != []|
      && s.locked == |set e | e in all && e.collected.None?
                              && (e.stamp.None? || e.stamp.value !in t.courses || t.courses[e.stamp.value] == [])|
  {
    var all := Entries(t, passport);
    assert Filtered(t, passport, Some(IsCollected)) == set e | e in all && e.collected.Some?;
    assert Filtered(t, passport, Some(IsAvailable)) ==
           set e | e in all && e.collected.None? && e.stamp.Some? && e.stamp.value in t.courses
                   && t.courses[e.stamp.value] != [];
    assert Filtered(t, passport, Some(IsLocked)) ==
           set e | e in all && e.collected.None?
                   && (e.stamp.None? || e.stamp.value !in t.courses || t.courses[e.stamp.value] == []);
  }

  lemma CatalogueImage(t: Tables, passport: nat)
    requires Integrity(t)
    ensures |Entries(t, passport)| == |t.catalogue|
  {
    var all := Entries(t, passport);
    forall d, e | d in all && e in all && d.catalogue == e.catalogue ensures d == e {
      OneEntryEach(t, passport, d, e);
    }
    EntriesByCatalogue(all);
    forall c | c in t.catalogue ensures c in CataloguesOf(all) {
      var e := EntryFor(t, passport, c);
    }
    assert CataloguesOf(all) == t.catalogue;
  }

  /** What the tee campaign counts: distinct catalogue entries among a member's collected stamps. */
  function StampCount(t: Tables, user: nat): nat {
    |CountedCatalogue(t, user)|
  }

  function CountedCatalogue(t: Tables, user: nat): set<nat> {
    set k | k in t.collected && t.collected[k].passport in t.owners && t.owners[t.collected[k].passport] == user
            && t.collected[k].stamp in t.stamps && t.stamps[t.collected[k].stamp].Some? ::
      t.stamps[t.collected[k].stamp].value
  }

  /** The campaign's counter is the stampbook's collected total. */
  lemma CampaignAgrees(t: Tables, passport: nat)
    requires Integrity(t) && passport in t.owners
    ensures StampCount(t, t.owners[passport]) == Summarise(t, passport).collected
  {
    var mine := Filtered(t, passport, Some(IsCollected));
    forall d, e | d in mine && e in mine && d.catalogue == e.catalogue ensures d == e {
      OneEntryEach(t, passport, d, e);
    }
    EntriesByCatalogue(mine);
    SameCatalogues(t, passport);
  }

  lemma SameCatalogues(t: Tables, passport: nat)
    requires Integrity(t) && passport in t.owners
    ensures CountedCatalogue(t, t.owners[passport]) == CataloguesOf(Filtered(t, passport, Some(IsCollected)))
  {
    forall c | c in CountedCatalogue(t, t.owners[passport])
      ensures c in CataloguesOf(Filtered(t, passport, Some(IsCollected)))
    {
      CountedIsCollected(t, passport, c);
    }
    forall e | e in Filtered(t, passport, Some(IsCollected))
      ensures e.catalogue in CountedCatalogue(t, t.owners[passport])
    {
      CollectedIsCounted(t, passport, e);
    }
  }

  lemma CountedIsCollected(t: Tables, passport: nat, c: nat)
    requires Integrity(t) && passport in t.owners && c in CountedCatalogue(t, t.owners[passport])
    ensures exists e :: e in Filtered(t, passport, Some(IsCollected)) && e.catalogue == c
  {
    var k :| k in t.collected && t.owners[t.collected[k].passport] == t.owners[passport]
             && t.stamps[t.collected[k].stamp] == Some(c);
    var s := t.collected[k].stamp;
    assert t.collected[k].passport == passport;
    assert s in StampsOf(t, c) && Some(s) in Outer(StampsOf(t, c));
    assert k in CollectedOf(t, passport, Some(s)) && Some(k) in Outer(CollectedOf(t, passport, Some(s)));
    assert Entry(c, Some(s), Some(k)) in Entries(t, passport);
  }

  lemma CollectedIsCounted(t: Tables, passport: nat, e: Entry)
    requires Integrity(t) && passport in t.owners && e in Filtered(t, passport, Some(IsCollected))
    ensures e.catalogue in CountedCatalogue(t, t.owners[passport])
  {
    var k := e.collected.value;
    assert k in CollectedOf(t, passport, e.stamp);
    assert t.stamps[t.collected[k].stamp] == Some(e.catalogue);
  }

  // ----- pages -----

  /** The filtered entries in the order the database returns them. */
  ghost predicate InCatalogueOrder(t: Tables, passport: nat, filter: Option<Status>, ordered: seq<Entry>) {
    && Elements(ordered) == Filtered(t, passport, filter) && NoRepeats(ordered)
    && forall i, j :: 0 <= i < j < |ordered| ==> ordered[i].catalogue <= ordered[j].catalogue
  }

  function PageOf(ordered: seq<Entry>, page: nat, size: nat): seq<Entry>
    requires page >= 1
  {
    var offset := (page - 1) * size;
    ordered[Min(offset, |ordered|)..Min(offset + size, |ordered|)]
  }

  function TotalPages(totalItems: nat, size: nat): nat
    requires size >= 1
  {
    (totalItems + size - 1) / size
  }

  /** The first `n` pages one after the other. */
  function Pages(ordered: seq<Entry>, size: nat, n: nat): seq<Entry> {
    if n == 0 then [] else Pages(ordered, size, n - 1) + PageOf(ordered, n, size)
  }

  lemma {:induction false} PagesArePrefix(ordered: seq<Entry>, size: nat, n: nat)
    ensures Pages(ordered, size, n) == ordered[..Min(n * size, |ordered|)]
  {
    if n > 0 {
      PagesArePrefix(ordered, size, n - 1);
      assert n * size == (n - 1) * size + size;
    }
  }

  lemma PagesReachTheEnd(total: nat, size: nat)
    requires size >= 1
    ensures TotalPages(total, size) * size >= total
  {
    var q := TotalPages(total, size);
    assert total + size - 1 == q * size + (total + size - 1) % size;
  }

  /** Pages 1 to the last one show every filtered entry exactly once, in catalogue order, and the
      number of items is the summary's. */
  lemma PagesShowEachEntryOnce(t: Tables, passport: nat, filter: Option<Status>, ordered: seq<Entry>, size: nat)
    requires size >= 1 && InCatalogueOrder(t, passport, filter, ordered)
    ensures var total := TotalItems(Summarise(t, passport), filter);
      var shown := Pages(ordered, size, TotalPages(total, size));
      && |shown| == total && shown == ordered && NoRepeats(shown)
      && forall e :: e in shown <==> e in Filtered(t, passport, filter)
  {
    SizeOfList(ordered);
    assert filter.None? ==> Filtered(t, passport, filter) == Entries(t, passport);
    PagesArePrefix(ordered, size, TotalPages(|ordered|, size));
    PagesReachTheEnd(|ordered|, size);
    forall e ensures e in ordered <==> e in Filtered(t, passport, filter) {
      assert e in Elements(ordered) <==> e in ordered;
    }
  }

  // ----- the items of a page -----

  /** A row of the page joined with the published courses of its stamp. */
  datatype Row = Row(entry: Entry, course: Option<nat>)

  datatype Item = Item(entry: Entry, courses: seq<nat>)

  function CourseRows(e: Entry, courses: seq<nat>): (rows: seq<Row>)
    ensures courses != [] ==> |rows| == |courses| && forall i :: 0 <= i < |rows| ==> rows[i] == Row(e, Some(courses[i]))
  {
    if courses == [] then [Row(e, None)]
    else seq(|courses|, i requires 0 <= i < |courses| => Row(e, Some(courses[i])))
  }

  function RowsFor(t: Tables, page: seq<Entry>): seq<Row> {
    if page == [] then []
    else RowsFor(t, page[..|page| - 1]) + CourseRows(page[|page| - 1], CoursesOf(t, page[|page| - 1].stamp))
  }

  /** Items by catalogue id, and the ids in the order they were first seen. */
  datatype Book = Book(keys: seq<nat>, items: map<nat, Item>)

  function Shelved(b: Book, r: Row): Book {
    var c := r.entry.catalogue;
    var known := if c in b.items then b else Book(b.keys + [c], b.items[c := Item(r.entry, [])]);
    if r.course.None? then known
    else known.(items := known.items[c := known.items[c].(courses := known.items[c].courses + [r.course.value])])
  }

  function AllShelved(b: Book, rows: seq<Row>): Book {
    if rows == [] then b else Shelved(AllShelved(b, rows[..|rows| - 1]), rows[|rows| - 1])
  }

  lemma {:induction false} ShelvedInTurn(b: Book, x: seq<Row>, y: seq<Row>)
    ensures AllShelved(b, x + y) == AllShelved(AllShelved(b, x), y)
  {
    if y == [] {
      assert x + y == x;
    } else {
      var n := |y| - 1;
      ShelvedInTurn(b, x, y[..n]);
      assert (x + y)[..|x + y| - 1] == x + y[..n];
    }
  }

  lemma {:induction false} ShelvedCourses(b: Book, e: Entry, courses: seq<nat>, rows: seq<Row>)
    requires e.catalogue !in b.items && courses != [] && |rows| == |courses|
    requires forall i :: 0 <= i < |rows| ==> rows[i] == Row(e, Some(courses[i]))
    ensures AllShelved(b, rows) == Book(b.keys + [e.catalogue], b.items[e.catalogue := Item(e, courses)])
  {
    var n := |rows| - 1;
    assert courses == courses[..n] + [courses[n]];
    if n > 0 {
      ShelvedCourses(b, e, courses[..n], rows[..n]);
    } else {
      assert AllShelved(b, rows[..0]) == b;
    }
  }

  lemma ShelvedEntry(b: Book, e: Entry, courses: seq<nat>)
    requires e.catalogue !in b.items
    ensures AllShelved(b, CourseRows(e, courses)) ==
      Book(b.keys + [e.catalogue], b.items[e.catalogue := Item(e, courses)])
  {
    if courses == [] {
      assert CourseRows(e, courses)[..0] == [];
    } else {
      ShelvedCourses(b, e, courses, CourseRows(e, courses));
    }
  }

  ghost predicate DistinctCatalogues(page: seq<Entry>) {
    forall i, j :: 0 <= i < j < |page| ==> page[i].catalogue != page[j].catalogue
  }

  lemma PageIsDistinct(t: Tables, passport: nat, filter: Option<Status>, ordered: seq<Entry>, page: nat, size: nat)
    requires Integrity(t) && InCatalogueOrder(t, passport, filter, ordered) && page >= 1
    ensures DistinctCatalogues(PageOf(ordered, page, size))
  {
    forall i, j | 0 <= i < j < |ordered| ensures ordered[i].catalogue != ordered[j].catalogue {
      assert ordered[i] in Elements(ordered) && ordered[j] in Elements(ordered);
      if ordered[i].catalogue == ordered[j].catalogue {
        OneEntryEach(t, passport, ordered[i], ordered[j]);
      }
    }
  }

  /** The book holds the page's entries in order, each with its courses. */
  ghost predicate Holds(b: Book, t: Tables, page: seq<Entry>) {
    && |b.keys| == |page|
    && (forall i :: 0 <= i < |page| ==> b.keys[i] == page[i].catalogue && b.keys[i] in b.items
                                        && b.items[b.keys[i]] == Item(page[i], CoursesOf(t, page[i].stamp)))
    && (forall c :: c in b.items ==> c in b.keys)
  }

  lemma HoldsMore(b: Book, t: Tables, rest: seq<Entry>, e: Entry)
    requires Holds(b, t, rest) && forall i :: 0 <= i < |rest| ==> rest[i].catalogue != e.catalogue
    ensures e.catalogue !in b.items
    ensures Holds(Book(b.keys + [e.catalogue], b.items[e.catalogue := Item(e, CoursesOf(t, e.stamp))]), t, rest + [e])
  {
    assert e.catalogue !in b.keys;
  }

  lemma ShelvedMore(t: Tables, rest: seq<Entry>, e: Entry)
    requires forall i :: 0 <= i < |rest| ==> rest[i].catalogue != e.catalogue
    requires Holds(AllShelved(Book([], map[]), RowsFor(t, rest)), t, rest)
    ensures Holds(AllShelved(Book([], map[]), RowsFor(t, rest) + CourseRows(e, CoursesOf(t, e.stamp))), t, rest + [e])
  {
    var b := AllShelved(Book([], map[]), RowsFor(t, rest));
    HoldsMore(b, t, rest, e);
    ShelvedEntry(b, e, CoursesOf(t, e.stamp));
    ShelvedInTurn(Book([], map[]), RowsFor(t, rest), CourseRows(e, CoursesOf(t, e.stamp)));
  }

  lemma {:induction false} ShelvedPage(t: Tables, page: seq<Entry>)
    requires DistinctCatalogues(page)
    ensures Holds(AllShelved(Book([], map[]), RowsFor(t, page)), t, page)
  {
    if page != [] {
      var n := |page| - 1;
      ShelvedPage(t, page[..n]);
      ShelvedMore(t, page[..n], page[n]);
      assert page == page[..n] + [page[n]];
    }
  }

  /** Group the joined rows back into the page's entries, each with its courses in order. */
  method Get(t: Tables, page: seq<Entry>, rows: seq<Row>) returns (items: seq<Item>)
    requires rows == RowsFor(t, page) && DistinctCatalogues(page)
    ensures |items| == |page|
    ensures forall i :: 0 <= i < |page| ==> items[i] == Item(page[i], CoursesOf(t, page[i].stamp))
  {
    var keys: seq<nat> := [];
    var found: map<nat, Item> := map[];
    for i := 0 to |rows|
      invariant Book(keys, found) == AllShelved(Book([], map[]), rows[..i])
    {
      assert rows[..i + 1][..i] == rows[..i];
      var row := rows[i];
      var c := row.entry.catalogue;
      if c !in found {
        keys := keys + [c];
        found := found[c := Item(row.entry, [])];
      }
      if row.course.Some? {
        found := found[c := found[c].(courses := found[c].courses + [row.course.value])];
      }
    }
    assert rows[..|rows|] == rows;
    ShelvedPage(t, page);
    items := seq(|keys|, i requires 0 <= i < |keys| => found[keys[i]]);
  }
}
