/** A second run over unchanged upstream data changes nothing in the table. */
module SyncStability {
  import opened Wrappers
  import opened ActivityTable
  import opened ActivitySync
  import opened TourApi
  import opened Deduplication
  import opened SyncRun
  import opened QuietDays

  /** The table already is what a full sync of the source with these items would make of it. */
  ghost predicate Settled(t: Table, source: string, items: seq<Item>) {
    && (forall id :: id in t.rows && t.rows[id].source == Some(source) ==> SettledRow(t.rows[id], source, items))
    && (forall x :: x in Ids(items) ==> Stored(t, source, x))
  }

  ghost predicate SettledRow(r: Row, source: string, items: seq<Item>) {
    if r.externalId.Some? && r.externalId.value in Ids(items)
    then r.isActive && Folded(Some(r), source, items, r.externalId.value) == Some(r)
    else !r.isActive
  }

  /** Of several rows without an external id a full sync sees one; with at most one none escapes it. */
  ghost predicate AtMostOneUnnamed(t: Table, source: string) {
    forall a, b :: a in t.rows && b in t.rows && UnnamedOf(t.rows[a], source) && UnnamedOf(t.rows[b], source) ==> a == b
  }

  predicate UnnamedOf(r: Row, source: string) {
    r.source == Some(source) && r.externalId.None?
  }

  // ----- writing the same item again -----

  /** What an item of a file source writes does not depend on the row but for what the item leaves open. */
  lemma WrittenAgain(source: string, previous: Option<Row>, item: Item)
    requires source != TOURAPI
    ensures Written(source, Some(Written(source, previous, item)), item) == Written(source, previous, item)
  {
  }

  lemma WrittenSame(source: string, r: Row, item: Item)
    requires source != TOURAPI
    ensures Written(source, Some(r.(isActive := false)), item) == Written(source, Some(r), item)
  {
  }

  /** With distinct ids one item decides the row. */
  lemma {:induction false} FoldedOnce(previous: Option<Row>, source: string, items: seq<Item>, k: nat)
    requires k < |items| && Distinct(items)
    ensures Folded(previous, source, items, items[k].externalId) == Some(Written(source, previous, items[k]))
  {
    LastItemWins(previous, source, items, k);
    assert items[k].externalId !in Ids(items[..k]);
    FoldedKeyed(previous, source, items[..k], items[k].externalId);
  }

  lemma ItemOf(items: seq<Item>, x: string) returns (k: nat)
    requires x in Ids(items)
    ensures k < |items| && items[k].externalId == x
  {
    var item :| item in items && item.externalId == x;
    k :| 0 <= k < |items| && items[k] == item;
  }

  lemma FoldedAgain(previous: Option<Row>, source: string, items: seq<Item>, x: string)
    requires source != TOURAPI && Distinct(items) && x in Ids(items)
    ensures var r := Folded(previous, source, items, x); r.Some? && Folded(r, source, items, x) == r
  {
    var k := ItemOf(items, x);
    FoldedOnce(previous, source, items, k);
    WrittenAgain(source, previous, items[k]);
    FoldedOnce(Some(Written(source, previous, items[k])), source, items, k);
  }

  lemma FoldedSame(r: Row, source: string, items: seq<Item>, x: string)
    requires source != TOURAPI && Distinct(items) && x in Ids(items)
    ensures Folded(Some(r.(isActive := false)), source, items, x) == Folded(Some(r), source, items, x)
  {
    var k := ItemOf(items, x);
    FoldedOnce(Some(r), source, items, k);
    FoldedOnce(Some(r.(isActive := false)), source, items, k);
    WrittenSame(source, r, items[k]);
  }

  // ----- the first run settles the table -----

  lemma FullSyncSettles(t: Table, source: string, items: seq<Item>, t': Table)
    requires Unique(t) && source != TOURAPI && Distinct(items)
    requires AtMostOneUnnamed(t, source) && SyncedTo(t, source, items, t')
    ensures Settled(t', source, items)
  {
    var order :| RowsOf(t, source, order) && t' == Synced(t, source, items, order, true);
    forall id | id in t'.rows && t'.rows[id].source == Some(source) ensures SettledRow(t'.rows[id], source, items) {
      FullSyncActive(t, source, items, order, id);
      if t'.rows[id].externalId.None? {
        UnnamedRetired(t, source, items, order, id);
      } else if t'.rows[id].isActive {
        ActiveRow(t, source, items, order, id);
      }
    }
    forall x | x in Ids(items) ensures Stored(t', source, x) {
      StoredAfter(t, source, items, x);
      var id :| id in AllUpserted(t, source, items).rows && Keyed(AllUpserted(t, source, items).rows[id], source, x);
      assert Keyed(t'.rows[id], source, x);
    }
  }

  lemma {:induction false} TheUnnamed(t: Table, source: string, order: seq<nat>, id: nat)
    requires forall k :: k in order ==> k in t.rows && t.rows[k].source == Some(source)
    requires AtMostOneUnnamed(t, source) && id in t.rows && id in order && UnnamedOf(t.rows[id], source)
    ensures LastUnnamed(t, order) == Some(id)
  {
    var n := |order| - 1;
    assert order == order[..n] + [order[n]];
    assert order[n] in order;
    if t.rows[order[n]].externalId.Some? {
      TheUnnamed(t, source, order[..n], id);
    }
  }

  lemma UnnamedRetired(t: Table, source: string, items: seq<Item>, order: seq<nat>, id: nat)
    requires Unique(t) && AtMostOneUnnamed(t, source) && RowsOf(t, source, order)
    requires var t' := Synced(t, source, items, order, true); id in t'.rows && UnnamedOf(t'.rows[id], source)
    ensures !Synced(t, source, items, order, true).rows[id].isActive
  {
    FullSyncActive(t, source, items, order, id);
    RowAfter(t, source, items, id);
    if t.rows[id].source == Some(source) && t.rows[id].externalId.Some? {
      FoldedKeyed(Some(t.rows[id]), source, items, t.rows[id].externalId.value);
    }
    TheUnnamed(t, source, order, id);
  }

  lemma ActiveRow(t: Table, source: string, items: seq<Item>, order: seq<nat>, id: nat)
    requires Unique(t) && source != TOURAPI && Distinct(items) && RowsOf(t, source, order)
    requires var t' := Synced(t, source, items, order, true);
      id in t'.rows && t'.rows[id].source == Some(source) && t'.rows[id].externalId.Some?
      && t'.rows[id].externalId.value in Ids(items)
    ensures var r := Synced(t, source, items, order, true).rows[id];
      Folded(Some(r), source, items, r.externalId.value) == Some(r)
  {
    var m := AllUpserted(t, source, items);
    var x := m.rows[id].externalId.value;
    if id in t.rows {
      RowAfter(t, source, items, id);
      if t.rows[id].source == Some(source) && t.rows[id].externalId.Some? {
        FoldedKeyed(Some(t.rows[id]), source, items, t.rows[id].externalId.value);
        FoldedAgain(Some(t.rows[id]), source, items, x);
      }
    } else {
      NewRow(t, source, items, id);
      FoldedAgain(None, source, items, x);
    }
  }

  /** Syncing one source does not unsettle another. */
  lemma StaysSettled(t: Table, source: string, items: seq<Item>, other: string, otherItems: seq<Item>, t': Table)
    requires Unique(t) && source != other && Settled(t, other, otherItems) && SyncedTo(t, source, items, t')
    ensures Settled(t', other, otherItems)
  {
    var order :| RowsOf(t, source, order) && t' == Synced(t, source, items, order, true);
    forall id | id in t'.rows && t'.rows[id].source == Some(other) ensures SettledRow(t'.rows[id], other, otherItems) {
      if id in t.rows {
        RowAfter(t, source, items, id);
        if t.rows[id].source == Some(source) && t.rows[id].externalId.Some? {
          FoldedKeyed(Some(t.rows[id]), source, items, t.rows[id].externalId.value);
        }
      } else {
        NewRow(t, source, items, id);
      }
    }
    forall x | x in Ids(otherItems) ensures Stored(t', other, x) {
      var id :| id in t.rows && Keyed(t.rows[id], other, x);
      SyncTouchesOnly(t, source, items, order, true, id);
    }
  }

  // ----- the second run leaves the table between its state before and after deduplication -----

  /** Each row is as in `a`, or as in `b`, which is `a` with some rows out of use. */
  ghost predicate Between(a: Table, b: Table, t: Table) {
    && t.rows.Keys == a.rows.Keys
    && (forall id :: id in t.rows ==> t.rows[id] == a.rows[id] || (id in b.rows && t.rows[id] == b.rows[id]))
  }

  lemma NoNewRow(t: Table, source: string, items: seq<Item>, id: nat)
    requires Unique(t) && forall x :: x in Ids(items) ==> Stored(t, source, x)
    requires id in AllUpserted(t, source, items).rows
    ensures id in t.rows
  {
    if id !in t.rows {
      NewRow(t, source, items, id);
    }
  }

  lemma SyncStaysBetween(a: Table, ids: set<nat>, source: string, items: seq<Item>, t: Table, t': Table)
    requires Unique(a) && Unique(t) && source != TOURAPI && Distinct(items) && Settled(a, source, items)
    requires Between(a, Deactivated(a, ids), t) && SyncedTo(t, source, items, t')
    ensures Between(a, Deactivated(a, ids), t')
  {
    var order :| RowsOf(t, source, order) && t' == Synced(t, source, items, order, true);
    forall x | x in Ids(items) ensures Stored(t, source, x) {
      var k :| k in a.rows && Keyed(a.rows[k], source, x);
      assert Keyed(t.rows[k], source, x);
    }
    forall id | id in t'.rows ensures id in a.rows {
      NoNewRow(t, source, items, id);
    }
    forall id | id in a.rows
      ensures id in t'.rows && (t'.rows[id] == a.rows[id] || t'.rows[id] == Deactivated(a, ids).rows[id])
    {
      SyncKeepsRowBetween(a, ids, source, items, order, t, id);
    }
  }

  lemma SyncKeepsRowBetween(a: Table, ids: set<nat>, source: string, items: seq<Item>, order: seq<nat>, t: Table,
                            id: nat)
    requires Unique(t) && source != TOURAPI && Distinct(items) && Settled(a, source, items) && RowsOf(t, source, order)
    requires id in a.rows && id in t.rows && (t.rows[id] == a.rows[id] || t.rows[id] == Deactivated(a, ids).rows[id])
    ensures var t' := Synced(t, source, items, order, true);
      id in t'.rows && (t'.rows[id] == a.rows[id] || t'.rows[id] == Deactivated(a, ids).rows[id])
  {
    var r := a.rows[id];
    RowAfter(t, source, items, id);
    if r.source == Some(source) {
      assert SettledRow(r, source, items);
      if r.externalId.Some? {
        var x := r.externalId.value;
        FoldedKeyed(Some(t.rows[id]), source, items, x);
        if x in Ids(items) {
          FoldedSame(r, source, items, x);
        }
      }
    }
  }

  // ----- all the sources of a run -----

  /** The sources have distinct names, none the tourism service's, and one unnamed row at most each. */
  ghost predicate Separate(t: Table, feedings: seq<Feeding>) {
    && (forall i, j :: 0 <= i < j < |feedings| ==> feedings[i].feed.name != feedings[j].feed.name)
    && (forall i :: 0 <= i < |feedings| ==>
          feedings[i].feed.name != TOURAPI && AtMostOneUnnamed(t, feedings[i].feed.name))
  }

  ghost predicate SettledBy(t: Table, f: Feeding) {
    f.done ==> f.feed.items.Some? && Distinct(f.feed.items.value) && Settled(t, f.feed.name, f.feed.items.value)
  }

  /** A sync of any source adds no row without an external id, and takes no id away. */
  lemma SyncedUnnamed(t: Table, name: string, items: seq<Item>, order: seq<nat>, full: bool, id: nat, source: string)
    requires Unique(t) && RowsOf(t, name, order)
    requires var t' := Synced(t, name, items, order, full); id in t'.rows && UnnamedOf(t'.rows[id], source)
    ensures id in t.rows && UnnamedOf(t.rows[id], source)
  {
    if id in t.rows {
      RowAfter(t, name, items, id);
      if t.rows[id].source == Some(name) && t.rows[id].externalId.Some? {
        FoldedKeyed(Some(t.rows[id]), name, items, t.rows[id].externalId.value);
      }
    } else {
      NewRow(t, name, items, id);
    }
  }

  lemma SyncUnnamed(t: Table, f: Feeding, t': Table, source: string)
    requires Unique(t) && FeedTo(t, f, t') && AtMostOneUnnamed(t, source)
    ensures AtMostOneUnnamed(t', source)
  {
    if f.done {
      var name, items := f.feed.name, f.feed.items.value;
      var order :| RowsOf(t, name, order) && t' == Synced(t, name, items, order, true);
      forall id | id in t'.rows && UnnamedOf(t'.rows[id], source)
        ensures id in t.rows && UnnamedOf(t.rows[id], source)
      {
        SyncedUnnamed(t, name, items, order, true, id, source);
      }
    }
  }

  lemma DayUnnamed(t: Table, a: Answers, full: bool, festivals: bool, t': Table, source: string)
    requires Unique(t) && DayTo(t, a, full, festivals, t')
    ensures Unique(t') && (AtMostOneUnnamed(t, source) ==> AtMostOneUnnamed(t', source))
  {
    var order :| RowsOf(t, TOURAPI, order) && t' == DayApplied(t, a, order, full, festivals);
    var items := DayItems(a, full, festivals);
    var m := Synced(t, TOURAPI, items, order, full);
    AllUpsertedUnique(t, TOURAPI, items);
    RetiredUnique(AllUpserted(t, TOURAPI, items), TOURAPI, Ids(items), LastUnnamed(t, order));
    HiddenUnique(m, TOURAPI, HiddenIds(Considered(a, full), full));
    forall id | id in t'.rows && UnnamedOf(t'.rows[id], source)
      ensures id in t.rows && UnnamedOf(t.rows[id], source)
    {
      SyncedUnnamed(t, TOURAPI, items, order, full, id, source);
    }
  }

  /** The days of a run keep the key on external ids, and rows without one as few as they were. */
  lemma {:induction false} DaysKeep(u: Upstream, base: Log, t0: Table, applied: Log, t: Table, source: string)
    requires Unique(t0) && Grows(EntryStep(u), base, t0, applied, t)
    ensures Unique(t) && (AtMostOneUnnamed(t0, source) ==> AtMostOneUnnamed(t, source))
    decreases applied
  {
    if applied != base || t != t0 {
      var e := applied.entry;
      var m := LastEntry(EntryStep(u), base, t0, applied, t);
      DaysKeep(u, base, t0, applied.before, m, source);
      DayUnnamed(m, u.day(e.day).answers.value, e.full, WithFestivals(u, e), t, source);
    }
  }

  lemma {:induction false} FeedsKeep(t: Table, feedings: seq<Feeding>, t': Table, source: string)
    requires Unique(t) && FeedsTo(t, feedings, t')
    ensures Unique(t') && (AtMostOneUnnamed(t, source) ==> AtMostOneUnnamed(t', source))
    decreases |feedings|
  {
    if feedings != [] {
      var m := Before(t, feedings, t');
      FeedsKeep(t, feedings[..|feedings| - 1], m, source);
      SyncUnique(m, feedings[|feedings| - 1], t');
      if AtMostOneUnnamed(m, source) {
        SyncUnnamed(m, feedings[|feedings| - 1], t', source);
      }
    }
  }

  lemma {:induction false} FeedsSettle(t: Table, feedings: seq<Feeding>, t': Table, i: nat)
    requires Unique(t) && Separate(t, feedings) && FeedsTo(t, feedings, t') && i < |feedings|
    ensures SettledBy(t', feedings[i])
    decreases |feedings|
  {
    var n := |feedings| - 1;
    var m := Before(t, feedings, t');
    var f := feedings[i];
    FeedsKeep(t, feedings[..n], m, f.feed.name);
    if i == n {
      if f.done {
        FullSyncSettles(m, f.feed.name, f.feed.items.value, t');
      }
    } else {
      assert feedings[..n][i] == f;
      FeedsSettle(t, feedings[..n], m, i);
      if f.done && feedings[n].done {
        StaysSettled(m, feedings[n].feed.name, feedings[n].feed.items.value, f.feed.name, f.feed.items.value, t');
      }
    }
  }

  lemma {:induction false} FeedsStayBetween(a: Table, ids: set<nat>, feedings: seq<Feeding>, t: Table, t': Table)
    requires Unique(a) && Unique(t) && FeedsTo(t, feedings, t')
    requires forall f :: f in feedings ==> f.feed.name != TOURAPI && SettledBy(a, f)
    requires Between(a, Deactivated(a, ids), t)
    ensures Unique(t') && Between(a, Deactivated(a, ids), t')
    decreases |feedings|
  {
    if feedings != [] {
      var n := |feedings| - 1;
      var m := Before(t, feedings, t');
      FeedsStayBetween(a, ids, feedings[..n], t, m);
      SyncUnique(m, feedings[n], t');
      assert feedings[n] in feedings;
      if feedings[n].done {
        SyncStaysBetween(a, ids, feedings[n].feed.name, feedings[n].feed.items.value, m, t');
      }
    }
  }

  // ----- deduplicating again -----

  lemma DeduplicatedAgain(a: Table, text: Text, protected: set<nat>, t: Table)
    requires Between(a, Deduplicated(a, text, protected), t)
    ensures Deduplicated(t, text, protected).rows == Deduplicated(a, text, protected).rows
  {
    var b := Deduplicated(a, text, protected);
    var rows, part := Candidates(a), Candidates(t);
    forall id | id in part ensures id in rows && part[id] == rows[id] {}
    forall id | id in rows && !GivesWay(text, rows, protected, id) ensures id in part {
      assert id !in Duplicates(a, text, protected);
    }
    forall id | id in a.rows ensures Deduplicated(t, text, protected).rows[id] == b.rows[id] {
      if id in rows {
        SameSurvivors(text, rows, part, protected, id);
      }
    }
  }

  /** The upstream data of the second run are those of the first: a source used again gave the same
      snapshot and was used the first time. */
  ghost predicate Unchanged(first: seq<Feeding>, second: seq<Feeding>) {
    && |second| == |first|
    && (forall i :: 0 <= i < |second| ==> second[i].feed.name == first[i].feed.name)
    && (forall i :: 0 <= i < |second| && second[i].done ==>
          first[i].done && second[i].feed.items == first[i].feed.items)
  }

  /** Once the sources have been synchronised and duplicates removed, doing both again over unchanged
      data changes no row, whichever of the sources fail the second time. */
  lemma SecondRunChangesNothing(t: Table, first: seq<Feeding>, a: Table, second: seq<Feeding>, c: Table,
                                text: Text, protected: set<nat>)
    requires Unique(t) && Separate(t, first) && Unchanged(first, second)
    requires FeedsTo(t, first, a) && FeedsTo(Deduplicated(a, text, protected), second, c)
    ensures Deduplicated(c, text, protected).rows == Deduplicated(a, text, protected).rows
  {
    var b := Deduplicated(a, text, protected);
    FeedsKeep(t, first, a, TOURAPI);
    DeactivatedUnique(a, Duplicates(a, text, protected));
    forall f | f in second ensures f.feed.name != TOURAPI && SettledBy(a, f) {
      var i :| 0 <= i < |second| && second[i] == f;
      FeedsSettle(t, first, a, i);
    }
    FeedsStayBetween(a, Duplicates(a, text, protected), second, b, c);
    DeduplicatedAgain(a, text, protected, c);
  }

  // ----- two runs -----

  /** The watermark after a run in which no day fails. */
  function CaughtUp(u: Upstream, watermark: Option<int>): int {
    if watermark.Some? && watermark.value >= u.target then watermark.value else u.target
  }

  lemma WatermarkAfter(u: Upstream, watermark: Option<int>, reached: Option<int>)
    requires CatchesUp(u, watermark) && Arrives(u, watermark, reached)
    ensures reached == Some(CaughtUp(u, watermark)) && !DaysStop(u, watermark)
  {
    forall day | NextDay(watermark, u.target) <= day <= u.target ensures !StopsAt(u, watermark, day) {
      assert DayWorks(u, Entry(day, watermark.None?));
    }
  }

  /** Every day of the run works, no source stops it and duplicates are removed; single sources may fail. */
  ghost predicate Completes(u: Upstream, watermark: Option<int>) {
    CatchesUp(u, watermark) && NoFeedStops(AllFeeds(u)) && u.duplicates.Works?
  }

  /** The source offers the same snapshot, and if it can be stored now it could be before. */
  predicate SameFeed(f: Feed, g: Feed) {
    g.name == f.name && g.items == f.items && (g.outcome.Works? ==> f.outcome.Works?)
  }

  ghost predicate SameFeeds(u: Upstream, v: Upstream) {
    && |AllFeeds(v)| == |AllFeeds(u)|
    && forall i :: 0 <= i < |AllFeeds(u)| ==> SameFeed(AllFeeds(u)[i], AllFeeds(v)[i])
  }

  /** Days that have come since are without changes, and the last has the festivals already loaded. */
  ghost predicate NoNewDay(u: Upstream, v: Upstream, watermark: Option<int>) {
    var from := CaughtUp(u, watermark);
    && (forall day :: from < day <= v.target ==> Quiet(v.day(day)))
    && (from < v.target ==>
          && NextDay(watermark, u.target) <= u.target
          && u.day(u.target).answers.Some? && Quiet(v.day(v.target))
          && v.day(v.target).answers.value.festivals == u.day(u.target).answers.value.festivals
          && Plain(u.day(u.target).answers.value.festivals))
  }

  ghost predicate Unmoved(u: Upstream, v: Upstream, watermark: Option<int>) {
    NoNewDay(u, v, watermark) && SameFeeds(u, v) && v.text == u.text && v.protected == u.protected
  }

  lemma SecondCatchesUp(u: Upstream, v: Upstream, watermark: Option<int>)
    requires NoNewDay(u, v, watermark)
    ensures CatchesUp(v, Some(CaughtUp(u, watermark)))
  {
    forall day | CaughtUp(u, watermark) < day <= v.target ensures DayWorks(v, Entry(day, false)) {
      QuietWorks(v, day);
    }
  }

  /** After the days of a run that reached its target the table holds that day's festivals. */
  lemma DaysHoldFestivals(u: Upstream, base: Log, t0: Table, applied: Log, t: Table, watermark: Option<int>)
    requires Unique(t0) && Chronicle(base, watermark) && Chronicle(applied, Some(u.target))
    requires Grows(EntryStep(u), base, t0, applied, t) && NextDay(watermark, u.target) <= u.target
    requires u.day(u.target).answers.Some? && Plain(u.day(u.target).answers.value.festivals)
    ensures Holds(t, FestivalsAlone(u.day(u.target).answers.value.festivals))
  {
    var m := LastEntry(EntryStep(u), base, t0, applied, t);
    DaysKeep(u, base, t0, applied.before, m, TOURAPI);
    DayHoldsFestivals(m, u.day(u.target).answers.value, applied.entry.full, t);
  }

  /** A source used in the second run was used in the first. */
  lemma FedUnchanged(u: Upstream, v: Upstream, first: seq<Feeding>, second: seq<Feeding>,
                     s0: map<string, SyncState>, s1: map<string, SyncState>, s2: map<string, SyncState>)
    requires SameFeeds(u, v) && |first| == |AllFeeds(u)| == |second|
    requires Fed(AllFeeds(u), first, s0, s1) && Fed(AllFeeds(v), second, s1, s2)
    ensures Unchanged(first, second)
  {
    var n := |first|;
    forall i | 0 <= i < n
      ensures second[i].feed.name == first[i].feed.name
      ensures second[i].done ==> first[i].done && second[i].feed.items == first[i].feed.items
    {
      assert SameFeed(AllFeeds(u)[i], AllFeeds(v)[i]);
      UsedBefore(AllFeeds(u)[i], AllFeeds(v)[i], i < n - 1, first[i], StateOf(s0, first[i].feed.name));
    }
  }

  lemma UsedBefore(f: Feed, g: Feed, checked: bool, used: Feeding, previous: Option<SyncState>)
    requires SameFeed(f, g) && used.feed == f && (used.done <==> FeedWorks(f, checked, previous))
    ensures FeedWorks(g, checked, Some(Recorded(used, previous))) ==> used.done
  {
  }

  lemma FirstSeparate(u: Upstream, t: Table, first: seq<Feeding>, s0: map<string, SyncState>,
                      s1: map<string, SyncState>)
    requires FromSources(u.feeds) && Fed(AllFeeds(u), first, s0, s1)
    requires forall f :: f in AllFeeds(u) ==> AtMostOneUnnamed(t, f.name)
    ensures Separate(t, first)
  {
    FeedNames(u);
    var feeds := AllFeeds(u);
    forall i | 0 <= i < |first|
      ensures first[i].feed.name != TOURAPI && AtMostOneUnnamed(t, first[i].feed.name)
    {
      assert feeds[i] in feeds;
    }
  }

  /** The second run's days leave the table as it is. */
  lemma SecondDaysChangeNothing(u: Upstream, v: Upstream, w0: Option<int>, base: Log, t0: Table, log: Log, d: Table,
                                first: seq<Feeding>, a: Table, log': Log, d': Table, w2: Option<int>)
    requires Unique(t0) && NoNewDay(u, v, w0) && Chronicle(base, w0)
    requires Grows(EntryStep(u), base, t0, log, d) && Chronicle(log, Some(CaughtUp(u, w0)))
    requires FeedsTo(d, first, a) && forall f :: f in first ==> f.feed.name != TOURAPI
    requires var b := Deduplicated(a, u.text, u.protected);
      && Grows(EntryStep(v), log, b, log', d') && Chronicle(log', w2)
      && Arrives(v, Some(CaughtUp(u, w0)), w2) && (w2 == Some(CaughtUp(u, w0)) ==> log' == log && d' == b)
    ensures d' == Deduplicated(a, u.text, u.protected)
  {
    var b, from := Deduplicated(a, u.text, u.protected), CaughtUp(u, w0);
    DaysKeep(u, base, t0, log, d, TOURAPI);
    FeedsKeep(d, first, a, TOURAPI);
    DeactivatedUnique(a, Duplicates(a, u.text, u.protected));
    if w2 != Some(from) {
      if from < v.target {
        DaysHoldFestivals(u, base, t0, log, d, w0);
        StillHolds(d, first, a, u.text, u.protected, FestivalsAlone(u.day(u.target).answers.value.festivals));
      }
      assert QuietSince(v, from, b);
      QuietIsStill(v, from, b);
      StillGrows(EntryStep(v), log, b, log', d', from, w2.value, v.target);
    }
  }

  /** Two runs, the first complete. When upstream data have not moved since, be it on the same day or
      after days without changes, the second run leaves every row as it was. */
  method RunTwice(sync: TourismSync, u: Upstream, v: Upstream)
    returns (first: seq<Feeding>, second: seq<Feeding>, ghost log: Log, ghost afterDays: Table, ghost between: Table)
    requires sync.Valid() && FromSources(u.feeds) && FromSources(v.feeds)
    requires Completes(u, Watermark(sync.states))
    requires Unmoved(u, v, Watermark(sync.states)) && NoFeedStops(AllFeeds(v)) && v.duplicates.Works?
    requires forall f :: f in AllFeeds(u) ==> AtMostOneUnnamed(sync.repository.t, f.name)
    modifies sync, sync.repository
    ensures sync.Valid() && Watermark(sync.states).Some? && Watermark(sync.states).value >= v.target
    ensures Grows(EntryStep(u), old(sync.applied), old(sync.repository.t), log, afterDays)
    ensures Chronicle(log, Some(CaughtUp(u, old(Watermark(sync.states)))))
    ensures exists a :: FeedsTo(afterDays, first, a) && between == Deduplicated(a, u.text, u.protected)
    ensures sync.repository.t.rows == between.rows
  {
    ghost var w0, s0, base, t0 := Watermark(sync.states), sync.states, sync.applied, sync.repository.t;
    ghost var deduplicated, again, a, c, days;
    first, deduplicated, afterDays, a := sync.Run(u);
    ghost var s1 := sync.states;
    log, between := sync.applied, sync.repository.t;
    WatermarkAfter(u, w0, Watermark(s1));
    SecondCatchesUp(u, v, w0);
    second, again, days, c := sync.Run(v);
    WatermarkAfter(v, Watermark(s1), Watermark(sync.states));
    FedUnchanged(u, v, first, second, s0, s1, sync.states);
    forall f | f in AllFeeds(u) ensures AtMostOneUnnamed(afterDays, f.name) {
      DaysKeep(u, base, t0, log, afterDays, f.name);
    }
    FirstSeparate(u, afterDays, first, s0, s1);
    SecondDaysChangeNothing(u, v, w0, base, t0, log, afterDays, first, a, sync.applied, days,
                            Watermark(sync.states));
    SecondRunChangesNothing(afterDays, first, a, second, c, u.text, u.protected);
  }

  /** With several rows lacking an external id the next sync can take another of them out of use. */
  lemma UnnamedRowsLeaveOneByOne() returns (t: Table, m: Table, t': Table, id: nat)
    ensures Unique(t) && SyncedTo(t, MOUNTAINS, [], m) && SyncedTo(m, MOUNTAINS, [], t')
    ensures id in m.rows && m.rows[id].isActive && id in t'.rows && !t'.rows[id].isActive
  {
    var details := Details(None, None, None, None, None, None);
    var r := Row(Some(MOUNTAINS), None, Sports, None, None, None, details, map[], true, true);
    t := Table(map[0 := r, 1 := r], 2);
    m := Synced(t, MOUNTAINS, [], [0, 1], true);
    t' := Synced(m, MOUNTAINS, [], [1, 0], true);
    id := 0;
    assert LastUnnamed(t, [0, 1]) == Some(1);
    assert RowsOf(t, MOUNTAINS, [0, 1]);
    assert [1, 0][..1] == [1];
    assert LastUnnamed(m, [1, 0]) == Some(0);
    assert RowsOf(m, MOUNTAINS, [1, 0]);
  }
}
