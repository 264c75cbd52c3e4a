/** Days of the tourism service without changes: loading them again, with the festivals already held,
    leaves the table as it is. */
module QuietDays {
  import opened Wrappers
  import opened ActivityTable
  import opened ActivitySync
  import opened TourApi
  import opened Deduplication
  import opened SyncRun

  /** The items of a festival list on a day without changes. */
  function FestivalsAlone(festivals: seq<Festival>): seq<Item> {
    FestivalItems(festivals, map[])
  }

  /** No festival is listed twice, and none carries what only organizers or route lookups add. */
  ghost predicate Plain(festivals: seq<Festival>) {
    && Distinct(FestivalsAlone(festivals))
    && forall item :: item in FestivalsAlone(festivals) ==>
         Unannotated(item) && !Truthy(item.metadata, "hiking_lookup_failed")
  }

  /** The row is an event that the item would write as it stands. */
  predicate HeldBy(r: Row, item: Item) {
    Keyed(r, TOURAPI, item.externalId) && r.category == Event && Written(TOURAPI, Some(r), item) == r
  }

  ghost predicate Holds(t: Table, items: seq<Item>) {
    forall item :: item in items ==> Held(t, item)
  }

  ghost predicate Held(t: Table, item: Item) {
    exists id :: id in t.rows && HeldBy(t.rows[id], item)
  }

  // ----- a quiet day leaves the table as it is -----

  lemma HeldItemWritesNothing(t: Table, item: Item)
    requires Unique(t) && Held(t, item)
    ensures Upserted(t, TOURAPI, item) == t
  {
    var id :| id in t.rows && HeldBy(t.rows[id], item);
    assert Stored(t, TOURAPI, item.externalId) && IdOf(t, TOURAPI, item.externalId) == id;
    assert t.rows[id := t.rows[id]] == t.rows;
  }

  lemma {:induction false} HeldItemsWriteNothing(t: Table, items: seq<Item>)
    requires Unique(t) && Holds(t, items)
    ensures AllUpserted(t, TOURAPI, items) == t
  {
    if items != [] {
      var n := |items| - 1;
      assert items[n] in items;
      HeldItemsWriteNothing(t, items[..n]);
      HeldItemWritesNothing(t, items[n]);
    }
  }

  lemma HideNothing(t: Table)
    ensures Hidden(t, TOURAPI, {}) == t
  {
    assert Hidden(t, TOURAPI, {}).rows == t.rows;
  }

  /** What a day without changes amounts to. */
  lemma UnchangedDay(a: Answers, festivals: bool)
    requires a.changed == []
    ensures !DayFails(a, false) && HiddenIds(Considered(a, false), false) == {}
    ensures DayItems(a, false, festivals) == if festivals then FestivalsAlone(a.festivals) else []
  {
    assert Places(a, false) == [];
  }

  lemma QuietDay(t: Table, a: Answers, festivals: bool, t': Table)
    requires Unique(t) && a.changed == [] && DayTo(t, a, false, festivals, t')
    requires festivals ==> Holds(t, FestivalsAlone(a.festivals))
    ensures t' == t
  {
    var order :| RowsOf(t, TOURAPI, order) && t' == DayApplied(t, a, order, false, festivals);
    UnchangedDay(a, festivals);
    HeldItemsWriteNothing(t, DayItems(a, false, festivals));
    HideNothing(t);
  }

  ghost predicate Quiet(day: Day) {
    day.outcome.Works? && day.answers.Some? && day.answers.value.changed == []
  }

  lemma QuietWorks(v: Upstream, day: int)
    requires Quiet(v.day(day))
    ensures DayWorks(v, Entry(day, false))
  {
    UnchangedDay(v.day(day).answers.value, false);
  }

  /** The days after `from` are quiet, and the table holds the festivals of the last. */
  ghost predicate QuietSince(v: Upstream, from: int, t: Table) {
    && (forall day :: from < day <= v.target ==> Quiet(v.day(day)))
    && (from < v.target ==>
          Quiet(v.day(v.target)) && Holds(t, FestivalsAlone(v.day(v.target).answers.value.festivals)))
  }

  /** No change after `from` takes the table elsewhere. */
  ghost predicate Still(step: (Table, Entry, Table) -> bool, from: int, to: int, t: Table) {
    forall e: Entry, t': Table {:trigger step(t, e, t')} :: from < e.day <= to && !e.full && step(t, e, t') ==> t' == t
  }

  lemma QuietIsStill(v: Upstream, from: int, t: Table)
    requires Unique(t) && QuietSince(v, from, t)
    ensures Still(EntryStep(v), from, v.target, t)
  {
    forall e: Entry, t': Table | from < e.day <= v.target && !e.full && EntryTo(t, v, e, t') ensures t' == t {
      assert Quiet(v.day(e.day));
      QuietDay(t, v.day(e.day).answers.value, WithFestivals(v, e), t');
    }
  }

  /** The last entry of a log that has grown, and the table it was applied to. */
  lemma LastEntry(step: (Table, Entry, Table) -> bool, base: Log, t0: Table, applied: Log, t: Table)
    returns (m: Table)
    requires Grows(step, base, t0, applied, t) && (applied != base || t != t0)
    ensures applied.Then? && Grows(step, base, t0, applied.before, m) && step(m, applied.entry, t)
  {
    m :| Grows(step, base, t0, applied.before, m) && step(m, applied.entry, t);
  }

  /** Days that change nothing leave the table as it is. */
  lemma {:induction false} StillGrows(step: (Table, Entry, Table) -> bool, base: Log, t0: Table, applied: Log,
                                      t: Table, from: int, to: int, target: int)
    requires Chronicle(base, Some(from)) && Chronicle(applied, Some(to)) && Still(step, from, target, t0)
    requires Grows(step, base, t0, applied, t) && (to <= target || (applied == base && t == t0))
    ensures t == t0 && to >= from
    decreases applied
  {
    if applied != base || t != t0 {
      var m := LastEntry(step, base, t0, applied, t);
      assert applied.before.Then?;
      StillGrows(step, base, t0, applied.before, m, from, to - 1, target);
    }
  }

  // ----- the festivals of a day are held afterwards -----

  /** An event without notes of its own, written again without a word on visibility, changes nothing. */
  lemma EventAgain(previous: Option<Row>, item: Item, visible: Given<bool>, shown: bool)
    requires item.category == Event && item.visible == Absent
    requires Unannotated(item) && !Truthy(item.metadata, "hiking_lookup_failed")
    ensures HeldBy(Written(TOURAPI, previous, item.(visible := visible)).(visible := shown), item)
  {
    var r := Written(TOURAPI, previous, item.(visible := visible)).(visible := shown);
    assert Written(TOURAPI, Some(r), item).metadata == r.metadata;
  }

  /** The flags decide nothing but visibility. */
  lemma {:induction false} FlagsOnlyShow(festivals: seq<Festival>, flags: map<string, bool>)
    ensures var flagged, alone := FestivalItems(festivals, flags), FestivalsAlone(festivals);
      |flagged| == |alone| && forall i :: 0 <= i < |alone| ==>
        && alone[i].visible == Absent && alone[i].category == Event && alone[i].externalId != ""
        && flagged[i] == alone[i].(visible := flagged[i].visible)
  {
    if festivals != [] {
      FlagsOnlyShow(festivals[..|festivals| - 1], flags);
    }
  }

  /** The row of an id whose last item is at `k` holds what that item writes, but for visibility. */
  lemma LastWrites(t: Table, items: seq<Item>, order: seq<nat>, full: bool, hidden: set<string>, k: nat)
    returns (id: nat, previous: Option<Row>, shown: bool)
    requires Unique(t) && RowsOf(t, TOURAPI, order)
    requires k < |items| && forall j :: k < j < |items| ==> items[j].externalId != items[k].externalId
    ensures id in Hidden(Synced(t, TOURAPI, items, order, full), TOURAPI, hidden).rows
    ensures Hidden(Synced(t, TOURAPI, items, order, full), TOURAPI, hidden).rows[id] ==
      Written(TOURAPI, previous, items[k]).(visible := shown)
  {
    var x, m := items[k].externalId, AllUpserted(t, TOURAPI, items);
    assert items[k] in items;
    StoredAfter(t, TOURAPI, items, x);
    id :| id in m.rows && Keyed(m.rows[id], TOURAPI, x);
    var start := None;
    if id in t.rows {
      start := Some(t.rows[id]);
      RowAfter(t, TOURAPI, items, id);
      FoldedKeyed(start, TOURAPI, items, t.rows[id].externalId.GetOr(x));
    } else {
      NewRow(t, TOURAPI, items, id);
    }
    LastItemWins(start, TOURAPI, items, k);
    previous := Folded(start, TOURAPI, items[..k], x);
    shown := Hidden(Synced(t, TOURAPI, items, order, full), TOURAPI, hidden).rows[id].visible;
  }

  /** In the day's items no later one has the id of the festival at `i`. */
  lemma FestivalIsLast(places: seq<Item>, flagged: seq<Item>, alone: seq<Item>, i: nat)
    requires |flagged| == |alone| && i < |alone| && Distinct(alone)
    requires forall j :: 0 <= j < |alone| ==> flagged[j].externalId == alone[j].externalId
    ensures (places + flagged)[|places| + i] == flagged[i]
    ensures forall j :: |places| + i < j < |places + flagged| ==>
      (places + flagged)[j].externalId != (places + flagged)[|places| + i].externalId
  {
    forall j | |places| + i < j < |places + flagged|
      ensures (places + flagged)[j].externalId != (places + flagged)[|places| + i].externalId
    {
      assert alone[i].externalId != alone[j - |places|].externalId;
    }
  }

  lemma FestivalHeld(t: Table, a: Answers, order: seq<nat>, full: bool, i: nat)
    requires Unique(t) && RowsOf(t, TOURAPI, order) && Plain(a.festivals) && i < |FestivalsAlone(a.festivals)|
    ensures Held(DayApplied(t, a, order, full, true), FestivalsAlone(a.festivals)[i])
  {
    var flags, hidden := Flags(Considered(a, full)), HiddenIds(Considered(a, full), full);
    var places, flagged := PlaceItems(Places(a, full)), FestivalItems(a.festivals, flags);
    var item := FestivalsAlone(a.festivals)[i];
    assert item in FestivalsAlone(a.festivals);
    FlagsOnlyShow(a.festivals, flags);
    FestivalIsLast(places, flagged, FestivalsAlone(a.festivals), i);
    var id, previous, shown := LastWrites(t, places + flagged, order, full, hidden, |places| + i);
    EventAgain(previous, item, flagged[i].visible, shown);
    assert DayItems(a, full, true) == places + flagged;
  }

  /** After a day loaded with its festivals the table holds them. */
  lemma DayHoldsFestivals(t: Table, a: Answers, full: bool, t': Table)
    requires Unique(t) && DayTo(t, a, full, true, t') && Plain(a.festivals)
    ensures Holds(t', FestivalsAlone(a.festivals))
  {
    var order :| RowsOf(t, TOURAPI, order) && t' == DayApplied(t, a, order, full, true);
    var alone := FestivalsAlone(a.festivals);
    forall item | item in alone ensures Held(t', item) {
      var i :| 0 <= i < |alone| && alone[i] == item;
      FestivalHeld(t, a, order, full, i);
    }
  }

  /** Sources other than the tourism service leave its rows alone. */
  lemma {:induction false} FeedsKeepTourRow(t: Table, feedings: seq<Feeding>, t': Table, id: nat)
    requires Unique(t) && FeedsTo(t, feedings, t') && id in t.rows && t.rows[id].source == Some(TOURAPI)
    requires forall f :: f in feedings ==> f.feed.name != TOURAPI
    ensures Unique(t') && id in t'.rows && t'.rows[id] == t.rows[id]
    decreases |feedings|
  {
    if feedings != [] {
      var m := Before(t, feedings, t');
      var f := feedings[|feedings| - 1];
      FeedsKeepTourRow(t, feedings[..|feedings| - 1], m, id);
      SyncUnique(m, f, t');
      assert f in feedings;
      if f.done {
        var order :| RowsOf(m, f.feed.name, order) && t' == Synced(m, f.feed.name, f.feed.items.value, order, true);
        SyncTouchesOnly(m, f.feed.name, f.feed.items.value, order, true, id);
      }
    }
  }

  /** Neither the file sources nor the removal of duplicate sports places touch events held. */
  lemma StillHolds(t: Table, feedings: seq<Feeding>, t': Table, text: Text, protected: set<nat>, items: seq<Item>)
    requires Unique(t) && FeedsTo(t, feedings, t') && Holds(t, items)
    requires forall f :: f in feedings ==> f.feed.name != TOURAPI
    ensures Holds(Deduplicated(t', text, protected), items)
  {
    forall item | item in items ensures Held(Deduplicated(t', text, protected), item) {
      var id :| id in t.rows && HeldBy(t.rows[id], item);
      FeedsKeepTourRow(t, feedings, t', id);
      assert Deduplicated(t', text, protected).rows[id] == t.rows[id];
    }
  }
}
