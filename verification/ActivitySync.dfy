/** What a sync leaves in the table, row by row, and what it keeps over a history of syncs. */
module ActivitySync {
  import opened Wrappers
  import opened ActivityTable

  /** The row with external id `x` after the items have been written in order. */
  function Folded(previous: Option<Row>, source: string, items: seq<Item>, x: string): Option<Row> {
    if items == [] then previous
    else
      var n := |items| - 1;
      var p := Folded(previous, source, items[..n], x);
      if items[n].externalId == x then Some(Written(source, p, items[n])) else p
  }

  lemma {:induction false} FoldedKeyed(previous: Option<Row>, source: string, items: seq<Item>, x: string)
    ensures previous.Some? ==> Folded(previous, source, items, x).Some?
    ensures x !in Ids(items) ==> Folded(previous, source, items, x) == previous
    ensures x in Ids(items) ==> var r := Folded(previous, source, items, x);
      r.Some? && Keyed(r.value, source, x) && r.value.isActive
    ensures previous.Some? && Keyed(previous.value, source, x) ==>
      Keyed(Folded(previous, source, items, x).value, source, x)
  {
    if items != [] {
      var n := |items| - 1;
      assert items == items[..n] + [items[n]];
      FoldedKeyed(previous, source, items[..n], x);
      IdsOfMore(items[..n], items[n]);
    }
  }

  /** The last of the items with a repeated id decides the row. */
  lemma {:induction false} LastItemWins(previous: Option<Row>, source: string, items: seq<Item>, k: nat)
    requires k < |items| && forall j :: k < j < |items| ==> items[j].externalId != items[k].externalId
    ensures var x := items[k].externalId;
      Folded(previous, source, items, x) == Some(Written(source, Folded(previous, source, items[..k], x), items[k]))
  {
    var n := |items| - 1;
    if k < n {
      LastItemWins(previous, source, items[..n], k);
      assert items[..n][..k] == items[..k];
    }
  }

  // ----- what a row takes from an item -----

  predicate Official(r: Row) {
    "curationSource" in r.metadata && r.metadata["curationSource"] == "official_organizer"
  }

  predicate SameAt(a: map<string, string>, b: map<string, string>, key: string) {
    (key in a <==> key in b) && (key in a ==> a[key] == b[key])
  }

  /** The row had routes that the item failed to look up. */
  predicate RoutesKept(source: string, before: Option<Row>, item: Item) {
    && source == "tourapi" && before.Some?
    && Truthy(before.value.metadata, "hiking_routes") && Truthy(item.metadata, "hiking_lookup_failed")
  }

  /** The row was curated by the organizer and is an event now. */
  predicate NotesKept(source: string, before: Option<Row>, after: Row) {
    source == "tourapi" && before.Some? && Official(before.value) && after.category == Event
  }

  /** All values but metadata: category, sport and summary are the item's unless routes were kept; an
      item without an image, or without a word on visibility, leaves the stored one. */
  predicate ValuesTaken(source: string, before: Option<Row>, item: Item, after: Row) {
    && Keyed(after, source, item.externalId) && after.isActive && after.details == item.details
    && (if RoutesKept(source, before, item)
        then after.category == before.value.category && after.sportName == before.value.sportName
          && after.summary == before.value.summary
        else after.category == item.category && after.sportName == item.sportName && after.summary == item.summary)
    && (item.image.Given? ==> after.image == item.image.value)
    && (item.image.Absent? ==> after.image == if before.Some? then before.value.image else None)
    && (item.visible.Given? ==> after.visible == item.visible.value)
    && (item.visible.Absent? ==> after.visible == (before.None? || before.value.visible))
  }

  /** Which values a metadata key has: with notes kept the organizer's notes, and captions while the image
      is unchanged, win over the item's values, and no other stored key remains; with routes kept the
      item's values win over the stored ones; else they are exactly the item's. */
  function Deciding(source: string, before: Option<Row>, item: Item, after: Row, key: string): map<string, string> {
    if NotesKept(source, before, after) then
      if key in before.value.metadata
         && (key in {"participation", "eventType", "officialSource", "curationSource"}
             || (key in {"imageCaption", "imageType"} && after.image == before.value.image))
      then before.value.metadata else item.metadata
    else if RoutesKept(source, before, item) && key !in item.metadata then before.value.metadata
    else item.metadata
  }

  ghost predicate MetadataTaken(source: string, before: Option<Row>, item: Item, after: Row) {
    forall key :: SameAt(after.metadata, Deciding(source, before, item, after, key), key)
  }

  lemma WrittenTakes(source: string, before: Option<Row>, item: Item)
    ensures ValuesTaken(source, before, item, Written(source, before, item))
    ensures MetadataTaken(source, before, item, Written(source, before, item))
  {
  }

  /** A row takes the values of the last item with its id, given what the earlier ones had made of it. */
  lemma RepeatedIdTakesLastValues(previous: Option<Row>, source: string, items: seq<Item>, k: nat)
    requires k < |items| && forall j :: k < j < |items| ==> items[j].externalId != items[k].externalId
    ensures var before := Folded(previous, source, items[..k], items[k].externalId);
      var after := Folded(previous, source, items, items[k].externalId);
      && after.Some? && ValuesTaken(source, before, items[k], after.value)
      && MetadataTaken(source, before, items[k], after.value)
  {
    LastItemWins(previous, source, items, k);
    WrittenTakes(source, Folded(previous, source, items[..k], items[k].externalId), items[k]);
  }

  /** What is taken leaves no choice about the row. */
  lemma TakenDetermined(source: string, before: Option<Row>, item: Item, a: Row, b: Row)
    requires ValuesTaken(source, before, item, a) && MetadataTaken(source, before, item, a)
    requires ValuesTaken(source, before, item, b) && MetadataTaken(source, before, item, b)
    ensures a == b
  {
    forall key ensures SameAt(a.metadata, b.metadata, key) {
      assert SameAt(a.metadata, Deciding(source, before, item, a, key), key);
      assert SameAt(b.metadata, Deciding(source, before, item, b, key), key);
    }
    assert forall key :: key in a.metadata || key in b.metadata ==> SameAt(a.metadata, b.metadata, key);
    assert a.metadata == b.metadata;
  }

  // ----- every row of the table -----

  lemma UpsertedRow(t: Table, source: string, item: Item, id: nat)
    requires Unique(t) && id in t.rows
    ensures id in Upserted(t, source, item).rows
    ensures Upserted(t, source, item).rows[id] ==
      if Keyed(t.rows[id], source, item.externalId) then Written(source, Some(t.rows[id]), item) else t.rows[id]
  {
  }

  /** An existing row becomes what its own items write, and every other row stays. */
  lemma {:induction false} RowAfter(t: Table, source: string, items: seq<Item>, id: nat)
    requires Unique(t) && id in t.rows
    ensures Unique(AllUpserted(t, source, items)) && id in AllUpserted(t, source, items).rows
    ensures var r, r' := t.rows[id], AllUpserted(t, source, items).rows[id];
      if r.source == Some(source) && r.externalId.Some?
      then Some(r') == Folded(Some(r), source, items, r.externalId.value)
      else r' == r
  {
    if items != [] {
      var n, r := |items| - 1, t.rows[id];
      var m := AllUpserted(t, source, items[..n]);
      RowAfter(t, source, items[..n], id);
      UpsertUnique(m, source, items[n]);
      UpsertedRow(m, source, items[n], id);
      if r.source == Some(source) && r.externalId.Some? {
        FoldedKeyed(Some(r), source, items[..n], r.externalId.value);
      }
    }
  }

  lemma {:induction false} AllUpsertedUnique(t: Table, source: string, items: seq<Item>)
    requires Unique(t)
    ensures Unique(AllUpserted(t, source, items))
  {
    if items != [] {
      AllUpsertedUnique(t, source, items[..|items| - 1]);
      UpsertUnique(AllUpserted(t, source, items[..|items| - 1]), source, items[|items| - 1]);
    }
  }

  ghost predicate Fresh(t: Table, source: string, items: seq<Item>, r: Row) {
    && r.source == Some(source) && r.externalId.Some? && r.externalId.value in Ids(items)
    && !Stored(t, source, r.externalId.value)
    && Some(r) == Folded(None, source, items, r.externalId.value)
  }

  /** A new row is for an id the source did not have, and holds what its items write. */
  lemma {:induction false} NewRow(t: Table, source: string, items: seq<Item>, id: nat)
    requires Unique(t) && id in AllUpserted(t, source, items).rows && id !in t.rows
    ensures Fresh(t, source, items, AllUpserted(t, source, items).rows[id])
  {
    var n := |items| - 1;
    var m, item := AllUpserted(t, source, items[..n]), items[n];
    var x := item.externalId;
    AllUpsertedUnique(t, source, items[..n]);
    assert items == items[..n] + [item];
    IdsOfMore(items[..n], item);
    if id in m.rows {
      NewRow(t, source, items[..n], id);
      UpsertedRow(m, source, item, id);
    } else {
      StoredAfter(t, source, items[..n], x);
      FoldedKeyed(None, source, items[..n], x);
    }
  }

  /** The source has exactly the ids it had before and those of the items. */
  lemma {:induction false} StoredAfter(t: Table, source: string, items: seq<Item>, x: string)
    requires Unique(t)
    ensures Stored(AllUpserted(t, source, items), source, x) <==> Stored(t, source, x) || x in Ids(items)
  {
    if items != [] {
      var n := |items| - 1;
      var m := AllUpserted(t, source, items[..n]);
      StoredAfter(t, source, items[..n], x);
      AllUpsertedUnique(t, source, items[..n]);
      assert items == items[..n] + [items[n]];
      IdsOfMore(items[..n], items[n]);
      StoredOneMore(m, source, items[n], x);
    }
  }

  lemma StoredOneMore(m: Table, source: string, item: Item, x: string)
    requires Unique(m)
    ensures Stored(Upserted(m, source, item), source, x) <==> Stored(m, source, x) || x == item.externalId
  {
    var m' := Upserted(m, source, item);
    if id :| id in m.rows && Keyed(m.rows[id], source, x) {
      UpsertedRow(m, source, item, id);
      assert Keyed(m'.rows[id], source, x);
    }
    var k := if Stored(m, source, item.externalId) then IdOf(m, source, item.externalId) else m.nextId;
    assert k in m'.rows && Keyed(m'.rows[k], source, item.externalId);
    forall id | id in m'.rows && Keyed(m'.rows[id], source, x) && id != k ensures Stored(m, source, x) {
      assert m'.rows[id] == m.rows[id];
    }
  }

  /** After a full sync a row of the source is in use exactly when its id is in the snapshot; of the
      rows without an external id, one leaves use and the rest are not looked at. */
  lemma FullSyncActive(t: Table, source: string, items: seq<Item>, order: seq<nat>, id: nat)
    requires Unique(t) && RowsOf(t, source, order)
    requires id in Synced(t, source, items, order, true).rows
    requires Synced(t, source, items, order, true).rows[id].source == Some(source)
    ensures var r := Synced(t, source, items, order, true).rows[id];
      if r.externalId.Some? then r.isActive <==> r.externalId.value in Ids(items)
      else id in t.rows && (r.isActive <==> t.rows[id].isActive && LastUnnamed(t, order) != Some(id))
  {
    var m := AllUpserted(t, source, items);
    if id in t.rows {
      RowAfter(t, source, items, id);
      if t.rows[id].source == Some(source) && t.rows[id].externalId.Some? {
        FoldedKeyed(Some(t.rows[id]), source, items, t.rows[id].externalId.value);
      }
    } else {
      NewRow(t, source, items, id);
      FoldedKeyed(None, source, items, m.rows[id].externalId.value);
    }
  }

  /** After a sync each row with an id of the items holds what the last of them writes to it. */
  lemma SyncedRowTakes(t: Table, source: string, items: seq<Item>, order: seq<nat>, full: bool, k: nat, id: nat)
    requires Unique(t) && RowsOf(t, source, order)
    requires k < |items| && forall j :: k < j < |items| ==> items[j].externalId != items[k].externalId
    requires id in Synced(t, source, items, order, full).rows
    requires Keyed(Synced(t, source, items, order, full).rows[id], source, items[k].externalId)
    ensures var start := if id in t.rows then Some(t.rows[id]) else None;
      var before := Folded(start, source, items[..k], items[k].externalId);
      var after := Synced(t, source, items, order, full).rows[id];
      ValuesTaken(source, before, items[k], after) && MetadataTaken(source, before, items[k], after)
  {
    var x := items[k].externalId;
    assert items[k] in items;
    if id in t.rows {
      RowAfter(t, source, items, id);
      if t.rows[id].source == Some(source) && t.rows[id].externalId.Some? {
        FoldedKeyed(Some(t.rows[id]), source, items, t.rows[id].externalId.value);
      }
      RepeatedIdTakesLastValues(Some(t.rows[id]), source, items, k);
    } else {
      NewRow(t, source, items, id);
      RepeatedIdTakesLastValues(None, source, items, k);
    }
  }

  /** A sync leaves every row that is not of its source alone, and a delta every row not on its list. */
  lemma SyncTouchesOnly(t: Table, source: string, items: seq<Item>, order: seq<nat>, full: bool, id: nat)
    requires Unique(t) && RowsOf(t, source, order) && id in t.rows
    requires t.rows[id].source != Some(source)
      || (!full && (t.rows[id].externalId.Some? ==> t.rows[id].externalId.value !in Ids(items)))
    ensures id in Synced(t, source, items, order, full).rows
    ensures Synced(t, source, items, order, full).rows[id] == t.rows[id]
  {
    RowAfter(t, source, items, id);
    if t.rows[id].externalId.Some? {
      FoldedKeyed(Some(t.rows[id]), source, items, t.rows[id].externalId.value);
    }
  }

  // ----- annotations over a history of deliveries of one row -----

  /** What the upstream service itself puts in an item's metadata. */
  predicate Unannotated(item: Item) {
    item.metadata.Keys !! NOTES && item.metadata.Keys !! CAPTIONS
  }

  function Delivered(r: Row, items: seq<Item>): Row {
    if items == [] then r else Written("tourapi", Some(Delivered(r, items[..|items| - 1])), items[|items| - 1])
  }

  /** Deliveries of one row are what a sync with those items makes of it. */
  lemma {:induction false} DeliveredIsFolded(r: Row, items: seq<Item>, x: string)
    requires forall item :: item in items ==> item.externalId == x
    ensures Folded(Some(r), "tourapi", items, x) == Some(Delivered(r, items))
  {
    if items != [] {
      assert items[|items| - 1] in items;
      DeliveredIsFolded(r, items[..|items| - 1], x);
    }
  }

  /** One delivery to an officially curated row keeps its notes exactly when the row is then an event
      or keeps its hiking routes. */
  lemma NotesSurviveIff(r: Row, item: Item)
    requires Official(r) && Unannotated(item)
    ensures (forall key :: key in NOTES ==> SameAt(Written("tourapi", Some(r), item).metadata, r.metadata, key)) <==>
      CategoryAfter("tourapi", Some(r), item) == Event || KeepsRoutes("tourapi", Some(r), item)
  {
    var r' := Written("tourapi", Some(r), item);
    if CategoryAfter("tourapi", Some(r), item) != Event && !KeepsRoutes("tourapi", Some(r), item) {
      assert !SameAt(r'.metadata, r.metadata, "curationSource");
    }
  }

  /** One delivery to a curated event keeps a caption exactly when the image is the same. */
  lemma CaptionSurvivesIff(r: Row, item: Item, key: string)
    requires Official(r) && Unannotated(item) && CategoryAfter("tourapi", Some(r), item) == Event
    requires key in CAPTIONS && key in r.metadata
    ensures key in Written("tourapi", Some(r), item).metadata <==> SameImage(Some(r), item)
  {
  }

  /** The organizer's notes outlast any number of deliveries as an event. */
  lemma {:induction false} NotesOutlastEvents(r: Row, items: seq<Item>, key: string)
    requires Official(r) && r.category == Event && key in NOTES
    requires forall item :: item in items ==> Unannotated(item) && item.category == Event
    ensures var r' := Delivered(r, items); r'.category == Event && Official(r') && SameAt(r'.metadata, r.metadata, key)
  {
    if items != [] {
      var n := |items| - 1;
      NotesOutlastEvents(r, items[..n], key);
      var m := Delivered(r, items[..n]);
      assert items[n] in items;
      NotesSurviveIff(m, items[n]);
      assert SameAt(Written("tourapi", Some(m), items[n]).metadata, m.metadata, "curationSource");
    }
  }

  /** A caption once gone never returns. */
  lemma {:induction false} CaptionNeverReturns(r: Row, items: seq<Item>, key: string)
    requires key in CAPTIONS && key !in r.metadata
    requires forall item :: item in items ==> Unannotated(item)
    ensures key !in Delivered(r, items).metadata
  {
    if items != [] {
      CaptionNeverReturns(r, items[..|items| - 1], key);
      assert items[|items| - 1] in items;
    }
  }

  /** One delivery without routes of its own loses stored routes exactly when its lookup did not fail
      or the row is a curated event. */
  lemma RoutesSurviveIff(r: Row, item: Item)
    requires Truthy(r.metadata, "hiking_routes") && "hiking_routes" !in item.metadata
    ensures Truthy(Written("tourapi", Some(r), item).metadata, "hiking_routes") <==>
      Truthy(item.metadata, "hiking_lookup_failed") && !(r.category == Event && Official(r))
  {
  }

  /** An administrator's edit of a row's category and metadata; an event has no sport. */
  function Edited(r: Row, category: Category, metadata: map<string, string>): Row {
    r.(category := category, sportName := if category == Sports then r.sportName else None, metadata := metadata)
  }

  /** A place delivered with routes, then edited into a curated event, loses them to the next delivery
      whose lookup fails. */
  lemma CuratedEventLosesRoutes() returns (place: Item, r: Row, again: Item)
    ensures Unannotated(place) && Unannotated(again) && Truthy(again.metadata, "hiking_lookup_failed")
    ensures var delivered := Written("tourapi", None, place);
      && Truthy(delivered.metadata, "hiking_routes")
      && r == Edited(delivered, Event, delivered.metadata["curationSource" := "official_organizer"])
    ensures !Truthy(Written("tourapi", Some(r), again).metadata, "hiking_routes")
  {
    var details := Details(Some("두타산"), Some("동해시"), Some("강원특별자치도 동해시"), None, None, None);
    place := Item("127649", Sports, Some("hiking"), None, Absent, details,
                  map["contenttypeid" := "12", "hiking_routes" := "1코스"], Given(true));
    again := place.(metadata := map["contenttypeid" := "12", "hiking_lookup_failed" := "true"]);
    var delivered := Written("tourapi", None, place);
    r := Edited(delivered, Event, delivered.metadata["curationSource" := "official_organizer"]);
    RoutesSurviveIff(r, again);
  }

  /** Routes of a row that is no curated event outlast any number of failed lookups. */
  lemma {:induction false} RoutesOutlastFailures(r: Row, items: seq<Item>)
    requires Truthy(r.metadata, "hiking_routes") && !(r.category == Event && Official(r))
    requires forall item :: item in items ==>
      Unannotated(item) && Truthy(item.metadata, "hiking_lookup_failed") && "hiking_routes" !in item.metadata
    ensures var r' := Delivered(r, items);
      && SameAt(r'.metadata, r.metadata, "hiking_routes") && !(r'.category == Event && Official(r'))
      && r'.category == r.category && r'.sportName == r.sportName && r'.summary == r.summary
  {
    if items != [] {
      var n := |items| - 1;
      RoutesOutlastFailures(r, items[..n]);
      assert items[n] in items;
      RoutesSurviveIff(Delivered(r, items[..n]), items[n]);
    }
  }
}
