/** One day of the tourism service: the changed places and festivals, and the ids to hide. */
module TourApi {
  import opened Wrappers
  import opened Lists
  import opened ActivityTable
  import opened ActivitySync

  /** A row of the service's change list; `contentId` is empty when the service gives none. */
  datatype Change = Change(contentId: string, isFestival: bool, shown: bool, inArea: bool, inProvince: bool,
                           values: Item)

  datatype Festival = Festival(contentId: string, values: Item)

  /** What the service answers for a day, and the ids the catalogue excludes. */
  datatype Answers = Answers(changed: seq<Change>, festivals: seq<Festival>, excluded: set<string>)

  /** A full load drops excluded places before anything else; a delta sees every change. */
  function Considered(a: Answers, full: bool): seq<Change> {
    if full then Filter(a.changed, (c: Change) => c.contentId !in a.excluded) else a.changed
  }

  function ContentIds(changed: seq<Change>): seq<string> {
    if changed == [] then []
    else
      var n := |changed| - 1;
      ContentIds(changed[..n]) + if changed[n].contentId != "" then [changed[n].contentId] else []
  }

  function Flags(changed: seq<Change>): (flags: map<string, bool>)
    ensures forall x {:trigger x in flags} :: x in flags ==> x != "" && exists c :: c in changed && c.contentId == x
    ensures forall c {:trigger c in changed} :: c in changed && c.contentId != "" ==> c.contentId in flags
  {
    if changed == [] then map[]
    else
      var n := |changed| - 1;
      assert changed == changed[..n] + [changed[n]];
      var rest := Flags(changed[..n]);
      if changed[n].contentId != "" then rest[changed[n].contentId := changed[n].shown] else rest
  }

  predicate IsPlace(c: Change, excluded: set<string>) {
    c.contentId != "" && !c.isFestival && c.contentId !in excluded && c.shown && (c.inArea || c.inProvince)
  }

  predicate OutsideProvince(c: Change) {
    c.contentId != "" && !c.inArea && !c.inProvince
  }

  /** Flagged as not shown, or, in a delta, moved outside the province. */
  function HiddenIds(changed: seq<Change>, full: bool): set<string> {
    (set x | x in Flags(changed) && !Flags(changed)[x])
    + if full then {} else set c | c in changed && OutsideProvince(c) :: c.contentId
  }

  function PlaceItem(c: Change): Item {
    c.values.(externalId := c.contentId, visible := Given(c.shown))
  }

  function PlaceItems(places: seq<Change>): (r: seq<Item>)
    ensures |r| == |places| && forall i :: 0 <= i < |r| ==> r[i] == PlaceItem(places[i])
  {
    seq(|places|, i requires 0 <= i < |places| => PlaceItem(places[i]))
  }

  /** A festival is an event; without a flag of its own it says nothing about visibility. */
  function FestivalItem(f: Festival, flags: map<string, bool>): Item {
    f.values.(externalId := f.contentId, category := Event,
              visible := if f.contentId in flags then Given(flags[f.contentId]) else Absent)
  }

  function FestivalItems(festivals: seq<Festival>, flags: map<string, bool>): (r: seq<Item>)
    ensures forall item {:trigger item in r} :: item in r ==>
      exists f :: f in festivals && f.contentId != "" && item == FestivalItem(f, flags)
    ensures forall f {:trigger f in festivals} :: f in festivals && f.contentId != "" ==> FestivalItem(f, flags) in r
  {
    if festivals == [] then []
    else
      var n := |festivals| - 1;
      assert festivals == festivals[..n] + [festivals[n]];
      var rest := FestivalItems(festivals[..n], flags);
      if festivals[n].contentId != "" then rest + [FestivalItem(festivals[n], flags)] else rest
  }

  function Places(a: Answers, full: bool): seq<Change> {
    Filter(Considered(a, full), (c: Change) => IsPlace(c, a.excluded))
  }

  function DayItems(a: Answers, full: bool, festivals: bool): seq<Item> {
    PlaceItems(Places(a, full)) +
    if festivals then FestivalItems(a.festivals, Flags(Considered(a, full))) else []
  }

  ghost predicate DayFails(a: Answers, full: bool) {
    || (full && Considered(a, full) == [])
    || !NoRepeats(ContentIds(Considered(a, full)))
    || (full && Places(a, full) == [])
  }

  ghost function DayApplied(t: Table, a: Answers, order: seq<nat>, full: bool, festivals: bool): Table
    requires RowsOf(t, "tourapi", order)
  {
    var next := Synced(t, "tourapi", DayItems(a, full, festivals), order, full);
    Hidden(next, "tourapi", HiddenIds(Considered(a, full), full))
  }

  lemma DayItemsNamed(a: Answers, full: bool, festivals: bool)
    ensures "" !in Ids(DayItems(a, full, festivals))
  {
    var rows := DayItems(a, full, festivals);
    forall item | item in rows ensures item.externalId != "" {
      var places := PlaceItems(Places(a, full));
      if item in places {
        var i :| 0 <= i < |places| && places[i] == item;
        assert Places(a, full)[i] in Places(a, full);
      }
    }
  }

  method TourApiDay(repository: ActivityRepository, a: Answers, order: seq<nat>, full: bool, festivals: bool)
    returns (count: Option<nat>)
    requires Unique(repository.t) && RowsOf(repository.t, "tourapi", order)
    modifies repository
    ensures Unique(repository.t)
    ensures count.None? <==> DayFails(a, full)
    ensures count.None? ==> repository.t == old(repository.t)
    ensures count.Some? ==> count.value == |DayItems(a, full, festivals)|
    ensures count.Some? ==> repository.t == DayApplied(old(repository.t), a, order, full, festivals)
  {
    var changed := Considered(a, full);
    var ids := ContentIds(changed);
    RepeatedIdSeen(ids);
    if (full && changed == []) || |ids| != |set x | x in ids| {
      return None;
    }
    var places := Filter(changed, (c: Change) => IsPlace(c, a.excluded));
    if full && places == [] {
      return None;
    }
    var rows := PlaceItems(places);
    if festivals {
      rows := rows + FestivalItems(a.festivals, Flags(changed));
    }
    DayItemsNamed(a, full, festivals);
    assert rows == DayItems(a, full, festivals);
    count := repository.SyncItems("tourapi", rows, order, full);
    HiddenUnique(repository.t, "tourapi", HiddenIds(changed, full));
    repository.HideUpstreamIds("tourapi", HiddenIds(changed, full));
  }

  lemma HiddenUnique(t: Table, source: string, ids: set<string>)
    requires Unique(t)
    ensures Unique(Hidden(t, source, ids))
  {
    var t' := Hidden(t, source, ids);
    assert forall id, s, x :: id in t'.rows && Keyed(t'.rows[id], s, x) ==> Keyed(t.rows[id], s, x);
  }

  /** Comparing sizes finds a repeated id. */
  lemma {:induction false} RepeatedIdSeen(s: seq<string>)
    ensures |set x | x in s| <= |s|
    ensures |set x | x in s| == |s| <==> NoRepeats(s)
  {
    if s != [] {
      var n := |s| - 1;
      assert s == s[..n] + [s[n]];
      RepeatedIdSeen(s[..n]);
      assert (set x | x in s) == (set x | x in s[..n]) + {s[n]};
      assert s[n] in s[..n] ==> (set x | x in s) == (set x | x in s[..n]);
      assert s[n] in s[..n] ==> !NoRepeats(s);
    }
  }

  // ----- visibility after a day -----

  predicate Says(items: seq<Item>, x: string) {
    exists item :: item in items && item.externalId == x && item.visible.Given?
  }

  /** The visibility an id's items leave, when those that say something agree. */
  lemma {:induction false} FoldedVisible(previous: Option<Row>, items: seq<Item>, x: string, flag: bool)
    requires forall item :: item in items && item.externalId == x && item.visible.Given? ==> item.visible.value == flag
    ensures Folded(previous, "tourapi", items, x).Some? ==>
      Folded(previous, "tourapi", items, x).value.visible ==
        if Says(items, x) then flag else previous.None? || previous.value.visible
  {
    if items != [] {
      var n := |items| - 1;
      assert items == items[..n] + [items[n]];
      FoldedVisible(previous, items[..n], x, flag);
      assert items[n] in items;
      assert Says(items, x) <==> Says(items[..n], x) || (items[n].externalId == x && items[n].visible.Given?);
      FoldedKeyed(previous, "tourapi", items[..n], x);
      if Says(items[..n], x) {
        assert x in Ids(items[..n]);
      }
    }
  }

  lemma {:induction false} ContentIdsOf(changed: seq<Change>, c: Change)
    requires c in changed && c.contentId != ""
    ensures c.contentId in ContentIds(changed)
  {
    var n := |changed| - 1;
    assert changed == changed[..n] + [changed[n]];
    if c != changed[n] {
      ContentIdsOf(changed[..n], c);
    }
  }

  lemma LastOnce(s: seq<string>, x: string)
    requires NoRepeats(s + [x])
    ensures x !in s && NoRepeats(s)
  {
    assert forall i :: 0 <= i < |s| ==> (s + [x])[i] == s[i];
    assert (s + [x])[|s|] == x;
  }

  /** With distinct ids each change sets its own flag. */
  lemma {:induction false} FlagOfChange(changed: seq<Change>, c: Change)
    requires NoRepeats(ContentIds(changed)) && c in changed && c.contentId != ""
    ensures Flags(changed)[c.contentId] == c.shown
  {
    var n := |changed| - 1;
    var rest, last := ContentIds(changed[..n]), changed[n];
    assert changed == changed[..n] + [last];
    if last.contentId != "" {
      assert ContentIds(changed) == rest + [last.contentId];
      LastOnce(rest, last.contentId);
    } else {
      assert ContentIds(changed) == rest;
    }
    if c in changed[..n] {
      FlagOfChange(changed[..n], c);
      ContentIdsOf(changed[..n], c);
    }
  }

  lemma ItemsFollowFlags(a: Answers, full: bool, festivals: bool, item: Item)
    requires !DayFails(a, full) && item in DayItems(a, full, festivals) && item.visible.Given?
    ensures item.externalId in Flags(Considered(a, full))
    ensures item.visible.value == Flags(Considered(a, full))[item.externalId]
  {
    var places := PlaceItems(Places(a, full));
    if item in places {
      var i :| 0 <= i < |places| && places[i] == item;
      var c := Places(a, full)[i];
      assert c in Places(a, full) && c in Considered(a, full);
      FlagOfChange(Considered(a, full), c);
    }
  }

  lemma SyncedVisible(t: Table, items: seq<Item>, order: seq<nat>, full: bool, id: nat, x: string, flag: bool)
    requires Unique(t) && RowsOf(t, "tourapi", order)
    requires id in Synced(t, "tourapi", items, order, full).rows
    requires Keyed(Synced(t, "tourapi", items, order, full).rows[id], "tourapi", x)
    requires forall item :: item in items && item.externalId == x && item.visible.Given? ==> item.visible.value == flag
    ensures Synced(t, "tourapi", items, order, full).rows[id].visible <==>
      if Says(items, x) then flag else (id in t.rows ==> t.rows[id].visible)
  {
    if id in t.rows {
      RowAfter(t, "tourapi", items, id);
      FoldedVisible(Some(t.rows[id]), items, x, flag);
      if t.rows[id].source == Some("tourapi") && t.rows[id].externalId.Some? {
        FoldedKeyed(Some(t.rows[id]), "tourapi", items, t.rows[id].externalId.value);
      }
    } else {
      NewRow(t, "tourapi", items, id);
      FoldedVisible(None, items, x, flag);
    }
  }

  /** A change of the day hides the id. */
  ghost predicate HiddenBy(a: Answers, full: bool, x: string) {
    exists c :: c in Considered(a, full) && c.contentId == x && x != "" && (!c.shown || (!full && OutsideProvince(c)))
  }

  /** The day lists the id as a place to show, or as a festival among its changes. */
  ghost predicate ListedBy(a: Answers, full: bool, festivals: bool, x: string) {
    || (exists c :: c in Considered(a, full) && c.contentId == x && IsPlace(c, a.excluded))
    || (festivals && x != "" && (exists f :: f in a.festivals && f.contentId == x)
        && exists c :: c in Considered(a, full) && c.contentId == x)
  }

  lemma HiddenIff(a: Answers, full: bool, x: string)
    requires !DayFails(a, full)
    ensures x in HiddenIds(Considered(a, full), full) <==> HiddenBy(a, full, x)
  {
    var changed := Considered(a, full);
    forall c | c in changed && c.contentId != "" ensures Flags(changed)[c.contentId] == c.shown {
      FlagOfChange(changed, c);
    }
  }

  lemma PlaceIsItem(places: seq<Change>, c: Change)
    requires c in places
    ensures PlaceItem(c) in PlaceItems(places)
  {
    var i :| 0 <= i < |places| && places[i] == c;
    assert PlaceItems(places)[i] == PlaceItem(c);
  }

  lemma ItemIsPlace(places: seq<Change>, item: Item) returns (c: Change)
    requires item in PlaceItems(places)
    ensures c in places && item == PlaceItem(c)
  {
    var i :| 0 <= i < |places| && PlaceItems(places)[i] == item;
    c := places[i];
  }

  lemma ListedIsSaid(a: Answers, full: bool, festivals: bool, x: string)
    requires ListedBy(a, full, festivals, x)
    ensures Says(DayItems(a, full, festivals), x)
  {
    var flags := Flags(Considered(a, full));
    if c :| c in Considered(a, full) && c.contentId == x && IsPlace(c, a.excluded) {
      PlaceIsItem(Places(a, full), c);
      assert PlaceItem(c) in DayItems(a, full, festivals);
    } else {
      var f :| f in a.festivals && f.contentId == x;
      assert FestivalItem(f, flags) in DayItems(a, full, festivals);
    }
  }

  lemma SaidIsListed(a: Answers, full: bool, festivals: bool, item: Item)
    requires item in DayItems(a, full, festivals) && item.visible.Given?
    ensures ListedBy(a, full, festivals, item.externalId)
  {
    if item in PlaceItems(Places(a, full)) {
      var c := ItemIsPlace(Places(a, full), item);
      assert c in Considered(a, full);
    }
  }

  /** After a day an id is visible exactly when no change of the day hides it, and either the day lists
      it or it was not invisible before: a festival among no changes un-hides nothing. */
  lemma VisibleAfterDay(t: Table, a: Answers, order: seq<nat>, full: bool, festivals: bool, id: nat, x: string)
    requires Unique(t) && RowsOf(t, "tourapi", order) && !DayFails(a, full)
    requires id in DayApplied(t, a, order, full, festivals).rows
    requires Keyed(DayApplied(t, a, order, full, festivals).rows[id], "tourapi", x)
    ensures DayApplied(t, a, order, full, festivals).rows[id].visible <==>
      !HiddenBy(a, full, x) && (ListedBy(a, full, festivals, x) || (id in t.rows ==> t.rows[id].visible))
  {
    HiddenIff(a, full, x);
    if ListedBy(a, full, festivals, x) {
      ListedIsSaid(a, full, festivals, x);
    }
    if Says(DayItems(a, full, festivals), x) {
      var item: Item :| item in DayItems(a, full, festivals) && item.externalId == x && item.visible.Given?;
      SaidIsListed(a, full, festivals, item);
    }
    VisibleAfterItems(t, a, order, full, festivals, id, x);
  }

  lemma VisibleAfterItems(t: Table, a: Answers, order: seq<nat>, full: bool, festivals: bool, id: nat, x: string)
    requires Unique(t) && RowsOf(t, "tourapi", order) && !DayFails(a, full)
    requires id in DayApplied(t, a, order, full, festivals).rows
    requires Keyed(DayApplied(t, a, order, full, festivals).rows[id], "tourapi", x)
    ensures DayApplied(t, a, order, full, festivals).rows[id].visible <==>
      && x !in HiddenIds(Considered(a, full), full)
      && (Says(DayItems(a, full, festivals), x) || (id in t.rows ==> t.rows[id].visible))
  {
    var items := DayItems(a, full, festivals);
    var flags, hidden := Flags(Considered(a, full)), HiddenIds(Considered(a, full), full);
    var flag := x in flags && flags[x];
    forall item | item in items && item.externalId == x && item.visible.Given?
      ensures x in flags && item.visible.value == flag
    {
      ItemsFollowFlags(a, full, festivals, item);
    }
    SyncedVisible(t, items, order, full, id, x, flag);
    HiddenRow(Synced(t, "tourapi", items, order, full), hidden, id, x);
  }

  lemma HiddenRow(t: Table, ids: set<string>, id: nat, x: string)
    requires id in t.rows && Keyed(t.rows[id], "tourapi", x)
    ensures Hidden(t, "tourapi", ids).rows[id] == if x in ids then t.rows[id].(visible := false) else t.rows[id]
  {
  }

  /** The first place of a full load is stored, not retired and not hidden. */
  lemma FirstPlaceStored(t: Table, a: Answers, order: seq<nat>, festivals: bool) returns (id: nat)
    requires Unique(t) && RowsOf(t, "tourapi", order) && !DayFails(a, true)
    ensures var x, next := Places(a, true)[0].contentId, Synced(t, "tourapi", DayItems(a, true, festivals), order, true);
      id in next.rows && Keyed(next.rows[id], "tourapi", x) && next.rows[id].isActive
  {
    var items, c := DayItems(a, true, festivals), Places(a, true)[0];
    PlaceIsItem(Places(a, true), c);
    assert PlaceItem(c) in items;
    StoredAfter(t, "tourapi", items, c.contentId);
    id :| id in AllUpserted(t, "tourapi", items).rows
          && Keyed(AllUpserted(t, "tourapi", items).rows[id], "tourapi", c.contentId);
    FullSyncActive(t, "tourapi", items, order, id);
  }

  /** A full load that works leaves at least one place in use and visible: no answer of the service empties
      the catalogue. */
  lemma FullLoadKeepsAPlace(t: Table, a: Answers, order: seq<nat>, festivals: bool) returns (id: nat)
    requires Unique(t) && RowsOf(t, "tourapi", order) && !DayFails(a, true)
    ensures var after := DayApplied(t, a, order, true, festivals);
      id in after.rows && after.rows[id].source == Some("tourapi") && after.rows[id].isActive && after.rows[id].visible
  {
    var c := Places(a, true)[0];
    assert c in Places(a, true) && c in Considered(a, true);
    id := FirstPlaceStored(t, a, order, festivals);
    FlagOfChange(Considered(a, true), c);
    HiddenIff(a, true, c.contentId);
    VisibleAfterDay(t, a, order, true, festivals, id, c.contentId);
  }
}
