/** Stored activities and their synchronisation with one source's items: full snapshots and deltas. */
module ActivityTable {
  import opened Wrappers

  datatype Category = Tour | Sports | Event

  datatype Details = Details(placeName: Option<string>, sigun: Option<string>, address: Option<string>,
                             latitude: Option<real>, longitude: Option<real>, endsAt: Option<int>)

  /** `visible` is what the upstream source says of the row, `isActive` whether the row is in use. */
  datatype Row = Row(source: Option<string>, externalId: Option<string>, category: Category,
                     sportName: Option<string>, summary: Option<string>, image: Option<string>,
                     details: Details, metadata: map<string, string>, isActive: bool, visible: bool)

  /** A key of an item's values may be missing. */
  datatype Given<T> = Absent | Given(value: T)

  datatype Item = Item(externalId: string, category: Category, sportName: Option<string>,
                       summary: Option<string>, image: Given<Option<string>>, details: Details,
                       metadata: map<string, string>, visible: Given<bool>)

  datatype Table = Table(rows: map<nat, Row>, nextId: nat)

  predicate Keyed(r: Row, source: string, x: string) {
    r.source == Some(source) && r.externalId == Some(x)
  }

  /** The schema's unique key on source and external id, which rows without an external id escape. */
  ghost predicate Unique(t: Table) {
    && (forall id :: id in t.rows ==> id < t.nextId)
    && (forall a, b, source, x ::
          a in t.rows && b in t.rows && Keyed(t.rows[a], source, x) && Keyed(t.rows[b], source, x) ==> a == b)
  }

  // ----- what one item writes -----

  const NOTES: set<string> := {"participation", "eventType", "officialSource", "curationSource"}
  const CAPTIONS: set<string> := {"imageCaption", "imageType"}

  predicate Truthy(metadata: map<string, string>, key: string) {
    key in metadata && metadata[key] != ""
  }

  function Metadata(previous: Option<Row>): map<string, string> {
    if previous.Some? then previous.value.metadata else map[]
  }

  /** A failed route lookup must not erase stored routes. */
  predicate KeepsRoutes(source: string, previous: Option<Row>, item: Item) {
    && source == "tourapi" && previous.Some?
    && Truthy(item.metadata, "hiking_lookup_failed") && Truthy(Metadata(previous), "hiking_routes")
  }

  function CategoryAfter(source: string, previous: Option<Row>, item: Item): Category {
    if KeepsRoutes(source, previous, item) then previous.value.category else item.category
  }

  predicate KeepsNotes(source: string, previous: Option<Row>, item: Item) {
    && source == "tourapi" && CategoryAfter(source, previous, item) == Event
    && "curationSource" in Metadata(previous) && Metadata(previous)["curationSource"] == "official_organizer"
  }

  predicate SameImage(previous: Option<Row>, item: Item) {
    item.image.Absent? || item.image.value == if previous.Some? then previous.value.image else None
  }

  /** The organizer's annotations; those about the image go with the image. */
  function Curated(previous: Option<Row>, item: Item): map<string, string> {
    var before := Metadata(previous);
    map key | key in before && (key in NOTES || (key in CAPTIONS && SameImage(previous, item))) :: before[key]
  }

  function MetadataAfter(source: string, previous: Option<Row>, item: Item): map<string, string> {
    if KeepsNotes(source, previous, item) then item.metadata + Curated(previous, item)
    else if KeepsRoutes(source, previous, item) then Metadata(previous) + item.metadata
    else item.metadata
  }

  function Written(source: string, previous: Option<Row>, item: Item): Row {
    var keeps := KeepsRoutes(source, previous, item);
    Row(Some(source), Some(item.externalId), CategoryAfter(source, previous, item),
        if keeps then previous.value.sportName else item.sportName,
        if keeps then previous.value.summary else item.summary,
        if item.image.Given? then item.image.value else if previous.Some? then previous.value.image else None,
        item.details, MetadataAfter(source, previous, item), true,
        if item.visible.Given? then item.visible.value else previous.None? || previous.value.visible)
  }

  // ----- a whole sync -----

  ghost predicate Stored(t: Table, source: string, x: string) {
    exists id :: id in t.rows && Keyed(t.rows[id], source, x)
  }

  ghost function IdOf(t: Table, source: string, x: string): nat
    requires Stored(t, source, x)
  {
    var id :| id in t.rows && Keyed(t.rows[id], source, x); id
  }

  ghost function Upserted(t: Table, source: string, item: Item): Table {
    var x := item.externalId;
    if Stored(t, source, x) then
      var id := IdOf(t, source, x);
      t.(rows := t.rows[id := Written(source, Some(t.rows[id]), item)])
    else Table(t.rows[t.nextId := Written(source, None, item)], t.nextId + 1)
  }

  ghost function AllUpserted(t: Table, source: string, items: seq<Item>): Table {
    if items == [] then t
    else Upserted(AllUpserted(t, source, items[..|items| - 1]), source, items[|items| - 1])
  }

  function Ids(items: seq<Item>): set<string> {
    set item | item in items :: item.externalId
  }

  predicate Retires(r: Row, id: nat, source: string, ids: set<string>, lastUnnamed: Option<nat>) {
    r.source == Some(source) && if r.externalId.Some? then r.externalId.value !in ids else lastUnnamed == Some(id)
  }

  /** Rows of the source missing from the snapshot leave use. Of the rows without an external id only
      the one read last is seen. */
  function Retired(t: Table, source: string, ids: set<string>, lastUnnamed: Option<nat>): Table {
    t.(rows := map id | id in t.rows ::
         if Retires(t.rows[id], id, source, ids, lastUnnamed) then t.rows[id].(isActive := false) else t.rows[id])
  }

  function LastUnnamed(t: Table, order: seq<nat>): Option<nat>
    requires forall id :: id in order ==> id in t.rows
  {
    if order == [] then None
    else
      var id := order[|order| - 1];
      if t.rows[id].externalId.None? then Some(id) else LastUnnamed(t, order[..|order| - 1])
  }

  ghost function Synced(t: Table, source: string, items: seq<Item>, order: seq<nat>, full: bool): Table
    requires forall id :: id in order ==> id in t.rows
  {
    var next := AllUpserted(t, source, items);
    if full then Retired(next, source, Ids(items), LastUnnamed(t, order)) else next
  }

  /** The rows of the source, in the order the database returns them. */
  ghost predicate RowsOf(t: Table, source: string, order: seq<nat>) {
    forall id :: id in order <==> id in t.rows && t.rows[id].source == Some(source)
  }

  class ActivityRepository {
    var t: Table

    constructor (t: Table)
      ensures this.t == t
    {
      this.t := t;
    }

    /** Look the source's rows up by external id; of the rows without one the last wins. */
    method Index(source: string, order: seq<nat>) returns (existing: map<Option<string>, nat>)
      requires RowsOf(t, source, order)
      ensures Indexed(t, source, existing) && Unnamed(existing) == LastUnnamed(t, order)
    {
      existing := map[];
      for i := 0 to |order|
        invariant forall k :: k in existing ==> existing[k] in order[..i] && t.rows[existing[k]].externalId == k
        invariant forall j :: 0 <= j < i ==> t.rows[order[j]].externalId in existing
        invariant Unnamed(existing) == LastUnnamed(t, order[..i])
      {
        assert order[..i + 1] == order[..i] + [order[i]];
        existing := existing[t.rows[order[i]].externalId := order[i]];
      }
      assert order[..|order|] == order;
    }

    /** Write one item to its row, or to a new one. */
    method Upsert(source: string, item: Item, existing: map<Option<string>, nat>)
      returns (existing': map<Option<string>, nat>)
      requires Unique(t) && Indexed(t, source, existing)
      modifies this
      ensures t == Upserted(old(t), source, item)
      ensures Unique(t) && Indexed(t, source, existing') && Unnamed(existing') == Unnamed(existing)
    {
      existing' := existing;
      UpsertUnique(t, source, item);
      if Some(item.externalId) in existing {
        var id := existing[Some(item.externalId)];
        assert Keyed(t.rows[id], source, item.externalId);
        assert id == IdOf(t, source, item.externalId);
        t := t.(rows := t.rows[id := Written(source, Some(t.rows[id]), item)]);
      } else {
        existing' := existing[Some(item.externalId) := t.nextId];
        t := Table(t.rows[t.nextId := Written(source, None, item)], t.nextId + 1);
      }
    }

    /** Take the indexed rows missing from the snapshot out of use. */
    method Retire(source: string, seen: set<string>, existing: map<Option<string>, nat>)
      requires Unique(t) && Indexed(t, source, existing)
      modifies this
      ensures t == Retired(old(t), source, seen, Unnamed(existing))
    {
      ghost var before := t;
      var todo := existing.Keys;
      NoneRetiredYet(t, source, existing, seen);
      while todo != {}
        invariant todo <= existing.Keys
        invariant t == PartlyRetired(before, source, seen, Unnamed(existing), todo)
        decreases |todo|
      {
        var key :| key in todo;
        RetireOne(before, source, existing, seen, todo, key);
        if key.None? || key.value !in seen {
          t := t.(rows := t.rows[existing[key] := t.rows[existing[key]].(isActive := false)]);
        }
        todo := todo - {key};
      }
    }

    /** Write the items in order, up to one without an external id. */
    method UpsertEach(source: string, items: seq<Item>, existing: map<Option<string>, nat>)
      returns (existing': map<Option<string>, nat>, seen: set<string>, named: bool)
      requires Unique(t) && Indexed(t, source, existing)
      modifies this
      ensures Unique(t) && named == ("" !in Ids(items))
      ensures named ==> t == AllUpserted(old(t), source, items) && seen == Ids(items)
      ensures named ==> Indexed(t, source, existing') && Unnamed(existing') == Unnamed(existing)
    {
      existing', seen, named := existing, {}, true;
      for i := 0 to |items|
        invariant Unique(t) && Indexed(t, source, existing') && Unnamed(existing') == Unnamed(existing)
        invariant t == AllUpserted(old(t), source, items[..i])
        invariant seen == Ids(items[..i]) && "" !in seen
      {
        if items[i].externalId == "" {
          assert items[i] in items;
          return existing', seen, false;
        }
        IdsOfMore(items[..i], items[i]);
        assert items[..i + 1] == items[..i] + [items[i]];
        assert items[..i + 1][..i] == items[..i];
        seen := seen + {items[i].externalId};
        existing' := Upsert(source, items[i], existing');
      }
      assert items[..|items|] == items;
    }

    /** Fails on an item without an external id; the caller then rolls back. */
    method SyncItems(source: string, items: seq<Item>, order: seq<nat>, full: bool) returns (count: Option<nat>)
      requires Unique(t) && RowsOf(t, source, order)
      modifies this
      ensures Unique(t)
      ensures count.None? <==> "" in Ids(items)
      ensures count.Some? ==> count.value == |items| && t == Synced(old(t), source, items, order, full)
    {
      var existing := Index(source, order);
      var seen, named;
      existing, seen, named := UpsertEach(source, items, existing);
      if !named {
        return None;
      }
      if full {
        RetiredUnique(t, source, seen, Unnamed(existing));
        Retire(source, seen, existing);
      }
      count := Some(|items|);
    }

    method HideUpstreamIds(source: string, ids: set<string>)
      modifies this
      ensures t == Hidden(old(t), source, ids)
    {
      t := t.(rows := map id | id in t.rows ::
                if t.rows[id].source == Some(source) && t.rows[id].externalId.Some?
                   && t.rows[id].externalId.value in ids
                then t.rows[id].(visible := false) else t.rows[id]);
    }
  }

  function Hidden(t: Table, source: string, ids: set<string>): Table {
    t.(rows := map id | id in t.rows ::
         if exists x :: x in ids && Keyed(t.rows[id], source, x) then t.rows[id].(visible := false) else t.rows[id])
  }

  /** The lookup built from the source's rows finds exactly its rows with an external id. */
  ghost predicate Indexed(t: Table, source: string, existing: map<Option<string>, nat>) {
    && (forall k :: k in existing ==> existing[k] in t.rows && t.rows[existing[k]].source == Some(source)
                                      && t.rows[existing[k]].externalId == k)
    && (forall x :: Stored(t, source, x) ==> Some(x) in existing)
  }

  function Unnamed(existing: map<Option<string>, nat>): Option<nat> {
    if None in existing then Some(existing[None]) else None
  }

  lemma RetiredUnique(t: Table, source: string, ids: set<string>, last: Option<nat>)
    requires Unique(t)
    ensures Unique(Retired(t, source, ids, last))
  {
    var t' := Retired(t, source, ids, last);
    assert forall id, s, x :: id in t'.rows && Keyed(t'.rows[id], s, x) ==> Keyed(t.rows[id], s, x);
  }

  lemma IdsOfMore(items: seq<Item>, item: Item)
    ensures Ids(items + [item]) == Ids(items) + {item.externalId}
  {
  }

  /** The retirement half done: the rows whose key is in `todo` are still to come. */
  function PartlyRetired(t: Table, source: string, ids: set<string>, last: Option<nat>,
                         todo: set<Option<string>>): Table
  {
    t.(rows := map id | id in t.rows ::
         if Retires(t.rows[id], id, source, ids, last) && t.rows[id].externalId !in todo
         then t.rows[id].(isActive := false) else t.rows[id])
  }

  lemma NoneRetiredYet(t: Table, source: string, existing: map<Option<string>, nat>, seen: set<string>)
    requires Indexed(t, source, existing)
    ensures PartlyRetired(t, source, seen, Unnamed(existing), existing.Keys) == t
  {
    forall id | id in t.rows && Retires(t.rows[id], id, source, seen, Unnamed(existing))
      ensures t.rows[id].externalId in existing
    {
      if t.rows[id].externalId.Some? {
        assert Keyed(t.rows[id], source, t.rows[id].externalId.value);
      }
    }
    assert PartlyRetired(t, source, seen, Unnamed(existing), existing.Keys).rows == t.rows;
  }

  lemma RetireOne(t: Table, source: string, existing: map<Option<string>, nat>, seen: set<string>,
                  todo: set<Option<string>>, key: Option<string>)
    requires Unique(t) && Indexed(t, source, existing) && key in existing && key in todo
    ensures var m := PartlyRetired(t, source, seen, Unnamed(existing), todo);
      var id := existing[key];
      PartlyRetired(t, source, seen, Unnamed(existing), todo - {key}) ==
      if key.None? || key.value !in seen then m.(rows := m.rows[id := m.rows[id].(isActive := false)]) else m
  {
    OnlyKey(t, source, existing, seen, key);
    var m := PartlyRetired(t, source, seen, Unnamed(existing), todo);
    var id := existing[key];
    var next := if key.None? || key.value !in seen then m.(rows := m.rows[id := m.rows[id].(isActive := false)]) else m;
    assert PartlyRetired(t, source, seen, Unnamed(existing), todo - {key}).rows == next.rows;
  }

  /** The key's row is retired exactly when the key is missing from the snapshot, and no other row has it. */
  lemma OnlyKey(t: Table, source: string, existing: map<Option<string>, nat>, seen: set<string>, key: Option<string>)
    requires Unique(t) && Indexed(t, source, existing) && key in existing
    ensures var id := existing[key];
      && t.rows[id].externalId == key
      && (Retires(t.rows[id], id, source, seen, Unnamed(existing)) <==> key.None? || key.value !in seen)
      && forall k ::
           k in t.rows && t.rows[k].externalId == key && Retires(t.rows[k], k, source, seen, Unnamed(existing)) ==>
             k == id
  {
    if key.Some? {
      assert Keyed(t.rows[existing[key]], source, key.value);
      assert forall k :: k in t.rows && t.rows[k].source == Some(source) && t.rows[k].externalId == key ==>
          Keyed(t.rows[k], source, key.value);
    }
  }

  lemma UpsertUnique(t: Table, source: string, item: Item)
    requires Unique(t)
    ensures Unique(Upserted(t, source, item))
  {
  }
}
