/** Duplicate sports places across sources: one survivor for each name and area. */
module Deduplication {
  import opened Wrappers
  import opened Lists
  import opened ActivityTable

  /** Name normalisation, and the city or county found in an address ("" when there is none). */
  datatype Text = Text(normalize: string -> string, district: string -> string)

  datatype Place = Place(name: string, area: string)

  const SOURCE_PRIORITY: map<string, nat> := map[
    "tourapi" := 0, "durunubi" := 1, "gangwon_marine_facility" := 2,
    "gangwon_marine" := 3, "gangwon_oxygen_road" := 3, "gangwon_ski_golf" := 3]

  function DuplicateArea(text: Text, r: Row): string {
    if r.details.sigun.GetOr("") != "" then text.normalize(r.details.sigun.value)
    else
      var found := text.district(r.details.address.GetOr(""));
      if found != "" then text.normalize(found) else ""
  }

  /** The place a row stands for, when both its name and its area are known. */
  function PlaceOf(text: Text, r: Row): Option<Place> {
    var name, area := text.normalize(r.details.placeName.GetOr("")), DuplicateArea(text, r);
    if name != "" && area != "" then Some(Place(name, area)) else None
  }

  /** A row without a name, or without a city and a district in its address, stands for no place; a city
      given decides the area whatever the address says. */
  lemma PlaceMeans(text: Text, r: Row)
    ensures text.normalize(r.details.placeName.GetOr("")) == "" ==> PlaceOf(text, r).None?
    ensures var name, city := text.normalize(r.details.placeName.GetOr("")), r.details.sigun.GetOr("");
      var found := text.district(r.details.address.GetOr(""));
      && (city != "" && name != "" && text.normalize(city) != "" ==>
            PlaceOf(text, r) == Some(Place(name, text.normalize(city))))
      && (city == "" && found == "" ==> PlaceOf(text, r).None?)
      && (city == "" && found != "" && name != "" && text.normalize(found) != "" ==>
            PlaceOf(text, r) == Some(Place(name, text.normalize(found))))
  {
  }

  function Priority(r: Row): nat {
    if r.source.GetOr("") in SOURCE_PRIORITY then SOURCE_PRIORITY[r.source.GetOr("")] else 99
  }

  function Imageless(r: Row): nat {
    if r.image.GetOr("") != "" then 0 else 1
  }

  function Unlocated(r: Row): nat {
    if r.details.latitude.Some? && r.details.longitude.Some? then 0 else 1
  }

  /** Row `i` is kept rather than row `j`. */
  predicate Preferred(r: Row, i: nat, s: Row, j: nat) {
    if Priority(r) != Priority(s) then Priority(r) < Priority(s)
    else if Imageless(r) != Imageless(s) then Imageless(r) < Imageless(s)
    else if Unlocated(r) != Unlocated(s) then Unlocated(r) < Unlocated(s)
    else i < j
  }

  predicate Candidate(r: Row) {
    r.category == Sports && r.isActive && r.visible && r.source.Some?
  }

  function Candidates(t: Table): map<nat, Row> {
    map id | id in t.rows && Candidate(t.rows[id]) :: t.rows[id]
  }

  predicate Together(text: Text, rows: map<nat, Row>, i: nat, j: nat)
    requires i in rows && j in rows
  {
    PlaceOf(text, rows[i]).Some? && PlaceOf(text, rows[j]) == PlaceOf(text, rows[i])
  }

  /** A row gives way to another of its place: to any protected one, and when none is protected to a
      preferred one. */
  ghost predicate GivesWay(text: Text, rows: map<nat, Row>, protected: set<nat>, id: nat) {
    && id in rows && id !in protected
    && exists other :: other in rows && Together(text, rows, id, other)
                       && (other in protected || Preferred(rows[other], other, rows[id], id))
  }

  // ----- the algorithm -----

  predicate IdPreferred(rows: map<nat, Row>, i: nat, j: nat) {
    i in rows && j in rows && Preferred(rows[i], i, rows[j], j)
  }

  method Survivor(rows: map<nat, Row>, candidates: seq<nat>) returns (best: nat)
    requires candidates != [] && forall id :: id in candidates ==> id in rows
    ensures best in candidates
    ensures forall id :: id in candidates && id != best ==> IdPreferred(rows, best, id)
  {
    best := candidates[0];
    for i := 1 to |candidates|
      invariant best in candidates[..i]
      invariant forall id :: id in candidates[..i] && id != best ==> IdPreferred(rows, best, id)
    {
      assert candidates[..i + 1] == candidates[..i] + [candidates[i]];
      if IdPreferred(rows, candidates[i], best) {
        best := candidates[i];
      }
    }
    assert candidates[..|candidates|] == candidates;
  }

  ghost predicate Grouped(text: Text, rows: map<nat, Row>, ids: seq<nat>, groups: map<Place, seq<nat>>) {
    && (forall p, id :: p in groups && id in groups[p] ==>
          id in ids && id in rows && PlaceOf(text, rows[id]) == Some(p))
    && (forall id :: id in ids && id in rows && PlaceOf(text, rows[id]).Some? ==>
          PlaceOf(text, rows[id]).value in groups && id in groups[PlaceOf(text, rows[id]).value])
    && (forall p :: p in groups ==> groups[p] != [])
  }

  method GroupRows(text: Text, rows: map<nat, Row>, ids: seq<nat>) returns (groups: map<Place, seq<nat>>)
    requires forall id :: id in ids ==> id in rows
    ensures Grouped(text, rows, ids, groups)
  {
    groups := map[];
    for i := 0 to |ids|
      invariant Grouped(text, rows, ids[..i], groups)
    {
      assert ids[..i + 1] == ids[..i] + [ids[i]];
      var place := PlaceOf(text, rows[ids[i]]);
      if place.Some? {
        groups := groups[place.value := (if place.value in groups then groups[place.value] else []) + [ids[i]]];
      }
    }
    assert ids[..|ids|] == ids;
  }

  /** The group lists exactly the rows of the place. */
  ghost predicate GroupOf(text: Text, rows: map<nat, Row>, place: Place, group: seq<nat>) {
    forall id :: id in group <==> id in rows && PlaceOf(text, rows[id]) == Some(place)
  }

  lemma GroupIsPlace(text: Text, rows: map<nat, Row>, ids: seq<nat>, groups: map<Place, seq<nat>>, place: Place)
    requires Grouped(text, rows, ids, groups) && place in groups && forall id :: id in ids <==> id in rows
    ensures groups[place] != [] && GroupOf(text, rows, place, groups[place])
  {
  }

  /** The rows of one place that give way. */
  method GroupDuplicates(text: Text, rows: map<nat, Row>, group: seq<nat>, protected: set<nat>)
    returns (duplicates: set<nat>)
    requires group != [] && exists place :: GroupOf(text, rows, place, group)
    ensures forall id :: id in duplicates <==> id in group && GivesWay(text, rows, protected, id)
  {
    ghost var place :| GroupOf(text, rows, place, group);
    if |group| < 2 {
      assert group == [group[0]];
      return {};
    }
    var missions := Filter(group, (id: nat) => id in protected);
    var candidates := if missions != [] then missions else group;
    var survivor := Survivor(rows, candidates);
    duplicates := set id | id in group && id != survivor && id !in protected;
    forall other | other in group ensures other in missions <==> other in protected {}
    forall id | id in group && id !in protected
      ensures GivesWay(text, rows, protected, id) <==> id != survivor
    {
      SurvivorDecides(text, rows, place, group, protected, survivor, id);
    }
  }

  lemma SurvivorDecides(text: Text, rows: map<nat, Row>, place: Place, group: seq<nat>, protected: set<nat>,
                        survivor: nat, id: nat)
    requires GroupOf(text, rows, place, group) && id in group && survivor in group && id !in protected
    requires survivor in protected
      || forall other :: other in group ==>
           other !in protected && (other != survivor ==> IdPreferred(rows, survivor, other))
    ensures GivesWay(text, rows, protected, id) <==> id != survivor
  {
    assert Together(text, rows, id, survivor);
    assert survivor !in protected && id != survivor ==> IdPreferred(rows, survivor, id);
    assert survivor !in protected && id == survivor ==>
        forall other :: other in group && other != id ==> IdPreferred(rows, id, other);
  }

  /** Group the rows by place and collect what gives way; the order of the rows does not matter. */
  method DuplicateActivityIds(text: Text, rows: map<nat, Row>, ids: seq<nat>, protected: set<nat>)
    returns (duplicates: set<nat>)
    requires forall id :: id in ids <==> id in rows
    ensures forall id :: id in duplicates <==> GivesWay(text, rows, protected, id)
  {
    var groups := GroupRows(text, rows, ids);
    duplicates := {};
    var todo := groups.Keys;
    while todo != {}
      invariant todo <= groups.Keys
      invariant forall id :: id in duplicates <==>
        GivesWay(text, rows, protected, id) && PlaceOf(text, rows[id]).value !in todo
      decreases |todo|
    {
      var place :| place in todo;
      GroupIsPlace(text, rows, ids, groups, place);
      var more := GroupDuplicates(text, rows, groups[place], protected);
      duplicates := duplicates + more;
      todo := todo - {place};
    }
  }

  // ----- what is left -----

  lemma Leader(text: Text, rows: map<nat, Row>, first: nat) returns (best: nat)
    requires first in rows && PlaceOf(text, rows[first]).Some?
    ensures best in rows && Together(text, rows, first, best)
    ensures forall id :: id in rows && Together(text, rows, first, id) && id != best ==> IdPreferred(rows, best, id)
  {
    var group := set id | id in rows && Together(text, rows, first, id);
    assert first in group;
    best := LeastExists(group, (i: nat, j: nat) => IdPreferred(rows, i, j));
    forall id | id in rows && Together(text, rows, first, id) && id != best ensures IdPreferred(rows, best, id) {
      assert id in group;
    }
  }

  ghost predicate AnyProtected(text: Text, rows: map<nat, Row>, protected: set<nat>, first: nat)
    requires first in rows
  {
    exists k :: k in rows && k in protected && Together(text, rows, first, k)
  }

  lemma StaysIff(text: Text, rows: map<nat, Row>, protected: set<nat>, first: nat, best: nat, id: nat)
    requires first in rows && best in rows && Together(text, rows, first, best)
    requires forall k :: k in rows && Together(text, rows, first, k) && k != best ==> IdPreferred(rows, best, k)
    requires id in rows && Together(text, rows, first, id)
    ensures !GivesWay(text, rows, protected, id) <==>
      if AnyProtected(text, rows, protected, first) then id in protected else id == best
  {
    if AnyProtected(text, rows, protected, first) {
      var k :| k in rows && k in protected && Together(text, rows, first, k);
      assert Together(text, rows, id, k);
    } else if id == best {
      forall other | other in rows && Together(text, rows, best, other)
        ensures !Preferred(rows[other], other, rows[best], best)
      {
        assert Together(text, rows, first, other);
        assert other != best ==> IdPreferred(rows, best, other);
      }
    } else {
      assert Together(text, rows, id, best) && IdPreferred(rows, best, id);
    }
  }

  /** Of the rows of a place exactly the protected ones stay, or exactly one when none is protected. */
  lemma LeavesProtectedOrOne(text: Text, rows: map<nat, Row>, protected: set<nat>, first: nat) returns (best: nat)
    requires first in rows && PlaceOf(text, rows[first]).Some?
    ensures best in rows && Together(text, rows, first, best)
    ensures forall id :: id in rows && Together(text, rows, first, id) ==>
      (!GivesWay(text, rows, protected, id) <==>
        if AnyProtected(text, rows, protected, first) then id in protected else id == best)
    ensures !AnyProtected(text, rows, protected, first) ==>
      forall id :: id in rows && Together(text, rows, first, id) && id != best ==> IdPreferred(rows, best, id)
  {
    best := Leader(text, rows, first);
    forall id | id in rows && Together(text, rows, first, id)
      ensures !GivesWay(text, rows, protected, id) <==>
        if AnyProtected(text, rows, protected, first) then id in protected else id == best
    {
      StaysIff(text, rows, protected, first, best, id);
    }
  }

  /** From any part of the rows that still holds every row that stayed, the same rows stay again. */
  lemma SameSurvivors(text: Text, rows: map<nat, Row>, part: map<nat, Row>, protected: set<nat>, id: nat)
    requires forall k :: k in part ==> k in rows && part[k] == rows[k]
    requires forall k :: k in rows && !GivesWay(text, rows, protected, k) ==> k in part
    requires id in rows
    ensures id in part && !GivesWay(text, part, protected, id) <==> !GivesWay(text, rows, protected, id)
  {
    if GivesWay(text, rows, protected, id) && id in part {
      var best := LeavesProtectedOrOne(text, rows, protected, id);
      var keeper := best;
      if AnyProtected(text, rows, protected, id) {
        keeper :| keeper in rows && keeper in protected && Together(text, rows, id, keeper);
      }
      assert !GivesWay(text, rows, protected, keeper);
      assert keeper in part && Together(text, part, id, keeper);
      assert keeper in protected || IdPreferred(rows, keeper, id);
    }
    if !GivesWay(text, rows, protected, id) {
      forall other | other in part && Together(text, part, id, other) ensures Together(text, rows, id, other) {}
    }
  }

  /** The row preferred comes from a source no worse, then has an image if either has, then a location
      if either has, then the lower id. */
  lemma PreferredIsBest(rows: map<nat, Row>, best: nat, id: nat)
    requires IdPreferred(rows, best, id)
    ensures var r, s := rows[best], rows[id];
      && Priority(r) <= Priority(s)
      && (Priority(r) == Priority(s) ==>
            && (s.image.GetOr("") != "" ==> r.image.GetOr("") != "")
            && ((s.image.GetOr("") != "" <==> r.image.GetOr("") != "") ==>
                  && (s.details.latitude.Some? && s.details.longitude.Some? ==>
                        r.details.latitude.Some? && r.details.longitude.Some?)
                  && ((s.details.latitude.Some? && s.details.longitude.Some? <==>
                         r.details.latitude.Some? && r.details.longitude.Some?) ==> best < id)))
  {
  }

  /** The tourism service comes first, the trails second, the marine facilities third, the other files
      alike after them, and any other source last. */
  lemma SourcesRanked(r: Row, s: Row)
    requires r.source.Some? && s.source.Some?
    ensures r.source.value == "tourapi" && s.source.value != "tourapi" ==> Priority(r) < Priority(s)
    ensures r.source.value == "durunubi" && s.source.value !in {"tourapi", "durunubi"} ==> Priority(r) < Priority(s)
    ensures (r.source.value == "gangwon_marine_facility"
             && s.source.value !in {"tourapi", "durunubi", "gangwon_marine_facility"}) ==> Priority(r) < Priority(s)
    ensures var rest := {"gangwon_marine", "gangwon_oxygen_road", "gangwon_ski_golf"};
      && (r.source.value in rest && s.source.value in rest ==> Priority(r) == Priority(s))
      && (r.source.value in rest && s.source.value !in SOURCE_PRIORITY ==> Priority(r) < Priority(s))
  {
    assert SOURCE_PRIORITY.Keys == {"tourapi", "durunubi", "gangwon_marine_facility", "gangwon_marine",
                                    "gangwon_oxygen_road", "gangwon_ski_golf"};
  }
}
