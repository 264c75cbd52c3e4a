/** Which activities discovery shows: rows inside the province, less duplicates of a verified place. */
module Discovery {
  import opened Wrappers
  import opened Lists
  import opened ActivityTable

  const PROVINCES: set<string> := {
    "서울", "서울특별시", "부산", "부산광역시", "대구", "대구광역시", "인천", "인천광역시", "광주", "광주광역시",
    "대전", "대전광역시", "울산", "울산광역시", "세종", "세종특별자치시", "경기", "경기도", "충북", "충남",
    "충청북도", "충청남도", "전북", "전북특별자치도", "전남", "전라북도", "전라남도", "경북", "경남", "경상북도",
    "경상남도", "제주", "제주특별자치도", "제주도"}

  const DISTRICTS: set<string> := {
    "춘천시", "원주시", "강릉시", "동해시", "태백시", "속초시", "삼척시", "홍천군", "횡성군",
    "영월군", "평창군", "정선군", "철원군", "화천군", "양구군", "인제군", "고성군", "양양군"}

  const PREFIXES: seq<string> := ["강월특별자치도", "강원특별자치도", "강원도"]

  /** Verified spellings, each with the name its place goes by. */
  const CANONICAL: map<string, string> := map[
    "리틀코브" := "리틀코브", "양양서핑리틀코브" := "리틀코브",
    "모쿠서프" := "모쿠서프", "양양서핑모쿠서프" := "모쿠서프",
    "포이푸" := "포이푸", "포이푸서프" := "포이푸",
    "이스트사이드" := "이스트사이드", "이스트사이드서프" := "이스트사이드",
    "포인트브레이크" := "포인트브레이크", "포인트브레이크서프하우스" := "포인트브레이크",
    "서프스타" := "서프스타", "서프스타(Surfstar)" := "서프스타"]

  // ----- text -----

  predicate IsSpace(c: char) {
    c in " \t\n\r\U{0B}\U{0C}"
  }

  predicate IsDigit(c: char) {
    '0' <= c <= '9'
  }

  predicate Numbered(s: string) {
    exists i :: 0 <= i < |s| && IsDigit(s[i])
  }

  function TrimLeft(s: string): string {
    if s != "" && s[0] == ' ' then TrimLeft(s[1..]) else s
  }

  function TrimRight(s: string): string {
    if s != "" && s[|s| - 1] == ' ' then TrimRight(s[..|s| - 1]) else s
  }

  function Trim(s: string): string {
    TrimRight(TrimLeft(s))
  }

  /** Remove every occurrence of `p`, from the left. */
  function Erase(s: string, p: string): string
    decreases |s|
  {
    if p == "" || |s| < |p| then s
    else if s[..|p|] == p then Erase(s[|p|..], p)
    else [s[0]] + Erase(s[1..], p)
  }

  function Compact(s: string): string {
    Erase(s, " ")
  }

  function AddressKey(address: Option<string>): string {
    var bare := Erase(Erase(Erase(address.GetOr(""), PREFIXES[0]), PREFIXES[1]), PREFIXES[2]);
    Erase(Erase(bare, " "), "\t")
  }

  /** A name with its province's suffix or not, then the end or white space. */
  predicate OtherProvince(address: string) {
    exists p :: p in PROVINCES && StartsWith(address, p)
  }

  predicate StartsWith(address: string, p: string) {
    |p| <= |address| && address[..|p|] == p && (|address| == |p| || IsSpace(address[|p|]))
  }

  predicate IsHangul(c: char) {
    '가' <= c <= '힣'
  }

  predicate NamesDistrict(s: string) {
    |s| >= 2 && (s[|s| - 1] == '시' || s[|s| - 1] == '군') && forall i :: 0 <= i < |s| ==> IsHangul(s[i])
  }

  // ----- the filter -----

  predicate Outside(r: Row) {
    var address, district := Trim(r.details.address.GetOr("")), Trim(r.details.sigun.GetOr(""));
    OtherProvince(address) || (NamesDistrict(district) && district !in DISTRICTS)
  }

  function NameKey(name: string): string {
    if Compact(name) in CANONICAL then CANONICAL[Compact(name)] else Compact(name)
  }

  /** Equality of columns: nothing equals a missing value. */
  predicate SamePlace(r: Row, s: Row) {
    && r.details.placeName.Some? && s.details.placeName.Some?
    && NameKey(r.details.placeName.value) == NameKey(s.details.placeName.value)
    && r.details.sigun.Some? && r.details.sigun == s.details.sigun
    && AddressKey(r.details.address) == AddressKey(s.details.address)
  }

  datatype View = View(rows: map<nat, Row>, stamped: set<nat>, now: int)
  {
    predicate Available(id: nat) {
      id in rows && rows[id].isActive && rows[id].visible
      && (rows[id].details.endsAt.None? || rows[id].details.endsAt.value >= now)
    }

    predicate Place(id: nat) {
      Available(id) && rows[id].category == Sports
    }
  }

  function Rank(r: Row): nat {
    if r.source == Some("gangwon_marine_facility") then 0 else 1
  }

  /** Stamped rows first, then the facility source, then the lowest id. */
  predicate Preferred(v: View, i: nat, j: nat) {
    && i in v.rows && j in v.rows
    && if (i in v.stamped) != (j in v.stamped) then i in v.stamped
       else if Rank(v.rows[i]) != Rank(v.rows[j]) then Rank(v.rows[i]) < Rank(v.rows[j])
       else i < j
  }

  predicate Verified(r: Row) {
    && r.category == Sports
    && r.details.placeName.Some? && Compact(r.details.placeName.value) in CANONICAL
    && Numbered(Trim(r.details.address.GetOr("")))
  }

  predicate Duplicate(v: View, id: nat)
    requires id in v.rows
  {
    Verified(v.rows[id])
    && exists other :: other in v.rows && other != id && v.Place(other) && SamePlace(v.rows[other], v.rows[id])
                       && Preferred(v, other, id)
  }

  predicate Shown(v: View, id: nat) {
    v.Available(id) && !Outside(v.rows[id]) && !Duplicate(v, id)
  }

  // ----- classes of the same verified place -----

  /** Rows discovery considers the same place as `id`. */
  ghost function Class(v: View, id: nat): set<nat>
    requires id in v.rows
  {
    set k | k in v.rows && v.Place(k) && SamePlace(v.rows[k], v.rows[id])
  }

  ghost predicate Classified(v: View, id: nat) {
    v.Place(id) && Verified(v.rows[id]) && v.rows[id].details.sigun.Some?
  }

  lemma {:induction false} EraseKeepsDigits(s: string, p: string)
    requires !Numbered(p)
    ensures Numbered(Erase(s, p)) <==> Numbered(s)
    decreases |s|
  {
    if p != "" && |s| >= |p| {
      if s[..|p|] == p {
        EraseKeepsDigits(s[|p|..], p);
        assert s == p + s[|p|..];
        NumberedConcat(p, s[|p|..]);
      } else {
        EraseKeepsDigits(s[1..], p);
        assert s == [s[0]] + s[1..];
        NumberedConcat([s[0]], s[1..]);
        NumberedConcat([s[0]], Erase(s[1..], p));
      }
    }
  }

  lemma NumberedConcat(a: string, b: string)
    ensures Numbered(a + b) <==> Numbered(a) || Numbered(b)
  {
    if i :| 0 <= i < |a| && IsDigit(a[i]) {
      assert (a + b)[i] == a[i];
    }
    if i :| 0 <= i < |b| && IsDigit(b[i]) {
      assert (a + b)[|a| + i] == b[i];
    }
  }

  lemma {:induction false} TrimLeftKeepsDigits(s: string)
    ensures Numbered(TrimLeft(s)) <==> Numbered(s)
  {
    if s != "" && s[0] == ' ' {
      TrimLeftKeepsDigits(s[1..]);
      assert s == [s[0]] + s[1..];
      NumberedConcat([s[0]], s[1..]);
    }
  }

  lemma {:induction false} TrimRightKeepsDigits(s: string)
    ensures Numbered(TrimRight(s)) <==> Numbered(s)
  {
    if s != "" && s[|s| - 1] == ' ' {
      TrimRightKeepsDigits(s[..|s| - 1]);
      assert s == s[..|s| - 1] + [s[|s| - 1]];
      NumberedConcat(s[..|s| - 1], [s[|s| - 1]]);
    }
  }

  lemma KeyKeepsDigits(address: Option<string>)
    ensures Numbered(AddressKey(address)) <==> Numbered(Trim(address.GetOr("")))
  {
    var s := address.GetOr("");
    TrimLeftKeepsDigits(s);
    TrimRightKeepsDigits(TrimLeft(s));
    EraseKeepsDigits(s, PREFIXES[0]);
    EraseKeepsDigits(Erase(s, PREFIXES[0]), PREFIXES[1]);
    EraseKeepsDigits(Erase(Erase(s, PREFIXES[0]), PREFIXES[1]), PREFIXES[2]);
    var bare := Erase(Erase(Erase(s, PREFIXES[0]), PREFIXES[1]), PREFIXES[2]);
    EraseKeepsDigits(bare, " ");
    EraseKeepsDigits(Erase(bare, " "), "\t");
  }

  /** A row of the same place as a classified one is classified itself. */
  lemma ClassIsClassified(v: View, id: nat, k: nat)
    requires Classified(v, id) && k in Class(v, id)
    ensures Classified(v, k)
  {
    KeyKeepsDigits(v.rows[id].details.address);
    KeyKeepsDigits(v.rows[k].details.address);
    CanonicalName(Compact(v.rows[id].details.placeName.value), Compact(v.rows[k].details.placeName.value));
  }

  lemma CanonicalName(a: string, b: string)
    requires a in CANONICAL && CANONICAL[a] == if b in CANONICAL then CANONICAL[b] else b
    ensures b in CANONICAL
  {
    assert forall name :: name in CANONICAL ==> CANONICAL[name] in CANONICAL;
  }

  ghost predicate Leads(v: View, id: nat, best: nat)
    requires id in v.rows
  {
    best in Class(v, id) && forall k :: k in Class(v, id) && k != best ==> Preferred(v, best, k)
  }

  /** The leader has a stamp if any row of the class has, then comes from the facility source if any such
      row does, then has the lowest id. */
  lemma LeaderIsBest(v: View, id: nat, best: nat, k: nat)
    requires id in v.rows && Leads(v, id, best) && k in Class(v, id) && k != best
    ensures k in v.stamped ==> best in v.stamped
    ensures (k in v.stamped <==> best in v.stamped) ==>
      var facility := Some("gangwon_marine_facility");
      && (v.rows[k].source == facility ==> v.rows[best].source == facility)
      && ((v.rows[k].source == facility <==> v.rows[best].source == facility) ==> best < k)
  {
    assert Preferred(v, best, k);
  }

  lemma Leader(v: View, id: nat) returns (best: nat)
    requires Classified(v, id)
    ensures Leads(v, id, best)
  {
    assert id in Class(v, id);
    best := LeastExists(Class(v, id), (i: nat, j: nat) => Preferred(v, i, j));
  }

  /** A row of the class is shown exactly when it leads the class and lies inside the province. */
  lemma ShownIff(v: View, id: nat, best: nat, k: nat)
    requires Classified(v, id) && Leads(v, id, best) && k in Class(v, id)
    ensures Shown(v, k) <==> k == best && !Outside(v.rows[k])
  {
    ClassIsClassified(v, id, k);
    if k != best {
      assert SamePlace(v.rows[best], v.rows[k]) && Preferred(v, best, k);
    } else {
      forall other | other in v.rows && other != k && v.Place(other) && SamePlace(v.rows[other], v.rows[k])
        ensures !Preferred(v, other, k)
      {
        assert other in Class(v, id);
        assert Preferred(v, k, other);
      }
    }
  }

  /** Exactly one row of a class is shown when its leader lies inside the province, and none when not. */
  lemma OneShownIff(v: View, id: nat) returns (best: nat)
    requires Classified(v, id)
    ensures Leads(v, id, best)
    ensures (exists k :: k in Class(v, id) && Shown(v, k)) <==> !Outside(v.rows[best])
    ensures forall k :: k in Class(v, id) && Shown(v, k) ==> k == best
  {
    best := Leader(v, id);
    forall k | k in Class(v, id) ensures Shown(v, k) <==> k == best && !Outside(v.rows[k]) {
      ShownIff(v, id, best, k);
    }
  }

  /** No other row is dropped as a duplicate. */
  lemma OthersStay(v: View, id: nat)
    requires v.Available(id) && !Classified(v, id)
    ensures Shown(v, id) <==> !Outside(v.rows[id])
  {
  }

  /** Two spellings of one address, only one of which reads as another province: the leader hides its
      twin and is itself outside, so discovery shows neither. */
  lemma PlaceDisappears() returns (v: View, id: nat)
    ensures Classified(v, id) && !Outside(v.rows[id])
    ensures forall k :: k in Class(v, id) ==> !Shown(v, k)
  {
    var r, s := Twins();
    v, id := View(map[1 := r, 2 := s], {}, 0), 2;
    LeaderOutside(v, r, s);
  }

  lemma Twins() returns (r: Row, s: Row)
    ensures Outside(r) && !Outside(s) && Verified(s) && SamePlace(r, s) && SamePlace(s, s)
    ensures Rank(r) == Rank(s) && r.category == s.category == Sports
    ensures r.isActive && r.visible && s.isActive && s.visible
    ensures r.details.endsAt.None? && s.details.endsAt.None?
  {
    SpacedIsOutside();
    JoinedIsInside();
    TwinsOfOnePlace();
    r, s := At("서울 1"), At("서울1");
  }

  lemma LeaderOutside(v: View, r: Row, s: Row)
    requires v.rows == map[1 := r, 2 := s] && v.stamped == {} && v.Place(1) && v.Place(2) && Rank(r) == Rank(s)
    requires Outside(r) && Verified(s) && SamePlace(r, s) && SamePlace(s, s)
    ensures Classified(v, 2) && forall k :: k in Class(v, 2) ==> !Shown(v, k)
  {
    assert Leads(v, 2, 1);
    forall k | k in Class(v, 2) ensures !Shown(v, k) {
      ShownIff(v, 2, 1, k);
    }
  }

  lemma TwinsOfOnePlace()
    ensures Verified(At("서울1")) && SamePlace(At("서울 1"), At("서울1")) && SamePlace(At("서울1"), At("서울1"))
  {
    SameKeys();
    NameIsVerified();
    JoinedIsInside();
    assert IsDigit("서울1"[2]);
  }

  function At(address: string): Row {
    Row(Some("tourapi"), Some("1"), Sports, None, None, None,
        Details(Some("포이푸"), Some("양양군"), Some(address), None, None, None), map[], true, true)
  }

  lemma NameIsVerified()
    ensures Compact("포이푸") == "포이푸" && Trim("양양군") == "양양군"
  {
    assert Erase("푸", " ") == "푸";
    assert Erase("이푸", " ") == "이푸";
    assert TrimLeft("양양군") == "양양군";
  }

  lemma SpacedIsOutside()
    ensures Trim("서울 1") == "서울 1" && Outside(At("서울 1"))
  {
    assert TrimLeft("서울 1") == "서울 1";
    assert "서울" in PROVINCES && "서울 1"[..2] == "서울" && IsSpace("서울 1"[2]);
  }

  lemma JoinedIsInside()
    ensures Trim("서울1") == "서울1" && !Outside(At("서울1"))
  {
    assert TrimLeft("서울1") == "서울1";
    NameIsVerified();
    assert "양양군" in DISTRICTS;
    InsideByLastLetter("서울1");
  }

  lemma InsideByLastLetter(address: string)
    requires |address| == 3 && address[2] == '1' && !IsSpace(address[0]) && !IsSpace(address[1])
    ensures !OtherProvince(address)
  {
    forall p | p in PROVINCES ensures !StartsWith(address, p) {
      NoDigitThird(p);
      NoStart(address, p);
    }
  }

  lemma NoStart(address: string, p: string)
    requires |address| == 3 && address[2] == '1' && !IsSpace(address[0]) && !IsSpace(address[1])
    requires |p| >= 3 ==> p[2] != '1'
    ensures !StartsWith(address, p)
  {
    if |p| == 3 {
      assert address[..3][2] == '1';
    }
  }

  lemma NoDigitThird(p: string)
    requires p in PROVINCES
    ensures |p| >= 3 ==> p[2] != '1'
  {
  }

  lemma SameKeys()
    ensures AddressKey(Some("서울 1")) == AddressKey(Some("서울1"))
  {
    ShortStays("서울 1");
    ShortStays("서울1");
    assert Erase("1", " ") == "1";
    assert Erase(" 1", " ") == "1";
    assert Erase("울 1", " ") == "울1";
    assert Erase("서울 1", " ") == "서울1";
    assert Erase("울1", " ") == "울1";
    assert Erase("서울1", " ") == "서울1";
  }

  /** Text shorter than four characters, or other than the last prefix, keeps every prefix out. */
  lemma ShortStays(s: string)
    requires |s| <= 4 && forall i :: 0 <= i < |s| ==> s[i] != '강'
    ensures Erase(Erase(Erase(s, PREFIXES[0]), PREFIXES[1]), PREFIXES[2]) == s
  {
    NotThere(s, PREFIXES[0]);
    NotThere(s, PREFIXES[1]);
    NotThere(s, PREFIXES[2]);
  }

  lemma {:induction false} NotThere(s: string, p: string)
    requires p != "" && forall i :: 0 <= i < |s| ==> s[i] != p[0]
    ensures Erase(s, p) == s
    decreases |s|
  {
    if |s| >= |p| {
      assert s[..|p|][0] == s[0];
      NotThere(s[1..], p);
    }
  }
}
