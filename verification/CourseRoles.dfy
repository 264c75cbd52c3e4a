/** Places that can be recommended, the purpose each one serves in a day trip,
    and how long a visit takes. */
module CourseRoles {
  datatype Category = Tour | Sports | Event

  datatype Purpose = Experience | Meal | Rest | Sightseeing

  /** The `duration_minutes` metadata entry: absent, an integer, or something `int()` rejects. */
  datatype Duration = Unstated | Stated(minutes: int) | Unreadable

  datatype Coordinates = Unlocated | Located(latitude: real, longitude: real)

  /** `sport` is the lower-cased sport name, empty when there is none;
      `contentType` and `cat3` are the metadata entries as text. */
  datatype Activity = Activity(
    id: int,
    category: Category,
    sport: string,
    placeName: string,
    contentType: string,
    cat3: string,
    duration: Duration,
    place: Coordinates,
    region: string,
    sigun: string,
    dated: bool,
    themeMatch: bool)

  const FOOD_CONTENT := "39"
  const CAFE_CATEGORY := "A05020900"
  const EXPERIENCE_SPORTS := {"golf", "골프", "surfing", "marine", "ski", "rafting", "kayak", "skiing"}

  predicate Contains(text: string, word: string) {
    word <= text || (text != "" && Contains(text[1..], word))
  }

  function Role(a: Activity): Purpose {
    if a.contentType == FOOD_CONTENT then
      if Contains(a.placeName, "카페") || Contains(a.placeName, "커피") || a.cat3 == CAFE_CATEGORY then Rest
      else Meal
    else if a.category == Sports || a.sport in EXPERIENCE_SPORTS then Experience
    else Sightseeing
  }

  function CategoryMinutes(c: Category): int {
    match c
    case Tour => 45
    case Sports => 90
    case Event => 60
  }

  function DefaultMinutes(a: Activity): int {
    match Role(a)
    case Meal => 60
    case Rest => 30
    case Sightseeing => CategoryMinutes(a.category)
    case Experience =>
      if a.sport in {"golf", "골프"} then 240
      else if a.sport in {"marine", "surfing", "서핑"} then 120
      else CategoryMinutes(a.category)
  }

  function Minutes(a: Activity): (m: int)
    ensures m >= 1
  {
    match a.duration
    case Unstated => DefaultMinutes(a)
    case Stated(n) => if n < 1 then 1 else n
    case Unreadable => 60
  }

  /** Lodging (32), shopping (38) and undated festivals (15) are never recommended. */
  predicate Recommendable(a: Activity) {
    a.contentType !in {"32", "38"} && !(a.contentType == "15" && !a.dated)
  }

  /** Food is a rest in a café and a meal elsewhere; of the rest, sports are the experience. */
  lemma RoleIff(a: Activity)
    ensures var cafe := Contains(a.placeName, "카페") || Contains(a.placeName, "커피") || a.cat3 == "A05020900";
      && (Role(a) == Rest <==> a.contentType == "39" && cafe)
      && (Role(a) == Meal <==> a.contentType == "39" && !cafe)
    ensures Role(a) == Experience <==>
      && a.contentType != "39"
      && (a.category == Sports
          || a.sport in {"golf", "골프", "surfing", "marine", "ski", "rafting", "kayak", "skiing"})
  {
  }

  /** How long a visit takes when the place does not say: a round of golf four hours, water sports two, a
      meal one, a rest half an hour, and otherwise by category. */
  lemma UsualStay(a: Activity)
    requires a.duration.Unstated?
    ensures Role(a) == Meal ==> Minutes(a) == 60
    ensures Role(a) == Rest ==> Minutes(a) == 30
    ensures Role(a) == Experience && a.sport in {"golf", "골프"} ==> Minutes(a) == 240
    ensures Role(a) == Experience && a.sport in {"marine", "surfing", "서핑"} ==> Minutes(a) == 120
    ensures a.contentType != "39" && a.sport !in {"golf", "골프", "marine", "surfing", "서핑"} ==>
      Minutes(a) == if a.category == Sports then 90 else if a.category == Event then 60 else 45
  {
  }

  function Ids(items: seq<Activity>): set<int> {
    set a | a in items :: a.id
  }

  ghost predicate DistinctIds(items: seq<Activity>) {
    forall i, j :: 0 <= i < j < |items| ==> items[i].id != items[j].id
  }
}
