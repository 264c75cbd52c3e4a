/** One run of the synchronisation: the days the tourism service is behind, the file sources, and the
    removal of duplicates. Each step is committed on its own. */
module SyncRun {
  import opened Wrappers
  import opened Chains
  import opened ActivityTable
  import opened ActivitySync
  import opened TourApi
  import opened Deduplication

  datatype SyncState = SyncState(lastDay: Option<int>, count: Option<nat>, error: bool)

  /** How storing a step ends: committed, failed and rolled back, or the process stopped before. */
  datatype Outcome = Works | Fails | Stops

  /** What the service answers for a day, if it can be reached. */
  datatype Day = Day(answers: Option<Answers>, outcome: Outcome)

  /** A file source and its snapshot, if it could be fetched and read. */
  datatype Feed = Feed(name: string, items: Option<seq<Item>>, outcome: Outcome)

  datatype Upstream = Upstream(target: int, day: int -> Day, feeds: seq<Feed>, mountains: Outcome,
                               text: Text, protected: set<nat>, duplicates: Outcome)

  const TOURAPI := "tourapi"
  const DUPLICATES := "duplicates"

  /** A day of the tourism service, applied as a full load or as changes. */
  datatype Entry = Entry(day: int, full: bool)

  /** The days applied so far, the latest outermost. */
  datatype Log = Start | Then(before: Log, entry: Entry)

  /** Each next day follows the one before, only the first is a full load, the last is the watermark. */
  ghost predicate Chronicle(applied: Log, watermark: Option<int>) {
    match applied
    case Start => watermark.None?
    case Then(before, e) =>
      && watermark == Some(e.day)
      && (e.full <==> before.Start?)
      && Chronicle(before, if before.Start? then None else Some(e.day - 1))
  }

  function Entries(applied: Log): seq<Entry> {
    match applied
    case Start => []
    case Then(before, e) => Entries(before) + [e]
  }

  /** Every history is one full load followed by changes, a day at a time, without gap or repetition. */
  lemma {:induction false} ChronicleIsContiguous(applied: Log, watermark: Option<int>)
    requires Chronicle(applied, watermark)
    ensures var entries := Entries(applied);
      && (watermark.None? <==> entries == [])
      && (forall i :: 0 <= i < |entries| ==>
            (entries[i].full <==> i == 0) && entries[i].day == watermark.value - (|entries| - 1 - i))
  {
    if applied.Then? {
      ChronicleIsContiguous(applied.before, if applied.before.Start? then None else Some(applied.entry.day - 1));
    }
  }

  function Watermark(states: map<string, SyncState>): Option<int> {
    if TOURAPI in states then states[TOURAPI].lastDay else None
  }

  predicate Erred(states: map<string, SyncState>) {
    TOURAPI in states && states[TOURAPI].error
  }

  function WithError(states: map<string, SyncState>, source: string): map<string, SyncState> {
    states[source := if source in states then states[source].(error := true) else SyncState(None, None, true)]
  }

  ghost predicate SyncedTo(t: Table, source: string, items: seq<Item>, t': Table) {
    exists order :: RowsOf(t, source, order) && t' == Synced(t, source, items, order, true)
  }

  ghost predicate DayTo(t: Table, a: Answers, full: bool, festivals: bool, t': Table) {
    && !DayFails(a, full)
    && exists order :: RowsOf(t, TOURAPI, order) && t' == DayApplied(t, a, order, full, festivals)
  }

  /** Festivals are asked for with a full load and on the last day. */
  predicate WithFestivals(u: Upstream, e: Entry) {
    e.full || e.day == u.target
  }

  ghost predicate EntryTo(t: Table, u: Upstream, e: Entry, t': Table) {
    u.day(e.day).answers.Some? && DayTo(t, u.day(e.day).answers.value, e.full, WithFestivals(u, e), t')
  }

  ghost function EntryStep(u: Upstream): (Table, Entry, Table) -> bool {
    (t: Table, e: Entry, t': Table) => EntryTo(t, u, e, t')
  }

  /** The log grows from `base` while the table goes from `t0` to `t`, each new entry by one step. */
  ghost predicate Grows(step: (Table, Entry, Table) -> bool, base: Log, t0: Table, applied: Log, t: Table) {
    || (applied == base && t == t0)
    || (applied.Then? && exists m :: Grows(step, base, t0, applied.before, m) && step(m, applied.entry, t))
  }

  lemma GrowsMore(step: (Table, Entry, Table) -> bool, base: Log, t0: Table, applied: Log, m: Table, e: Entry,
                  t: Table)
    requires Grows(step, base, t0, applied, m) && step(m, e, t)
    ensures Grows(step, base, t0, Then(applied, e), t)
  {
  }

  // ----- which days of a run work -----

  /** The day to apply next: the one after the watermark, or the target when there is none. */
  function NextDay(watermark: Option<int>, target: int): int {
    if watermark.Some? then watermark.value + 1 else target
  }

  /** The service answers for the day, its lists are sound, and they can be stored. */
  ghost predicate DayWorks(u: Upstream, e: Entry) {
    var day := u.day(e.day);
    day.outcome.Works? && day.answers.Some? && !DayFails(day.answers.value, e.full)
  }

  /** How many items a day that works stores. */
  function ItemCount(u: Upstream, e: Entry): nat {
    var answers := u.day(e.day).answers;
    if answers.Some? then |DayItems(answers.value, e.full, WithFestivals(u, e))| else 0
  }

  /** The days of a run up to, but not including, `day` work. */
  ghost predicate WorksUpTo(u: Upstream, watermark: Option<int>, day: int) {
    forall d :: NextDay(watermark, u.target) <= d < day ==> DayWorks(u, Entry(d, watermark.None?))
  }

  ghost predicate CatchesUp(u: Upstream, watermark: Option<int>) {
    WorksUpTo(u, watermark, u.target + 1)
  }

  /** The process stops at the first day of the run that does not work. */
  ghost predicate StopsAt(u: Upstream, watermark: Option<int>, day: int) {
    && NextDay(watermark, u.target) <= day <= u.target
    && WorksUpTo(u, watermark, day) && u.day(day).outcome.Stops?
  }

  ghost predicate DaysStop(u: Upstream, watermark: Option<int>) {
    exists day :: StopsAt(u, watermark, day)
  }

  /** The watermark stands before the first day that does not work, or at the target. */
  ghost predicate Arrives(u: Upstream, watermark: Option<int>, reached: Option<int>) {
    var next := NextDay(reached, u.target);
    && NextDay(watermark, u.target) <= next && (reached == watermark || next <= u.target + 1)
    && WorksUpTo(u, watermark, next) && (next <= u.target ==> !DayWorks(u, Entry(next, watermark.None?)))
  }

  /** From `watermark` the run has come to `reached`, and `day` is next. */
  ghost predicate Underway(u: Upstream, watermark: Option<int>, reached: Option<int>, day: int) {
    && day == NextDay(reached, u.target) && NextDay(watermark, u.target) <= day && WorksUpTo(u, watermark, day)
    && (reached == watermark ||
        (reached.Some? && day <= u.target + 1 && (watermark.None? ==> day == u.target + 1)))
  }

  /** The days before `day` have been applied to `t0`, the log grown from `base`. */
  ghost predicate Applied(u: Upstream, watermark: Option<int>, base: Log, t0: Table, reached: Option<int>, log: Log,
                          t: Table, day: int)
  {
    && Underway(u, watermark, reached, day) && Grows(EntryStep(u), base, t0, log, t)
    && (reached == watermark ==> log == base && t == t0)
  }

  lemma OneMoreDay(u: Upstream, watermark: Option<int>, base: Log, t0: Table, reached: Option<int>, log: Log,
                   m: Table, day: int, t: Table)
    requires Applied(u, watermark, base, t0, reached, log, m, day) && day <= u.target
    requires DayWorks(u, Entry(day, watermark.None?)) && EntryTo(m, u, Entry(day, watermark.None?), t)
    ensures Applied(u, watermark, base, t0, Some(day), Then(log, Entry(day, watermark.None?)), t, day + 1)
    ensures Some(day) != watermark
  {
    GrowsMore(EntryStep(u), base, t0, log, m, Entry(day, watermark.None?), t);
  }

  /** How the days end once `day` has failed, or is past the target. */
  lemma DaysEnd(u: Upstream, watermark: Option<int>, reached: Option<int>, day: int, outcome: Outcome)
    requires Underway(u, watermark, reached, day)
    requires if outcome.Works? then day > u.target else day <= u.target && !DayWorks(u, Entry(day, watermark.None?))
    requires !outcome.Works? ==> (outcome.Stops? <==> u.day(day).outcome.Stops?)
    ensures outcome.Works? <==> CatchesUp(u, watermark)
    ensures outcome.Stops? <==> DaysStop(u, watermark)
    ensures Arrives(u, watermark, reached)
  {
    if outcome.Stops? {
      assert StopsAt(u, watermark, day);
    }
    forall d | StopsAt(u, watermark, d) ensures outcome.Stops? {
      assert !DayWorks(u, Entry(d, watermark.None?));
      assert d == day;
    }
  }

  predicate Named(items: seq<Item>) {
    forall item :: item in items ==> item.externalId != "" && item.details.placeName.GetOr("") != ""
  }

  function ExternalIds(items: seq<Item>): (ids: seq<string>)
    ensures |ids| == |items| && forall i :: 0 <= i < |ids| ==> ids[i] == items[i].externalId
  {
    seq(|items|, i requires 0 <= i < |items| => items[i].externalId)
  }

  ghost predicate Distinct(items: seq<Item>) {
    forall i, j :: 0 <= i < j < |items| ==> items[i].externalId != items[j].externalId
  }

  /** A snapshot that is empty, unidentified, repeats an id or has lost more than half is not used. */
  ghost predicate FeedFails(feed: Feed, previous: Option<SyncState>) {
    || feed.items.None? || feed.items.value == [] || !Named(feed.items.value)
    || !Distinct(feed.items.value)
    || (previous.Some? && previous.value.count.Some? && |feed.items.value| * 2 < previous.value.count.value)
  }

  /** The snapshot used has rows, each with an id of its own and a name, and at least half as many as the
      last one used. */
  lemma UsableIff(feed: Feed, previous: Option<SyncState>)
    ensures !FeedFails(feed, previous) <==>
      && feed.items.Some? && |feed.items.value| >= 1
      && (forall item :: item in feed.items.value ==>
            item.externalId != "" && item.details.placeName.Some? && item.details.placeName.value != "")
      && (forall i, j :: 0 <= i < j < |feed.items.value| ==>
            feed.items.value[i].externalId != feed.items.value[j].externalId)
      && (previous.Some? && previous.value.count.Some? ==> 2 * |feed.items.value| >= previous.value.count.value)
  {
  }

  ghost predicate FeedWorks(feed: Feed, checked: bool, previous: Option<SyncState>) {
    feed.outcome.Works? && (checked ==> !FeedFails(feed, previous))
  }

  /** A source of the run, and whether its snapshot was used. */
  datatype Feeding = Feeding(feed: Feed, done: bool)

  ghost predicate FeedTo(t: Table, f: Feeding, t': Table) {
    if f.done
    then f.feed.items.Some? && Distinct(f.feed.items.value) && SyncedTo(t, f.feed.name, f.feed.items.value, t')
    else t' == t
  }

  ghost function FeedStep(): (Table, Feeding, Table) -> bool {
    (t: Table, f: Feeding, t': Table) => FeedTo(t, f, t')
  }

  /** The table after the sources have been synchronised in order. */
  ghost predicate FeedsTo(t: Table, feedings: seq<Feeding>, t': Table) {
    Steps(FeedStep(), t, feedings, t')
  }

  /** The table before the last source of the list. */
  lemma Before(t: Table, feedings: seq<Feeding>, t': Table) returns (m: Table)
    requires feedings != [] && FeedsTo(t, feedings, t')
    ensures FeedsTo(t, feedings[..|feedings| - 1], m) && FeedTo(m, feedings[|feedings| - 1], t')
  {
    m :| Steps(FeedStep(), t, feedings[..|feedings| - 1], m) && FeedStep()(m, feedings[|feedings| - 1], t');
  }

  lemma SyncUnique(t: Table, f: Feeding, t': Table)
    requires Unique(t) && FeedTo(t, f, t')
    ensures Unique(t')
  {
    if f.done {
      var source, items := f.feed.name, f.feed.items.value;
      var order :| RowsOf(t, source, order) && t' == Synced(t, source, items, order, true);
      AllUpsertedUnique(t, source, items);
      RetiredUnique(AllUpserted(t, source, items), source, Ids(items), LastUnnamed(t, order));
    }
  }

  function Deactivated(t: Table, ids: set<nat>): Table {
    t.(rows := map id | id in t.rows :: if id in ids then t.rows[id].(isActive := false) else t.rows[id])
  }

  /** The table once every row that gives way to another of its place has left use. */
  ghost function Deduplicated(t: Table, text: Text, protected: set<nat>): Table {
    Deactivated(t, Duplicates(t, text, protected))
  }

  ghost function Duplicates(t: Table, text: Text, protected: set<nat>): set<nat> {
    set id | id in t.rows && GivesWay(text, Candidates(t), protected, id)
  }

  /** Only rows of sports places in use and visible leave use, and none that a mission protects. */
  lemma OnlyDuplicatesLeave(t: Table, text: Text, protected: set<nat>, id: nat)
    requires id in t.rows && Deduplicated(t, text, protected).rows[id] != t.rows[id]
    ensures t.rows[id].category == Sports && t.rows[id].isActive && t.rows[id].visible && t.rows[id].source.Some?
    ensures id !in protected && Deduplicated(t, text, protected).rows[id] == t.rows[id].(isActive := false)
  {
  }

  /** Each place that had such a row keeps one as it was. */
  lemma PlaceKeepsARow(t: Table, text: Text, protected: set<nat>, id: nat) returns (kept: nat)
    requires id in t.rows && PlaceOf(text, t.rows[id]).Some?
    requires t.rows[id].category == Sports && t.rows[id].isActive && t.rows[id].visible && t.rows[id].source.Some?
    ensures kept in t.rows && PlaceOf(text, t.rows[kept]) == PlaceOf(text, t.rows[id])
    ensures t.rows[kept].category == Sports && t.rows[kept].isActive && t.rows[kept].visible
    ensures Deduplicated(t, text, protected).rows[kept] == t.rows[kept]
  {
    var rows := Candidates(t);
    kept := LeavesProtectedOrOne(text, rows, protected, id);
    if AnyProtected(text, rows, protected, id) {
      kept :| kept in rows && kept in protected && Together(text, rows, id, kept);
    }
    assert !GivesWay(text, rows, protected, kept);
  }

  const SOURCES: seq<string> := ["durunubi", "gangwon_ski_golf", "gangwon_marine", "gangwon_marine_facility",
                                 "gangwon_oxygen_road"]
  const MOUNTAINS := "mountain100"

  predicate FromSources(feeds: seq<Feed>) {
    |feeds| == |SOURCES| && forall i :: 0 <= i < |feeds| ==> feeds[i].name == SOURCES[i]
  }

  /** The file sources and, last, the mountain list that has been given up. */
  function AllFeeds(u: Upstream): seq<Feed> {
    u.feeds + [Feed(MOUNTAINS, Some([]), u.mountains)]
  }

  lemma SourcesDiffer()
    ensures forall i, j :: 0 <= i < j < |SOURCES| + 1 ==> (SOURCES + [MOUNTAINS])[i] != (SOURCES + [MOUNTAINS])[j]
    ensures forall i :: 0 <= i < |SOURCES| + 1 ==> (SOURCES + [MOUNTAINS])[i] !in {TOURAPI, DUPLICATES}
  {
    var names := SOURCES + [MOUNTAINS];
    assert names == ["durunubi", "gangwon_ski_golf", "gangwon_marine", "gangwon_marine_facility",
                     "gangwon_oxygen_road", "mountain100"];
    assert names[0][0] == 'd' && names[5][0] == 'm' && |names[1]| == 16 && |names[2]| == 14 && |names[3]| == 23
        && |names[4]| == 19 && TOURAPI[0] == 't' && |DUPLICATES| == 10 && names[0][1] == 'u' && DUPLICATES[2] == 'p';
  }

  lemma FeedNames(u: Upstream)
    requires FromSources(u.feeds)
    ensures DifferentNames(AllFeeds(u)) && forall f :: f in AllFeeds(u) ==> f.name !in {TOURAPI, DUPLICATES}
  {
    SourcesDiffer();
    var feeds := AllFeeds(u);
    forall i | 0 <= i < |feeds| ensures feeds[i].name == (SOURCES + [MOUNTAINS])[i] {}
  }

  ghost predicate NoFeedStops(feeds: seq<Feed>) {
    forall f :: f in feeds ==> !f.outcome.Stops?
  }

  ghost predicate DifferentNames(feeds: seq<Feed>) {
    forall i, j :: 0 <= i < j < |feeds| ==> feeds[i].name != feeds[j].name
  }

  /** What is recorded of a source: its count when its snapshot was used, else an error. */
  function Recorded(f: Feeding, previous: Option<SyncState>): SyncState {
    if f.done then SyncState(None, Some(if f.feed.items.Some? then |f.feed.items.value| else 0), false)
    else previous.GetOr(SyncState(None, None, true)).(error := true)
  }

  /** The sources so far are used or not on their own account, and each has its state recorded. */
  ghost predicate Fed(feeds: seq<Feed>, feedings: seq<Feeding>, states: map<string, SyncState>,
                      states': map<string, SyncState>)
  {
    && |feedings| <= |feeds|
    && (forall i :: 0 <= i < |feedings| ==>
          && feedings[i].feed == feeds[i]
          && (feedings[i].done <==> FeedWorks(feeds[i], i < |feeds| - 1, StateOf(states, feeds[i].name)))
          && StateOf(states', feeds[i].name) == Some(Recorded(feedings[i], StateOf(states, feeds[i].name))))
  }

  /** The sources so far have been fed, one after the other. */
  ghost predicate FedInTurn(feeds: seq<Feed>, feedings: seq<Feeding>, states: map<string, SyncState>, t: Table,
                            states': map<string, SyncState>, t': Table)
  {
    && Fed(feeds, feedings, states, states') && OthersStand(feeds, |feedings|, states, states')
    && FeedsTo(t, feedings, t')
  }

  lemma FedInTurnMore(feeds: seq<Feed>, feedings: seq<Feeding>, states: map<string, SyncState>, t: Table,
                      before: map<string, SyncState>, m: Table, f: Feeding, after: map<string, SyncState>, t': Table)
    requires FedInTurn(feeds, feedings, states, t, before, m) && FeedTo(m, f, t')
    requires DifferentNames(feeds) && |feedings| < |feeds| && f.feed == feeds[|feedings|]
    requires f.done <==> FeedWorks(f.feed, |feedings| < |feeds| - 1, StateOf(before, f.feed.name))
    requires after == before[f.feed.name := Recorded(f, StateOf(before, f.feed.name))]
    ensures FedInTurn(feeds, feedings + [f], states, t, after, t')
  {
    FedMore(feeds, feedings, states, before, f, after);
    StepsMore(FeedStep(), t, feedings, m, f, t');
  }

  /** Only the states of the sources themselves count. */
  lemma FedBy(feeds: seq<Feed>, feedings: seq<Feeding>, states: map<string, SyncState>,
              after: map<string, SyncState>, states': map<string, SyncState>, after': map<string, SyncState>)
    requires Fed(feeds, feedings, states, after)
    requires forall f :: f in feeds ==> f.name !in {TOURAPI, DUPLICATES}
    requires Others(states') == Others(states) && after' - {DUPLICATES} == after - {DUPLICATES}
    ensures Fed(feeds, feedings, states', after')
  {
    forall i | 0 <= i < |feeds|
      ensures StateOf(states', feeds[i].name) == StateOf(states, feeds[i].name)
      ensures StateOf(after', feeds[i].name) == StateOf(after, feeds[i].name)
    {
      var name := feeds[i].name;
      assert feeds[i] in feeds;
      assert name in Others(states') <==> name in states';
      assert name in Others(states) <==> name in states;
      assert name in after' - {DUPLICATES} <==> name in after';
      assert name in after - {DUPLICATES} <==> name in after;
    }
  }

  /** The states of the sources other than those already fed stand as they were. */
  ghost predicate OthersStand(feeds: seq<Feed>, n: nat, states: map<string, SyncState>,
                              states': map<string, SyncState>)
    requires n <= |feeds|
  {
    forall source {:trigger StateOf(states', source)} ::
      (forall i :: 0 <= i < n ==> feeds[i].name != source) ==> StateOf(states', source) == StateOf(states, source)
  }

  lemma FedMore(feeds: seq<Feed>, feedings: seq<Feeding>, states: map<string, SyncState>,
                before: map<string, SyncState>, f: Feeding, after: map<string, SyncState>)
    requires Fed(feeds, feedings, states, before) && OthersStand(feeds, |feedings|, states, before)
    requires DifferentNames(feeds) && |feedings| < |feeds| && f.feed == feeds[|feedings|]
    requires f.done <==> FeedWorks(f.feed, |feedings| < |feeds| - 1, StateOf(before, f.feed.name))
    requires after == before[f.feed.name := Recorded(f, StateOf(before, f.feed.name))]
    ensures Fed(feeds, feedings + [f], states, after) && OthersStand(feeds, |feedings| + 1, states, after)
  {
    var n := |feedings|;
    assert StateOf(before, f.feed.name) == StateOf(states, f.feed.name);
    forall i | 0 <= i < n ensures StateOf(after, feeds[i].name) == StateOf(before, feeds[i].name) {
      assert feeds[i].name != feeds[n].name;
    }
    forall source | forall i :: 0 <= i < n + 1 ==> feeds[i].name != source
      ensures StateOf(after, source) == StateOf(states, source)
    {
      assert feeds[n].name != source;
      assert StateOf(before, source) == StateOf(states, source);
    }
  }

  class TourismSync {
    const repository: ActivityRepository
    var states: map<string, SyncState>
    ghost var applied: Log

    constructor (repository: ActivityRepository)
      requires Unique(repository.t)
      ensures this.repository == repository && states == map[] && applied == Start && Valid()
    {
      this.repository := repository;
      this.states := map[];
      this.applied := Start;
    }

    ghost predicate Valid()
      reads this, repository
    {
      Unique(repository.t) && Chronicle(applied, Watermark(states))
    }

    method RecordSync(source: string, day: Option<int>, count: nat)
      modifies this`states
      ensures states == old(states)[source := SyncState(day, Some(count), false)]
      ensures source == TOURAPI ==> Watermark(states) == day && Others(states) == Others(old(states))
      ensures source != TOURAPI ==> Watermark(states) == Watermark(old(states))
    {
      states := states[source := SyncState(day, Some(count), false)];
      assert source == TOURAPI ==> Others(states) == Others(old(states));
    }

    /** An error leaves the last success of the source in place. */
    method RecordSyncError(source: string)
      modifies this`states
      ensures states == WithError(old(states), source) && Watermark(states) == Watermark(old(states))
      ensures source == TOURAPI ==> Others(states) == Others(old(states))
    {
      states := WithError(states, source);
      assert source == TOURAPI ==> Others(states) == Others(old(states));
    }

    method RowOrder(source: string) returns (order: seq<nat>)
      ensures RowsOf(repository.t, source, order)
    {
      order := [];
      var todo := repository.t.rows.Keys;
      while todo != {}
        invariant todo <= repository.t.rows.Keys
        invariant forall id :: id in order <==>
          id in repository.t.rows.Keys - todo && repository.t.rows[id].source == Some(source)
        decreases |todo|
      {
        var id :| id in todo;
        if repository.t.rows[id].source == Some(source) {
          order := order + [id];
        }
        todo := todo - {id};
      }
    }

    /** Load one day inside a savepoint, undone if anything fails. */
    method LoadDay(u: Upstream, e: Entry) returns (count: Option<nat>)
      requires Unique(repository.t) && !u.day(e.day).outcome.Stops?
      modifies repository
      ensures Unique(repository.t)
      ensures count.Some? <==> DayWorks(u, e)
      ensures count.Some? ==> count.value == ItemCount(u, e)
      ensures count.Some? ==> EntryTo(old(repository.t), u, e, repository.t)
      ensures count.None? ==> repository.t == old(repository.t)
    {
      var before := repository.t;
      count := None;
      if u.day(e.day).answers.Some? {
        var order := RowOrder(TOURAPI);
        count := TourApiDay(repository, u.day(e.day).answers.value, order, e.full, WithFestivals(u, e));
        if u.day(e.day).outcome.Fails? {
          repository.t := before;
          count := None;
        }
      }
    }

    /** Apply one day: a day that fails leaves its error and nothing else. */
    method ApplyDay(u: Upstream, day: int, full: bool) returns (outcome: Outcome)
      requires Valid() && Watermark(states) == (if full then None else Some(day - 1))
      modifies this, repository
      ensures Valid() && Others(states) == Others(old(states))
      ensures outcome.Works? <==> DayWorks(u, Entry(day, full))
      ensures outcome.Stops? <==> u.day(day).outcome.Stops?
      ensures outcome.Works? ==> Watermark(states) == Some(day) && applied == Then(old(applied), Entry(day, full))
      ensures outcome.Works? ==> EntryTo(old(repository.t), u, Entry(day, full), repository.t)
      ensures !outcome.Works? ==> applied == old(applied) && repository.t == old(repository.t)
      ensures states == match outcome
        case Works => old(states)[TOURAPI := SyncState(Some(day), Some(ItemCount(u, Entry(day, full))), false)]
        case Fails => WithError(old(states), TOURAPI)
        case Stops => old(states)
      ensures outcome.Fails? ==> Erred(states)
    {
      if u.day(day).outcome.Stops? {
        return Stops;
      }
      var count := LoadDay(u, Entry(day, full));
      if count.None? {
        RecordSyncError(TOURAPI);
        return Fails;
      }
      RecordSync(TOURAPI, Some(day), count.value);
      applied := Then(applied, Entry(day, full));
      outcome := Works;
    }

    /** Apply the days from the one after the watermark up to the target, up to the first that fails. */
    method ApplyDays(u: Upstream) returns (outcome: Outcome)
      requires Valid()
      modifies this, repository
      ensures Valid() && Others(states) == Others(old(states))
      ensures outcome.Works? <==> CatchesUp(u, old(Watermark(states)))
      ensures outcome.Stops? <==> DaysStop(u, old(Watermark(states)))
      ensures Arrives(u, old(Watermark(states)), Watermark(states))
      ensures Grows(EntryStep(u), old(applied), old(repository.t), applied, repository.t)
      ensures Watermark(states) == old(Watermark(states)) ==>
        applied == old(applied) && repository.t == old(repository.t)
      ensures NextDay(old(Watermark(states)), u.target) > u.target ==> states == old(states)
      ensures outcome.Fails? ==> Erred(states)
    {
      outcome := Works;
      ghost var t0, states0, applied0 := repository.t, states, applied;
      ghost var w0 := Watermark(states);
      var state := TOURAPI in states;
      var day := NextDay(Watermark(states), u.target);
      while day <= u.target && outcome.Works?
        invariant Valid() && Others(states) == Others(states0)
        invariant Applied(u, w0, applied0, t0, Watermark(states), applied, repository.t, day)
        invariant NextDay(w0, u.target) > u.target ==> states == states0
        invariant !outcome.Works? ==> day <= u.target && !DayWorks(u, Entry(day, w0.None?))
        invariant !outcome.Works? ==> (outcome.Stops? <==> u.day(day).outcome.Stops?)
        invariant outcome.Fails? ==> Erred(states)
        invariant !state && day <= u.target ==> Watermark(states).None?
        decreases u.target - day, outcome.Works?
      {
        var full := !state || Watermark(states).None?;
        ghost var m, before, reached := repository.t, applied, Watermark(states);
        outcome := ApplyDay(u, day, full);
        if outcome.Works? {
          OneMoreDay(u, w0, applied0, t0, reached, before, m, day, repository.t);
          day := day + 1;
        }
      }
      DaysEnd(u, w0, Watermark(states), day, outcome);
    }

    /** Synchronise one source inside a savepoint; a source that fails leaves its error and nothing else. */
    method SyncFeed(feed: Feed, checked: bool) returns (outcome: Outcome)
      requires Valid() && feed.name != TOURAPI
      requires !checked ==> feed.items == Some([])
      modifies this, repository
      ensures Valid() && applied == old(applied)
      ensures outcome.Works? <==> FeedWorks(feed, checked, StateOf(old(states), feed.name))
      ensures outcome.Stops? <==> feed.outcome.Stops?
      ensures outcome.Works? ==> FeedTo(old(repository.t), Feeding(feed, true), repository.t)
      ensures !outcome.Works? ==> repository.t == old(repository.t)
      ensures states == match outcome
        case Works => old(states)[feed.name := SyncState(None, Some(|feed.items.value|), false)]
        case Fails => WithError(old(states), feed.name)
        case Stops => old(states)
    {
      if feed.outcome.Stops? {
        return Stops;
      }
      var usable := feed.items.Some?;
      if usable && checked {
        var rows, previous := feed.items.value, StateOf(states, feed.name);
        var ids := ExternalIds(rows);
        RepeatedIdSeen(ids);
        usable := rows != [] && Named(rows) && |ids| == |set x | x in ids|
          && !(previous.Some? && previous.value.count.Some? && |rows| * 2 < previous.value.count.value);
      }
      if !usable || feed.outcome.Fails? {
        RecordSyncError(feed.name);
        return Fails;
      }
      StoreFeed(feed);
      RecordSync(feed.name, None, |feed.items.value|);
      outcome := Works;
    }

    method StoreFeed(feed: Feed)
      requires Unique(repository.t)
      requires feed.items.Some? && Distinct(feed.items.value) && "" !in Ids(feed.items.value)
      modifies repository
      ensures Unique(repository.t) && FeedTo(old(repository.t), Feeding(feed, true), repository.t)
    {
      ghost var before := repository.t;
      var order := RowOrder(feed.name);
      var count := repository.SyncItems(feed.name, feed.items.value, order, true);
      assert SyncedTo(before, feed.name, feed.items.value, repository.t);
      assert FeedTo(before, Feeding(feed, true), repository.t);
    }

    /** Synchronise the sources one after the other; a failing one does not keep the others from theirs. */
    method SyncFeeds(feeds: seq<Feed>) returns (feedings: seq<Feeding>, running: bool)
      requires Valid() && feeds != [] && DifferentNames(feeds) && forall f :: f in feeds ==> f.name != TOURAPI
      requires feeds[|feeds| - 1].items == Some([])
      modifies this, repository
      ensures Valid() && applied == old(applied) && Watermark(states) == Watermark(old(states))
      ensures running <==> NoFeedStops(feeds)
      ensures Fed(feeds, feedings, old(states), states)
      ensures OthersStand(feeds, |feedings|, old(states), states)
      ensures if running then |feedings| == |feeds| else |feedings| < |feeds| && feeds[|feedings|].outcome.Stops?
      ensures FeedsTo(old(repository.t), feedings, repository.t)
    {
      feedings, running := [], true;
      ghost var t0, states0 := repository.t, states;
      while |feedings| < |feeds| && running
        invariant Valid() && applied == old(applied) && Watermark(states) == Watermark(states0)
        invariant |feedings| <= |feeds| && FedInTurn(feeds, feedings, states0, t0, states, repository.t)
        invariant forall i :: 0 <= i < |feedings| ==> !feeds[i].outcome.Stops?
        invariant !running ==> |feedings| < |feeds| && feeds[|feedings|].outcome.Stops?
        decreases |feeds| - |feedings|, running
      {
        var feed := feeds[|feedings|];
        ghost var m, before := repository.t, states;
        var outcome := SyncFeed(feed, |feedings| < |feeds| - 1);
        if outcome.Stops? {
          running := false;
        } else {
          var f := Feeding(feed, outcome.Works?);
          FedInTurnMore(feeds, feedings, states0, t0, before, m, f, states, repository.t);
          feedings := feedings + [f];
        }
      }
    }

    /** Take the duplicates among the visible sports places out of use. */
    method RemoveDuplicates(text: Text, protected: set<nat>, outcome: Outcome) returns (done: bool)
      requires Valid()
      modifies this, repository
      ensures Valid() && applied == old(applied) && done == outcome.Works?
      ensures repository.t == if done then Deduplicated(old(repository.t), text, protected) else old(repository.t)
      ensures states == match outcome
        case Works =>
          old(states)[DUPLICATES := SyncState(None, Some(|Duplicates(old(repository.t), text, protected)|), false)]
        case Fails => WithError(old(states), DUPLICATES)
        case Stops => old(states)
      ensures states - {DUPLICATES} == old(states) - {DUPLICATES} && Watermark(states) == Watermark(old(states))
    {
      done := outcome.Works?;
      if outcome.Fails? {
        RecordSyncError(DUPLICATES);
      }
      if !done {
        return;
      }
      var rows := Candidates(repository.t);
      var ids := Listed(rows.Keys);
      var duplicates := DuplicateActivityIds(text, rows, ids, protected);
      assert duplicates == Duplicates(repository.t, text, protected);
      DeactivatedUnique(repository.t, duplicates);
      repository.t := Deactivated(repository.t, duplicates);
      RecordSync(DUPLICATES, None, |duplicates|);
    }

    /** A whole run. Its ghost results are the tables after the days and after the sources. */
    method Run(u: Upstream) returns (feedings: seq<Feeding>, deduplicated: bool,
                                     ghost afterDays: Table, ghost afterFeeds: Table)
      requires Valid() && FromSources(u.feeds)
      modifies this, repository
      ensures Valid() && Unique(afterDays)
      ensures Arrives(u, old(Watermark(states)), Watermark(states))
      ensures Grows(EntryStep(u), old(applied), old(repository.t), applied, afterDays)
      ensures Watermark(states) == old(Watermark(states)) ==>
        applied == old(applied) && afterDays == old(repository.t)
      ensures Fed(AllFeeds(u), feedings, old(states), states)
      ensures |feedings| == |AllFeeds(u)| <==>
        !DaysStop(u, old(Watermark(states))) && NoFeedStops(AllFeeds(u))
      ensures FeedsTo(afterDays, feedings, afterFeeds)
      ensures deduplicated <==> |feedings| == |AllFeeds(u)| && u.duplicates.Works?
      ensures repository.t == if deduplicated then Deduplicated(afterFeeds, u.text, u.protected) else afterFeeds
    {
      feedings, deduplicated := [], false;
      FeedNames(u);
      var outcome := ApplyDays(u);
      afterDays, afterFeeds := repository.t, repository.t;
      if outcome.Stops? {
        return;
      }
      ghost var before := states;
      var running;
      feedings, running := SyncFeeds(AllFeeds(u));
      afterFeeds := repository.t;
      ghost var fed := states;
      if running {
        deduplicated := RemoveDuplicates(u.text, u.protected, u.duplicates);
      }
      FedBy(AllFeeds(u), feedings, before, fed, old(states), states);
    }
  }

  function StateOf(states: map<string, SyncState>, source: string): Option<SyncState> {
    if source in states then Some(states[source]) else None
  }

  lemma DeactivatedUnique(t: Table, ids: set<nat>)
    requires Unique(t)
    ensures Unique(Deactivated(t, ids))
  {
    var t' := Deactivated(t, ids);
    assert forall id, s, x :: id in t'.rows && Keyed(t'.rows[id], s, x) ==> Keyed(t.rows[id], s, x);
  }

  /** The elements of a set in some order. */
  method Listed(ids: set<nat>) returns (list: seq<nat>)
    ensures forall id :: id in list <==> id in ids
  {
    list := [];
    var todo := ids;
    while todo != {}
      invariant todo <= ids
      invariant forall id :: id in list <==> id in ids - todo
      decreases |todo|
    {
      var id :| id in todo;
      list := list + [id];
      todo := todo - {id};
    }
  }

  /** The sync states of the file sources. */
  function Others(states: map<string, SyncState>): map<string, SyncState> {
    states - {TOURAPI}
  }
}
