/** Which missions a passport has completed: the grouped query over courses, their stamps and the
    approved submissions, and the facts it yields about each completed mission. */
module Missions {
  import opened Wrappers
  import opened Lists

  datatype Course = Course(title: Option<string>, sportName: Option<string>, isPublished: bool)
  datatype Stamp = Stamp(activity: nat, catalog: Option<nat>)
  datatype Activity = Activity(sportName: Option<string>, source: string, externalId: Option<string>)

  /** A stamp assigned to a course; the pair is unique. */
  datatype CourseStamp = CourseStamp(course: nat, stamp: nat)

  /** `sports` is the English sport name of each stamp catalogue entry. */
  datatype Catalogue = Catalogue(courses: map<nat, Course>, links: set<CourseStamp>, stamps: map<nat, Stamp>,
                                 activities: map<nat, Activity>, sports: map<nat, string>)

  predicate Published(c: Catalogue, course: nat) {
    course in c.courses && c.courses[course].isPublished
  }

  // ----- the query -----

  /** The assignment subquery: for each stamp of a published course, how many such courses have it. */
  function Assignment(c: Catalogue): map<nat, nat> {
    map stamp | stamp in AssignedStamps(c) :: |CoursesOf(c, stamp)|
  }

  function AssignedStamps(c: Catalogue): set<nat> {
    set a | a in c.links && Published(c, a.course) :: a.stamp
  }

  function CoursesOf(c: Catalogue, stamp: nat): set<nat> {
    set a | a in c.links && Published(c, a.course) && a.stamp == stamp :: a.course
  }

  /** A row of the join of courses, assignments and, where there is one, the approved stamp. */
  datatype Row = Row(course: nat, stamp: nat, courses: nat, approved: Option<nat>)

  function Joined(c: Catalogue, approved: set<nat>): set<Row> {
    set a | a in c.links && Published(c, a.course) && a.stamp in Assignment(c) ::
      Row(a.course, a.stamp, Assignment(c)[a.stamp], if a.stamp in approved then Some(a.stamp) else None)
  }

  function Group(rows: set<Row>, course: nat): set<Row> {
    set r | r in rows && r.course == course
  }

  function DistinctStamps(group: set<Row>): set<nat> {
    set r | r in group :: r.stamp
  }

  function DistinctApproved(group: set<Row>): set<nat> {
    set r | r in group && r.approved.Some? :: r.approved.value
  }

  predicate MaxCoursesIs(group: set<Row>, m: nat) {
    (exists r :: r in group && r.courses == m) && forall r :: r in group ==> r.courses <= m
  }

  predicate Having(group: set<Row>) {
    && |DistinctStamps(group)| > 0
    && |DistinctStamps(group)| == |DistinctApproved(group)|
    && MaxCoursesIs(group, 1)
  }

  function Completed(c: Catalogue, approved: set<nat>): set<nat> {
    set r | r in Joined(c, approved) && Having(Group(Joined(c, approved), r.course)) :: r.course
  }

  // ----- what the query means -----

  predicate BelongsTo(c: Catalogue, stamp: nat, course: nat) {
    Published(c, course) && CourseStamp(course, stamp) in c.links
  }

  /** The stamp belongs to the course and to no other published one. */
  ghost predicate OnlyIn(c: Catalogue, stamp: nat, course: nat) {
    forall other :: BelongsTo(c, stamp, other) <==> other == course
  }

  ghost predicate FullyProven(c: Catalogue, approved: set<nat>, course: nat) {
    && Published(c, course)
    && (exists stamp :: BelongsTo(c, stamp, course))
    && (forall stamp :: BelongsTo(c, stamp, course) ==> stamp in approved && OnlyIn(c, stamp, course))
  }

  lemma RowOf(c: Catalogue, approved: set<nat>, course: nat, stamp: nat) returns (r: Row)
    requires BelongsTo(c, stamp, course)
    ensures r in Group(Joined(c, approved), course) && r.stamp == stamp
    ensures r.courses == |CoursesOf(c, stamp)| && r.approved == if stamp in approved then Some(stamp) else None
  {
    var a := CourseStamp(course, stamp);
    assert a in c.links && stamp in AssignedStamps(c);
    r := Row(course, stamp, Assignment(c)[stamp], if stamp in approved then Some(stamp) else None);
    assert r in Joined(c, approved);
  }

  lemma SingleCourse(c: Catalogue, stamp: nat, course: nat)
    requires BelongsTo(c, stamp, course)
    ensures |CoursesOf(c, stamp)| >= 1
    ensures |CoursesOf(c, stamp)| == 1 <==> OnlyIn(c, stamp, course)
  {
    var all := CoursesOf(c, stamp);
    assert forall other :: other in all <==> BelongsTo(c, stamp, other) by {
      forall other | BelongsTo(c, stamp, other) ensures other in all {
        assert CourseStamp(other, stamp) in c.links;
      }
    }
    Subset({course}, all);
    if |all| == 1 {
      forall other | other in all ensures other == course {
        if other != course {
          Subset({course, other}, all);
        }
      }
    }
    assert OnlyIn(c, stamp, course) ==> all == {course};
  }

  lemma SameSizeSubset<T>(a: set<T>, b: set<T>)
    requires a <= b && |a| == |b|
    ensures a == b
  {
    assert b == a + (b - a);
    assert b - a == {};
    assert forall x :: x in b ==> x in a || x in b - a;
  }

  lemma GroupStamps(c: Catalogue, approved: set<nat>, course: nat)
    ensures forall stamp :: stamp in DistinctStamps(Group(Joined(c, approved), course)) <==> BelongsTo(c, stamp, course)
    ensures DistinctApproved(Group(Joined(c, approved), course)) ==
      DistinctStamps(Group(Joined(c, approved), course)) * approved
  {
    var group := Group(Joined(c, approved), course);
    forall stamp | BelongsTo(c, stamp, course) ensures stamp in DistinctStamps(group) {
      var r := RowOf(c, approved, course, stamp);
    }
    forall stamp | stamp in DistinctStamps(group) * approved ensures stamp in DistinctApproved(group) {
      var r := RowOf(c, approved, course, stamp);
    }
  }

  /** A course counts as completed exactly when it is published, has a stamp, and each of its stamps
      is approved and belongs to no other published course. */
  lemma CompletedIff(c: Catalogue, approved: set<nat>, course: nat)
    ensures course in Completed(c, approved) <==> FullyProven(c, approved, course)
  {
    var group := Group(Joined(c, approved), course);
    GroupStamps(c, approved, course);
    if FullyProven(c, approved, course) {
      assert DistinctApproved(group) == DistinctStamps(group);
      var stamp :| BelongsTo(c, stamp, course);
      assert stamp in DistinctStamps(group);
      var r := RowOf(c, approved, course, stamp);
      SingleCourse(c, stamp, course);
      forall r | r in group ensures r.courses <= 1 {
        SingleCourse(c, r.stamp, course);
      }
      assert r in Joined(c, approved) && Having(group);
    }
    if course in Completed(c, approved) {
      SameSizeSubset(DistinctApproved(group), DistinctStamps(group));
      forall stamp | BelongsTo(c, stamp, course) ensures stamp in approved && OnlyIn(c, stamp, course) {
        assert stamp in DistinctStamps(group);
        var r := RowOf(c, approved, course, stamp);
        SingleCourse(c, stamp, course);
      }
      var r :| r in group;
      assert BelongsTo(c, r.stamp, course);
    }
  }

  /** One photo never completes two missions. */
  lemma CompletedShareNoStamp(c: Catalogue, approved: set<nat>, a: nat, b: nat, stamp: nat)
    requires a in Completed(c, approved) && b in Completed(c, approved) && a != b
    ensures !(CourseStamp(a, stamp) in c.links && CourseStamp(b, stamp) in c.links)
  {
    CompletedIff(c, approved, a);
    CompletedIff(c, approved, b);
    assert BelongsTo(c, stamp, a) ==> OnlyIn(c, stamp, a);
    assert OnlyIn(c, stamp, a) && BelongsTo(c, stamp, b) ==> b == a;
  }

  lemma MoreProofsProveMore(c: Catalogue, approved: set<nat>, more: set<nat>, course: nat)
    requires approved <= more && FullyProven(c, approved, course)
    ensures FullyProven(c, more, course)
  {
    forall stamp | BelongsTo(c, stamp, course) ensures stamp in more && OnlyIn(c, stamp, course) {
      assert stamp in approved;
    }
  }

  lemma MoreProofsCompleteMore(c: Catalogue, approved: set<nat>, more: set<nat>)
    requires approved <= more
    ensures Completed(c, approved) <= Completed(c, more)
  {
    forall course | course in Completed(c, approved) ensures course in Completed(c, more) {
      CompletedIff(c, approved, course);
      MoreProofsProveMore(c, approved, more, course);
      CompletedIff(c, more, course);
    }
  }

  // ----- facts about completed missions -----

  datatype Fact = Fact(course: nat, title: Option<string>, courseSport: Option<string>, mountain: bool,
                       activitySport: Option<string>, source: string, externalId: Option<string>)

  /** The sport text a mission is filed under; `lowerTrim` lowers and trims as the database does. */
  function FiledUnder(c: Catalogue, course: Course, stamp: Stamp, activity: Activity): string {
    if stamp.catalog.Some? && stamp.catalog.value in c.sports then c.sports[stamp.catalog.value]
    else if course.sportName.Some? && course.sportName.value != "" then course.sportName.value
    else activity.sportName.GetOr("")
  }

  function FactOf(c: Catalogue, lowerTrim: string -> string, a: CourseStamp): Fact
    requires a.course in c.courses && a.stamp in c.stamps && c.stamps[a.stamp].activity in c.activities
  {
    var course, stamp := c.courses[a.course], c.stamps[a.stamp];
    var activity := c.activities[stamp.activity];
    var mountain := lowerTrim(FiledUnder(c, course, stamp, activity)) in {"mountain", "hiking", "산악", "등산"};
    Fact(a.course, course.title, course.sportName, mountain, activity.sportName, activity.source, activity.externalId)
  }

  function Facts(c: Catalogue, lowerTrim: string -> string, approved: set<nat>): set<Fact> {
    set a | a in c.links && a.course in Completed(c, approved) && a.course in c.courses
            && a.stamp in c.stamps && c.stamps[a.stamp].activity in c.activities :: FactOf(c, lowerTrim, a)
  }

  /** The facts are those of the stamps of completed missions; a mission is a mountain one by the sport of
      the stamp's catalogue entry, else of the course, else of the activity. */
  lemma FactsMean(c: Catalogue, lowerTrim: string -> string, approved: set<nat>, f: Fact) returns (a: CourseStamp)
    requires f in Facts(c, lowerTrim, approved)
    ensures a in c.links && a.course == f.course && FullyProven(c, approved, f.course)
    ensures a.course in c.courses && a.stamp in c.stamps && c.stamps[a.stamp].activity in c.activities
    ensures var course, stamp := c.courses[a.course], c.stamps[a.stamp];
      var activity := c.activities[stamp.activity];
      && f.title == course.title && f.courseSport == course.sportName
      && f.activitySport == activity.sportName && f.source == activity.source && f.externalId == activity.externalId
      && (stamp.catalog.Some? && stamp.catalog.value in c.sports ==>
            (f.mountain <==> lowerTrim(c.sports[stamp.catalog.value]) in {"mountain", "hiking", "산악", "등산"}))
      && (!(stamp.catalog.Some? && stamp.catalog.value in c.sports) ==>
            && (course.sportName.GetOr("") != "" ==>
                  (f.mountain <==> lowerTrim(course.sportName.value) in {"mountain", "hiking", "산악", "등산"}))
            && (course.sportName.GetOr("") == "" ==>
                  (f.mountain <==> lowerTrim(activity.sportName.GetOr("")) in {"mountain", "hiking", "산악", "등산"})))
  {
    a :| a in c.links && a.course in Completed(c, approved) && a.course in c.courses
         && a.stamp in c.stamps && c.stamps[a.stamp].activity in c.activities && FactOf(c, lowerTrim, a) == f;
    CompletedIff(c, approved, a.course);
  }

  /** Each stamp of a completed mission whose activity is stored yields a fact. */
  lemma FactFor(c: Catalogue, lowerTrim: string -> string, approved: set<nat>, a: CourseStamp)
    requires a in c.links && FullyProven(c, approved, a.course)
    requires a.stamp in c.stamps && c.stamps[a.stamp].activity in c.activities
    ensures exists f :: f in Facts(c, lowerTrim, approved) && f.course == a.course
                        && f.source == c.activities[c.stamps[a.stamp].activity].source
                        && f.externalId == c.activities[c.stamps[a.stamp].activity].externalId
  {
    CompletedIff(c, approved, a.course);
    assert FactOf(c, lowerTrim, a) in Facts(c, lowerTrim, approved);
  }

  lemma MoreProofsMoreFacts(c: Catalogue, lowerTrim: string -> string, approved: set<nat>, more: set<nat>)
    requires approved <= more
    ensures Facts(c, lowerTrim, approved) <= Facts(c, lowerTrim, more)
  {
    MoreProofsCompleteMore(c, approved, more);
  }

  lemma NoProofsNoFacts(c: Catalogue, lowerTrim: string -> string)
    ensures Facts(c, lowerTrim, {}) == {}
  {
    forall course ensures course !in Completed(c, {}) {
      CompletedIff(c, {}, course);
    }
  }
}
