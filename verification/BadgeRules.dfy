/** Badges earned by the facts of completed missions. */
module BadgeRules {
  import opened Wrappers
  import opened Lists
  import opened Missions

  datatype Identity = Identity(title: Option<string>, source: string, externalId: Option<string>)

  /** The fixed tables of verified missions and special badges, the alias lookup for sport names,
      and the text folding applied before a comparison. */
  datatype Lexicon = Lexicon(verified: map<Identity, (Option<string>, Option<string>)>,
                             special: map<Identity, string>,
                             aliases: map<string, string>, fold: string -> string)

  function IdentityOf(f: Fact): Identity {
    Identity(f.title, f.source, f.externalId)
  }

  function NormalizeSport(lex: Lexicon, value: Option<string>): Option<string> {
    if value.Some? && value.value != "" && lex.fold(value.value) in lex.aliases
    then Some(lex.aliases[lex.fold(value.value)])
    else None
  }

  /** The sport of a mission and its setting: a verified identity decides first. */
  function MissionSport(lex: Lexicon, f: Fact): (Option<string>, Option<string>) {
    if IdentityOf(f) in lex.verified then lex.verified[IdentityOf(f)]
    else if lex.fold(f.courseSport.GetOr("")) in {"olympic", "올림픽 레거시"} then (None, None)
    else
      var named := NormalizeSport(lex, f.courseSport);
      var sport := if named.Some? && named.value != "" then named else NormalizeSport(lex, f.activitySport);
      (sport,
       if sport == Some("surfing") then Some("marine") else if sport == Some("rafting") then Some("inland") else None)
  }

  datatype Metric = Completions | Mountains | Trekking | Marine | InlandWater | Snow | Cycling | Running | Sports

  predicate InGroup(lex: Lexicon, m: Metric, f: Fact) {
    var (sport, setting) := MissionSport(lex, f);
    match m
    case Completions => true
    case Mountains => f.mountain
    case Trekking => sport == Some("trekking")
    case Cycling => sport == Some("cycling")
    case Running => sport == Some("running")
    case Snow => sport == Some("ski") || sport == Some("snowboard")
    case Marine => setting == Some("marine")
    case InlandWater => setting == Some("inland")
    case Sports => sport.Some? && sport.value != ""
  }

  /** The missions of a group: a mission with many stamps counts once. */
  function MissionsIn(lex: Lexicon, m: Metric, facts: set<Fact>): set<nat> {
    set f | f in facts && InGroup(lex, m, f) :: f.course
  }

  function SportsIn(lex: Lexicon, facts: set<Fact>): set<string> {
    set f | f in facts && InGroup(lex, Sports, f) :: MissionSport(lex, f).0.value
  }

  function Measure(lex: Lexicon, m: Metric, facts: set<Fact>): nat {
    if m == Sports then |SportsIn(lex, facts)| else |MissionsIn(lex, m, facts)|
  }

  const THRESHOLDS: map<string, (Metric, nat)> := map[
    "first_mission" := (Completions, 1), "first_mountain" := (Mountains, 1),
    "three_missions" := (Completions, 3), "three_sports" := (Sports, 3),
    "trekking_three" := (Trekking, 3), "first_marine" := (Marine, 1),
    "first_inland_water" := (InlandWater, 1), "first_snow" := (Snow, 1),
    "first_cycling" := (Cycling, 1), "first_running" := (Running, 1)]

  ghost predicate Earns(lex: Lexicon, facts: set<Fact>, rule: string) {
    || (rule in THRESHOLDS && Measure(lex, THRESHOLDS[rule].0, facts) >= THRESHOLDS[rule].1)
    || Special(lex, facts, rule)
  }

  ghost predicate Special(lex: Lexicon, facts: set<Fact>, rule: string) {
    exists f :: f in facts && IdentityOf(f) in lex.special && lex.special[IdentityOf(f)] == rule
  }

  /** Whose sport a mission counts for: its verified one; none for a generic olympic mission; else the
      course's, or the activity's when the course names none that is known. */
  lemma SportCounted(lex: Lexicon, f: Fact, sport: string)
    requires sport in {"trekking", "cycling", "running"}
    ensures var course, activity := NormalizeSport(lex, f.courseSport), NormalizeSport(lex, f.activitySport);
      InGroup(lex, if sport == "trekking" then Trekking else if sport == "cycling" then Cycling else Running, f) <==>
        if IdentityOf(f) in lex.verified then lex.verified[IdentityOf(f)].0 == Some(sport)
        else (lex.fold(f.courseSport.GetOr("")) !in {"olympic", "올림픽 레거시"}
              && (course == Some(sport) || (course in {None, Some("")} && activity == Some(sport))))
  {
  }

  /** Outside the verified missions only surfing counts as marine and only rafting as inland water. */
  lemma SettingCounted(lex: Lexicon, f: Fact)
    requires IdentityOf(f) !in lex.verified
    ensures var course, activity := NormalizeSport(lex, f.courseSport), NormalizeSport(lex, f.activitySport);
      var generic := lex.fold(f.courseSport.GetOr("")) in {"olympic", "올림픽 레거시"};
      && (InGroup(lex, Marine, f) <==>
            !generic && (course == Some("surfing") || (course in {None, Some("")} && activity == Some("surfing"))))
      && (InGroup(lex, InlandWater, f) <==>
            !generic && (course == Some("rafting") || (course in {None, Some("")} && activity == Some("rafting"))))
  {
  }

  // ----- the loops -----

  /** The missions counted so far, by group. */
  datatype Groups = Groups(missions: set<nat>, mountains: set<nat>, trekking: set<nat>, marine: set<nat>,
                           inlandWater: set<nat>, snow: set<nat>, cycling: set<nat>, running: set<nat>)
  {
    function Of(m: Metric): set<nat> {
      match m
      case Completions => missions
      case Mountains => mountains
      case Trekking => trekking
      case Marine => marine
      case InlandWater => inlandWater
      case Snow => snow
      case Cycling => cycling
      case Running => running
      case Sports => {}
    }
  }

  /** Count one fact in every group it belongs to. */
  method Tally(lex: Lexicon, before: Groups, f: Fact) returns (g: Groups)
    ensures forall m :: m != Sports ==> g.Of(m) == before.Of(m) + if InGroup(lex, m, f) then {f.course} else {}
  {
    var (sport, setting) := MissionSport(lex, f);
    g := before.(missions := before.missions + {f.course});
    if f.mountain {
      g := g.(mountains := g.mountains + {f.course});
    }
    if sport == Some("trekking") {
      g := g.(trekking := g.trekking + {f.course});
    } else if sport == Some("cycling") {
      g := g.(cycling := g.cycling + {f.course});
    } else if sport == Some("running") {
      g := g.(running := g.running + {f.course});
    }
    if sport == Some("ski") || sport == Some("snowboard") {
      g := g.(snow := g.snow + {f.course});
    }
    if setting == Some("marine") {
      g := g.(marine := g.marine + {f.course});
    } else if setting == Some("inland") {
      g := g.(inlandWater := g.inlandWater + {f.course});
    }
  }

  /** Count missions per group, and sports, over a list of facts in any order. */
  method BadgeProgress(lex: Lexicon, facts: seq<Fact>) returns (progress: map<Metric, nat>)
    ensures forall m :: m in progress && progress[m] == Measure(lex, m, Elements(facts))
  {
    var groups := Groups({}, {}, {}, {}, {}, {}, {}, {});
    var sports: set<string> := {};
    for i := 0 to |facts|
      invariant forall m :: m != Sports ==> groups.Of(m) == MissionsIn(lex, m, Elements(facts[..i]))
      invariant sports == SportsIn(lex, Elements(facts[..i]))
    {
      ghost var before := groups;
      groups := Tally(lex, groups, facts[i]);
      var sport := MissionSport(lex, facts[i]).0;
      if sport.Some? && sport.value != "" {
        sports := sports + {sport.value};
      }
      assert facts[..i + 1] == facts[..i] + [facts[i]];
      GroupsMore(lex, before, groups, facts[..i], facts[i]);
      OneMore(lex, Sports, facts[..i], facts[i]);
    }
    assert facts[..|facts|] == facts;
    progress := map m: Metric | true :: if m == Sports then |sports| else |groups.Of(m)|;
  }

  lemma GroupsMore(lex: Lexicon, before: Groups, after: Groups, facts: seq<Fact>, f: Fact)
    requires forall m :: m != Sports ==> before.Of(m) == MissionsIn(lex, m, Elements(facts))
    requires forall m :: m != Sports ==> after.Of(m) == before.Of(m) + if InGroup(lex, m, f) then {f.course} else {}
    ensures forall m :: m != Sports ==> after.Of(m) == MissionsIn(lex, m, Elements(facts + [f]))
  {
    forall m | m != Sports ensures after.Of(m) == MissionsIn(lex, m, Elements(facts + [f])) {
      OneMore(lex, m, facts, f);
    }
  }

  lemma OneMore(lex: Lexicon, m: Metric, facts: seq<Fact>, f: Fact)
    ensures MissionsIn(lex, m, Elements(facts + [f])) ==
      MissionsIn(lex, m, Elements(facts)) + if InGroup(lex, m, f) then {f.course} else {}
    ensures SportsIn(lex, Elements(facts + [f])) ==
      SportsIn(lex, Elements(facts)) + if InGroup(lex, Sports, f) then {MissionSport(lex, f).0.value} else {}
  {
    assert Elements(facts + [f]) == Elements(facts) + {f};
  }

  method EarnedBadgeRules(lex: Lexicon, facts: seq<Fact>) returns (earned: set<string>)
    ensures forall rule :: rule in earned <==> Earns(lex, Elements(facts), rule)
  {
    var progress := BadgeProgress(lex, facts);
    earned := set rule | rule in THRESHOLDS && progress[THRESHOLDS[rule].0] >= THRESHOLDS[rule].1;
    ghost var reached := earned;
    for i := 0 to |facts|
      invariant forall rule :: rule in earned <==> rule in reached || Special(lex, Elements(facts[..i]), rule)
    {
      assert facts[..i + 1] == facts[..i] + [facts[i]];
      var identity := IdentityOf(facts[i]);
      if identity in lex.special {
        earned := earned + {lex.special[identity]};
      }
    }
    assert facts[..|facts|] == facts;
  }

  // ----- what the rules promise -----

  /** One mission of this kind is enough for the rule. */
  predicate Enough(lex: Lexicon, rule: string, f: Fact) {
    match rule
    case "first_mission" => true
    case "first_mountain" => f.mountain
    case "first_marine" => InGroup(lex, Marine, f)
    case "first_inland_water" => InGroup(lex, InlandWater, f)
    case "first_snow" => InGroup(lex, Snow, f)
    case "first_cycling" => InGroup(lex, Cycling, f)
    case "first_running" => InGroup(lex, Running, f)
    case _ => false
  }

  lemma FirstOfGroup(lex: Lexicon, facts: set<Fact>, rule: string)
    requires rule !in {"three_missions", "three_sports", "trekking_three"}
    ensures Earns(lex, facts, rule) <==> Special(lex, facts, rule) || exists f :: f in facts && Enough(lex, rule, f)
  {
    if rule in THRESHOLDS {
      AnyMission(lex, THRESHOLDS[rule].0, facts);
    }
  }

  /** The rules earned by three missions, sports or treks. */
  lemma ThreeOfGroup(lex: Lexicon, facts: set<Fact>)
    ensures Earns(lex, facts, "three_missions") <==>
      Special(lex, facts, "three_missions") || |set f | f in facts :: f.course| >= 3
    ensures Earns(lex, facts, "trekking_three") <==>
      Special(lex, facts, "trekking_three") || |set f | f in facts && InGroup(lex, Trekking, f) :: f.course| >= 3
    ensures Earns(lex, facts, "three_sports") <==>
      || Special(lex, facts, "three_sports")
      || |set f | f in facts && InGroup(lex, Sports, f) :: MissionSport(lex, f).0.value| >= 3
  {
    assert MissionsIn(lex, Completions, facts) == set f | f in facts :: f.course;
    assert MissionsIn(lex, Trekking, facts) == set f | f in facts && InGroup(lex, Trekking, f) :: f.course;
    assert SportsIn(lex, facts) == set f | f in facts && InGroup(lex, Sports, f) :: MissionSport(lex, f).0.value;
  }

  lemma AnyMission(lex: Lexicon, m: Metric, facts: set<Fact>)
    ensures |MissionsIn(lex, m, facts)| >= 1 <==> exists f :: f in facts && InGroup(lex, m, f)
  {
    if f :| f in facts && InGroup(lex, m, f) {
      assert f.course in MissionsIn(lex, m, facts);
    } else {
      assert MissionsIn(lex, m, facts) == {};
    }
  }

  lemma MeasureMonotone(lex: Lexicon, m: Metric, facts: set<Fact>, more: set<Fact>)
    requires facts <= more
    ensures Measure(lex, m, facts) <= Measure(lex, m, more)
  {
    Subset(MissionsIn(lex, m, facts), MissionsIn(lex, m, more));
    Subset(SportsIn(lex, facts), SportsIn(lex, more));
  }

  /** A badge once earned stays earned as more missions are completed. */
  lemma EarnsMonotone(lex: Lexicon, facts: set<Fact>, more: set<Fact>, rule: string)
    requires facts <= more && Earns(lex, facts, rule)
    ensures Earns(lex, more, rule)
  {
    if rule in THRESHOLDS {
      MeasureMonotone(lex, THRESHOLDS[rule].0, facts, more);
    }
  }

  lemma NothingEarnsNothing(lex: Lexicon, rule: string)
    ensures !Earns(lex, {}, rule)
  {
    assert rule in THRESHOLDS ==> THRESHOLDS[rule].1 >= 1;
    assert forall m :: MissionsIn(lex, m, {}) == {};
    assert SportsIn(lex, {}) == {};
  }
}
