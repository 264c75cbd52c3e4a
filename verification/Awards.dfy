/** Reviews, missions and badges together: the badges a passport holds follow its approved proofs. */
module Awards {
  import opened Wrappers
  import opened SubmissionTables
  import opened SubmissionProtocol
  import M = Missions
  import B = BadgeRules

  /** The fixed data of the pipeline; `badges` gives the rule of each badge row, if it has one. */
  datatype Programme = Programme(catalogue: M.Catalogue, lex: B.Lexicon, lowerTrim: string -> string,
                                 badges: map<nat, Option<string>>)

  /** The badge rows earned by approved proof of the given stamps. */
  ghost function EarnedBadges(k: Programme, proven: set<nat>): set<nat> {
    set id | id in k.badges && k.badges[id].Some?
             && B.Earns(k.lex, M.Facts(k.catalogue, k.lowerTrim, proven), k.badges[id].value)
  }

  lemma MoreProofsMoreBadges(k: Programme, proven: set<nat>, more: set<nat>)
    requires proven <= more
    ensures EarnedBadges(k, proven) <= EarnedBadges(k, more)
  {
    var facts, moreFacts := M.Facts(k.catalogue, k.lowerTrim, proven), M.Facts(k.catalogue, k.lowerTrim, more);
    M.MoreProofsMoreFacts(k.catalogue, k.lowerTrim, proven, more);
    forall id | id in EarnedBadges(k, proven) ensures B.Earns(k.lex, moreFacts, k.badges[id].value) {
      B.EarnsMonotone(k.lex, facts, moreFacts, k.badges[id].value);
    }
  }

  lemma NoProofsNoBadges(k: Programme)
    ensures EarnedBadges(k, {}) == {}
  {
    M.NoProofsNoFacts(k.catalogue, k.lowerTrim);
    forall rule ensures !B.Earns(k.lex, {}, rule) {
      B.NothingEarnsNothing(k.lex, rule);
    }
  }

  /** In every reachable state every passport holds every badge its approved proofs earn. */
  lemma BadgesFollowProofs(r: Rules, k: Programme, s: State, passport: nat)
    requires Reached(r, s)
    requires forall proven :: r.earned(proven) == EarnedBadges(k, proven)
    ensures EarnedBadges(k, ProvenStamps(s.t, passport)) <= s.t.Badges(passport)
  {
    if stamp :| stamp in ProvenStamps(s.t, passport) {
      var id :| id in s.t.submissions && Proof(s.t.submissions[id]) && s.t.submissions[id].pair.passport == passport;
      RowPromises(r, s, id);
    } else {
      assert ProvenStamps(s.t, passport) == {};
      NoProofsNoBadges(k);
    }
  }
}
