/** Concurrent submit and review requests: check, lock the passport, check again; lock the
    submission, then the passport, then approve. Ownership of the passport and visibility of the
    mission only refuse more requests, so the steps leave them out. */
module SubmissionProtocol {
  import opened Wrappers
  import opened SubmissionTables

  /** What the plain select behind the second check sees: the committed rows, or the rows as they
      were at the transaction's first read. */
  datatype Reads = Committed | FirstRead

  datatype Pc =
    | Idle
    | Checked(pair: Pair, seen: Tables)
    | Locked(pair: Pair, seen: Tables)
    | Rechecked(pair: Pair)
    | Reviewing(id: nat)
    | Approving(id: nat, passport: nat)

  datatype State = State(t: Tables, pcs: map<nat, Pc>)
  {
    function Pc(w: nat): Pc { if w in pcs then pcs[w] else Idle }

    function Goto(w: nat, pc: Pc): State { this.(pcs := pcs[w := pc]) }
  }

  predicate PassportHeld(pc: Pc, passport: nat) {
    match pc
    case Locked(pair, _) => pair.passport == passport
    case Rechecked(pair) => pair.passport == passport
    case Approving(_, p) => p == passport
    case _ => false
  }

  predicate RowHeld(pc: Pc, id: nat) {
    (pc.Reviewing? || pc.Approving?) && pc.id == id
  }

  ghost predicate PassportFree(s: State, passport: nat) {
    forall v :: !PassportHeld(s.Pc(v), passport)
  }

  ghost predicate RowFree(s: State, id: nat) {
    forall v :: !RowHeld(s.Pc(v), id)
  }

  datatype Event =
    | Check(w: nat, pair: Pair)
    | LockPassport(w: nat)
    | Recheck(w: nat)
    | Submit(w: nat, share: bool, caption: Option<string>)
    | LockSubmission(w: nat, id: nat)
    | LockForApproval(w: nat)
    | Reject(w: nat, reviewer: nat, reason: string)
    | Approve(w: nat, reviewer: nat)
    | Abort(w: nat)
    | Share(id: nat, share: bool, caption: Option<string>)
    | Hide(id: nat, now: int)
    // an administrator stores a collected stamp, for which the database reads the passport row with a
    // shared lock, or removes one, for which it does not
    | Grant(pair: Pair)
    | Revoke(pair: Pair)

  /** The rules in force: how plain selects read, and the badge rows a set of proven stamps earns. */
  datatype Rules = Rules(selects: Reads, earned: set<nat> -> set<nat>)

  ghost predicate Enabled(r: Rules, s: State, e: Event) {
    match e
    case Check(w, pair) => s.Pc(w).Idle? && Open(s.t, pair)
    case LockPassport(w) => s.Pc(w).Checked? && PassportFree(s, s.Pc(w).pair.passport)
    case Recheck(w) => s.Pc(w).Locked? && Open(if r.selects.Committed? then s.t else s.Pc(w).seen, s.Pc(w).pair)
    case Submit(w, _, _) => s.Pc(w).Rechecked?
    case LockSubmission(w, id) =>
      s.Pc(w).Idle? && RowFree(s, id) && id in s.t.submissions && s.t.submissions[id].status == Pending
    case LockForApproval(w) =>
      s.Pc(w).Reviewing? && s.Pc(w).id in s.t.submissions &&
      PassportFree(s, s.t.submissions[s.Pc(w).id].pair.passport)
    case Reject(w, _, _) => s.Pc(w).Reviewing? && s.Pc(w).id in s.t.submissions
    case Approve(w, _) => s.Pc(w).Approving? && s.Pc(w).id in s.t.submissions
    case Abort(w) => true
    case Share(id, _, _) => id in s.t.submissions && RowFree(s, id) && s.t.submissions[id].feedDeleted.None?
    case Hide(id, _) => id in s.t.submissions && RowFree(s, id)
    case Grant(pair) => pair !in s.t.collected && PassportFree(s, pair.passport)
    case Revoke(pair) => pair in s.t.collected
  }

  ghost function Apply(r: Rules, s: State, e: Event): State
    requires Enabled(r, s, e)
  {
    match e
    case Check(w, pair) => s.Goto(w, Checked(pair, s.t))
    case LockPassport(w) => s.Goto(w, Locked(s.Pc(w).pair, s.Pc(w).seen))
    case Recheck(w) => s.Goto(w, Rechecked(s.Pc(w).pair))
    case Submit(w, share, caption) => s.Goto(w, Idle).(t := Submitted(s.t, s.Pc(w).pair, share, caption))
    case LockSubmission(w, id) => s.Goto(w, Reviewing(id))
    case LockForApproval(w) => s.Goto(w, Approving(s.Pc(w).id, s.t.submissions[s.Pc(w).id].pair.passport))
    case Reject(w, reviewer, reason) => s.Goto(w, Idle).(t := RejectedIn(s.t, s.Pc(w).id, reviewer, reason))
    case Approve(w, reviewer) => s.Goto(w, Idle).(t := ApprovedIn(s.t, s.Pc(w).id, reviewer, r.earned))
    case Abort(w) => s.Goto(w, Idle)
    case Share(id, share, caption) => s.(t := SharedIn(s.t, id, share, caption))
    case Hide(id, now) => s.(t := HiddenIn(s.t, id, now))
    case Grant(pair) => s.(t := s.t.(collected := s.t.collected + multiset{pair}))
    case Revoke(pair) => s.(t := s.t.(collected := s.t.collected - multiset{pair}))
  }

  // ----- the invariant -----

  /** Waiting for review, or accepted as proof. */
  predicate Live(row: Submission) {
    row.status == Pending || Proof(row)
  }

  /** At most one live submission for each pair: one pending, or one approved, never both. */
  ghost predicate OneLive(t: Tables) {
    forall a, b ::
      a in t.submissions && b in t.submissions && a != b && Live(t.submissions[a]) && Live(t.submissions[b]) ==>
        t.submissions[a].pair != t.submissions[b].pair
  }

  ghost predicate Awarded(r: Rules, t: Tables, id: nat)
    requires id in t.submissions
  {
    var p := t.submissions[id].pair.passport;
    Proof(t.submissions[id]) ==> r.earned(ProvenStamps(t, p)) <= t.Badges(p)
  }

  /** What holds of one submission row. */
  ghost predicate RowSound(r: Rules, t: Tables, id: nat)
    requires id in t.submissions
  {
    var row := t.submissions[id];
    && id < t.nextId
    && (Proof(row) ==> row.pair in t.collected)
    && (row.feedDeleted.Some? ==> !row.shared)
    && Awarded(r, t, id)
  }

  /** Each stamp is collected at most once, and each row is sound. */
  ghost predicate RowsSound(r: Rules, t: Tables) {
    && (forall pair :: t.collected[pair] <= 1)
    && (forall id :: id in t.submissions ==> RowSound(r, t, id))
  }

  ghost predicate Sound(r: Rules, t: Tables) {
    OneLive(t) && RowsSound(r, t)
  }

  ghost predicate NoLive(t: Tables, pair: Pair) {
    forall id :: id in t.submissions && t.submissions[id].pair == pair ==> !Live(t.submissions[id])
  }

  /** The submission a worker reviews is still pending. */
  ghost predicate Held(s: State, w: nat) {
    match s.Pc(w)
    case Reviewing(id) => id in s.t.submissions && s.t.submissions[id].status == Pending
    case Approving(id, passport) => id in s.t.submissions && s.t.submissions[id].status == Pending
                                    && s.t.submissions[id].pair.passport == passport
    case _ => true
  }

  /** What a worker has checked still holds when it acts on it. */
  ghost predicate Fresh(s: State, w: nat) {
    Held(s, w) && (s.Pc(w).Rechecked? ==> NoLive(s.t, s.Pc(w).pair) && s.Pc(w).pair !in s.t.collected)
  }

  ghost predicate Exclusive(s: State) {
    && (forall v, w, p :: PassportHeld(s.Pc(v), p) && PassportHeld(s.Pc(w), p) ==> v == w)
    && (forall v, w, id :: RowHeld(s.Pc(v), id) && RowHeld(s.Pc(w), id) ==> v == w)
  }

  /** What holds whichever rows the second check sees. */
  ghost predicate RowsInv(r: Rules, s: State) {
    RowsSound(r, s.t) && Exclusive(s) && forall w :: Held(s, w)
  }

  /** What holds besides when it sees committed rows. */
  ghost predicate Inv(r: Rules, s: State) {
    Sound(r, s.t) && Exclusive(s) && forall w :: Fresh(s, w)
  }

  ghost predicate Init(r: Rules, s: State) {
    Sound(r, s.t) && s.pcs == map[]
  }

  // ----- what every step keeps -----

  predicate Moves(e: Event) {
    e.Check? || e.LockPassport? || e.Recheck? || e.LockSubmission? || e.LockForApproval? || e.Abort?
  }

  /** A step by worker `w` that leaves it holding nothing, or a step by no worker. */
  lemma ReleaseExclusive(s: State, s': State)
    requires Exclusive(s) && forall v :: s'.Pc(v).Idle? || s'.Pc(v) == s.Pc(v)
    ensures Exclusive(s')
  {
    forall v, w, p | PassportHeld(s'.Pc(v), p) && PassportHeld(s'.Pc(w), p) ensures v == w {
      assert PassportHeld(s.Pc(v), p) && PassportHeld(s.Pc(w), p);
    }
    forall v, w, id | RowHeld(s'.Pc(v), id) && RowHeld(s'.Pc(w), id) ensures v == w {
      assert RowHeld(s.Pc(v), id) && RowHeld(s.Pc(w), id);
    }
  }

  lemma MoveFrame(r: Rules, s: State, e: Event)
    requires Enabled(r, s, e) && Moves(e)
    ensures Apply(r, s, e).t == s.t && forall v :: v != e.w ==> Apply(r, s, e).Pc(v) == s.Pc(v)
  {
  }

  lemma MoveExclusive(r: Rules, s: State, e: Event)
    requires Exclusive(s) && Enabled(r, s, e) && Moves(e)
    ensures Exclusive(Apply(r, s, e))
  {
    MoveFrame(r, s, e);
  }

  lemma SameProven(t: Tables, t': Tables, p: nat)
    requires forall id :: id in t'.submissions && Proof(t'.submissions[id]) && t'.submissions[id].pair.passport == p ==>
      id in t.submissions && Proof(t.submissions[id]) && t.submissions[id].pair == t'.submissions[id].pair
    requires forall id :: id in t.submissions && Proof(t.submissions[id]) && t.submissions[id].pair.passport == p ==>
      id in t'.submissions && Proof(t'.submissions[id]) && t'.submissions[id].pair == t.submissions[id].pair
    ensures ProvenStamps(t', p) == ProvenStamps(t, p)
  {
  }

  lemma SubmitRows(r: Rules, t: Tables, pair: Pair, share: bool, caption: Option<string>)
    requires RowsSound(r, t)
    ensures RowsSound(r, Submitted(t, pair, share, caption))
  {
    var t' := Submitted(t, pair, share, caption);
    forall id | id in t'.submissions ensures RowSound(r, t', id) {
      if id in t.submissions && id != t.nextId {
        assert RowSound(r, t, id);
        SameProven(t, t', t.submissions[id].pair.passport);
      }
    }
  }

  lemma OneHolder(s: State, v: nat, w: nat, passport: nat)
    requires Exclusive(s) && PassportHeld(s.Pc(v), passport) && PassportHeld(s.Pc(w), passport)
    ensures v == w
  {
  }

  lemma OneReviewer(s: State, v: nat, w: nat, id: nat)
    requires Exclusive(s) && RowHeld(s.Pc(v), id) && RowHeld(s.Pc(w), id)
    ensures v == w
  {
  }

  /** The row keeps its pair, its proof status and its liveness. */
  predicate Retouched(row: Submission, row': Submission) {
    row'.pair == row.pair && row'.status == row.status && row'.isDemo == row.isDemo
  }

  lemma FeedRows(r: Rules, t: Tables, id: nat, row': Submission)
    requires RowsSound(r, t) && id in t.submissions && Retouched(t.submissions[id], row')
    requires row'.feedDeleted.Some? ==> !row'.shared
    ensures RowsSound(r, t.(submissions := t.submissions[id := row']))
  {
    var t' := t.(submissions := t.submissions[id := row']);
    forall k | k in t'.submissions ensures RowSound(r, t', k) {
      assert RowSound(r, t, k);
      SameProven(t, t', t.submissions[k].pair.passport);
    }
  }

  lemma RejectRows(r: Rules, t: Tables, id: nat, reviewer: nat, reason: string)
    requires RowsSound(r, t) && id in t.submissions && t.submissions[id].status == Pending
    ensures RowsSound(r, RejectedIn(t, id, reviewer, reason))
  {
    var t' := RejectedIn(t, id, reviewer, reason);
    forall k | k in t'.submissions ensures RowSound(r, t', k) {
      assert RowSound(r, t, k);
      SameProven(t, t', t.submissions[k].pair.passport);
    }
  }

  lemma ApproveRows(r: Rules, t: Tables, id: nat, reviewer: nat)
    requires RowsSound(r, t) && id in t.submissions
    ensures RowsSound(r, ApprovedIn(t, id, reviewer, r.earned))
  {
    var t' := ApprovedIn(t, id, reviewer, r.earned);
    forall k | k in t'.submissions ensures RowSound(r, t', k) {
      assert RowSound(r, t, k);
      ApproveAwards(r, t, id, reviewer, k);
    }
  }

  lemma ApproveAwards(r: Rules, t: Tables, id: nat, reviewer: nat, k: nat)
    requires id in t.submissions && k in t.submissions && Awarded(r, t, k)
    ensures Awarded(r, ApprovedIn(t, id, reviewer, r.earned), k)
  {
    var t' := ApprovedIn(t, id, reviewer, r.earned);
    var p, q := t.submissions[id].pair.passport, t.submissions[k].pair.passport;
    if q == p {
      var row := t.submissions[id].(status := Approved, reviewer := Some(reviewer), reason := None);
      var next := t.(submissions := t.submissions[id := row]);
      assert ProvenStamps(next, p) == ProvenStamps(t', p);
      assert r.earned(ProvenStamps(t', p)) <= t'.Badges(p);
    } else {
      SameProven(t, t', q);
    }
  }

  lemma GrantRows(r: Rules, t: Tables, pair: Pair)
    requires RowsSound(r, t) && pair !in t.collected
    ensures RowsSound(r, t.(collected := t.collected + multiset{pair}))
  {
    var t' := t.(collected := t.collected + multiset{pair});
    forall k | k in t'.submissions ensures RowSound(r, t', k) {
      assert RowSound(r, t, k);
    }
  }

  /** An approved proof rests on the collected stamp. */
  ghost predicate Rests(t: Tables, pair: Pair) {
    exists id :: id in t.submissions && t.submissions[id].pair == pair && Proof(t.submissions[id])
  }

  /** Removing a collected stamp leaves the rows sound exactly when no approved proof rests on it. */
  lemma RevokeSoundIff(r: Rules, t: Tables, pair: Pair)
    requires RowsSound(r, t) && pair in t.collected
    ensures RowsSound(r, t.(collected := t.collected - multiset{pair})) <==> !Rests(t, pair)
  {
    var t' := t.(collected := t.collected - multiset{pair});
    assert t.collected[pair] == 1;
    forall id | id in t.submissions ensures RowSound(r, t, id) && Awarded(r, t', id) {
      SameProven(t, t', t.submissions[id].pair.passport);
    }
    if RowsSound(r, t') {
      forall id | id in t.submissions ensures !(t.submissions[id].pair == pair && Proof(t.submissions[id])) {
        assert RowSound(r, t', id);
      }
    }
  }

  /** The step removes a stamp on which an approved proof rests. */
  ghost predicate Strips(s: State, e: Event) {
    e.Revoke? && Rests(s.t, e.pair)
  }

  /** The rows after any step but such a removal are as sound as before, whichever rows the second check
      saw. */
  lemma StepRows(r: Rules, s: State, e: Event)
    requires RowsInv(r, s) && Enabled(r, s, e) && !Strips(s, e)
    ensures RowsSound(r, Apply(r, s, e).t)
  {
    match e {
      case Revoke(pair) =>
        RevokeSoundIff(r, s.t, pair);
      case Submit(w, share, caption) =>
        SubmitRows(r, s.t, s.Pc(w).pair, share, caption);
      case Reject(w, reviewer, reason) =>
        assert Held(s, w);
        RejectRows(r, s.t, s.Pc(w).id, reviewer, reason);
      case Approve(w, reviewer) =>
        ApproveRows(r, s.t, s.Pc(w).id, reviewer);
      case Share(id, share, caption) =>
        FeedRows(r, s.t, id, s.t.submissions[id].(shared := share, caption := caption));
      case Hide(id, now) =>
        FeedRows(r, s.t, id, HiddenIn(s.t, id, now).submissions[id]);
      case Grant(pair) =>
        GrantRows(r, s.t, pair);
      case _ =>
        MoveFrame(r, s, e);
    }
  }

  lemma StepExclusive(r: Rules, s: State, e: Event)
    requires Exclusive(s) && Enabled(r, s, e)
    ensures Exclusive(Apply(r, s, e))
  {
    if Moves(e) {
      MoveExclusive(r, s, e);
    } else {
      ReleaseExclusive(s, Apply(r, s, e));
    }
  }

  // ----- runs -----

  ghost predicate Run(r: Rules, s: State, events: seq<Event>, s': State)
    decreases |events|
  {
    if events == [] then s == s'
    else Enabled(r, s, events[0]) && Run(r, Apply(r, s, events[0]), events[1..], s')
  }

  /** Every state of the run has the property. */
  ghost predicate Throughout(r: Rules, s: State, events: seq<Event>, p: State -> bool)
    decreases |events|
  {
    p(s) && (events != [] && Enabled(r, s, events[0]) ==> Throughout(r, Apply(r, s, events[0]), events[1..], p))
  }

  /** No step of the run is of the kind. */
  ghost predicate Never(r: Rules, s: State, events: seq<Event>, kind: (State, Event) -> bool)
    decreases |events|
  {
    events != [] && Enabled(r, s, events[0]) ==>
      !kind(s, events[0]) && Never(r, Apply(r, s, events[0]), events[1..], kind)
  }

  // ----- a review is final, whatever else happens -----

  ghost predicate Steady(s: State) {
    Exclusive(s) && (forall id :: id in s.t.submissions ==> id < s.t.nextId) && forall w :: Held(s, w)
  }

  lemma StepHeld(r: Rules, s: State, e: Event, v: nat)
    requires Steady(s) && Enabled(r, s, e)
    ensures Held(Apply(r, s, e), v)
  {
    assert Held(s, v);
    if Moves(e) {
      MoveFrame(r, s, e);
    } else if (e.Reject? || e.Approve?) && v != e.w {
      assert RowHeld(s.Pc(e.w), s.Pc(e.w).id);
      if RowHeld(s.Pc(v), s.Pc(e.w).id) {
        OneReviewer(s, v, e.w, s.Pc(e.w).id);
      }
    }
  }

  lemma StepSteady(r: Rules, s: State, e: Event)
    requires Steady(s) && Enabled(r, s, e)
    ensures Steady(Apply(r, s, e))
  {
    StepExclusive(r, s, e);
    forall v ensures Held(Apply(r, s, e), v) {
      StepHeld(r, s, e, v);
    }
    if e.Reject? || e.Approve? {
      assert Held(s, e.w);
    }
  }

  /** The row stays that pair's; its review, once made, and its removal from the feed are final. */
  predicate RowKept(row: Submission, row': Submission) {
    && row'.pair == row.pair && row'.isDemo == row.isDemo
    && (row.status != Pending ==>
          row'.status == row.status && row'.reviewer == row.reviewer && row'.reason == row.reason)
    && (row.feedDeleted.Some? ==> row'.feedDeleted == row.feedDeleted)
  }

  ghost predicate RowsKept(t: Tables, t': Tables) {
    && (forall id :: id in t.submissions ==> id in t'.submissions && RowKept(t.submissions[id], t'.submissions[id]))
    && (forall p :: t.Badges(p) <= t'.Badges(p))
  }

  lemma StepKeepsRows(r: Rules, s: State, e: Event)
    requires Steady(s) && Enabled(r, s, e)
    ensures RowsKept(s.t, Apply(r, s, e).t)
  {
    if Moves(e) {
      MoveFrame(r, s, e);
    } else if e.Reject? || e.Approve? {
      assert Held(s, e.w);
    }
  }

  lemma RowsKeptOverTwo(t: Tables, m: Tables, t': Tables)
    requires RowsKept(t, m) && RowsKept(m, t')
    ensures RowsKept(t, t')
  {
    forall id | id in t.submissions ensures id in t'.submissions && RowKept(t.submissions[id], t'.submissions[id]) {
      assert RowKept(t.submissions[id], m.submissions[id]) && RowKept(m.submissions[id], t'.submissions[id]);
    }
  }

  /** On every run, with either kind of read and any administration of collected stamps. */
  lemma {:induction false} ReviewsAreFinal(r: Rules, s: State, events: seq<Event>, s': State)
    requires Steady(s) && Run(r, s, events, s')
    ensures RowsKept(s.t, s'.t)
    decreases |events|
  {
    if events != [] {
      var m := Apply(r, s, events[0]);
      StepKeepsRows(r, s, events[0]);
      StepSteady(r, s, events[0]);
      ReviewsAreFinal(r, m, events[1..], s');
      RowsKeptOverTwo(s.t, m.t, s'.t);
    }
  }

  // ----- what holds whichever rows the second check sees -----

  lemma RowsAreSteady(r: Rules, s: State)
    requires RowsInv(r, s)
    ensures Steady(s)
  {
    forall id | id in s.t.submissions ensures id < s.t.nextId {
      assert RowSound(r, s.t, id);
    }
  }

  lemma StepRowsInv(r: Rules, s: State, e: Event)
    requires RowsInv(r, s) && Enabled(r, s, e) && !Strips(s, e)
    ensures RowsInv(r, Apply(r, s, e))
  {
    RowsAreSteady(r, s);
    StepSteady(r, s, e);
    StepRows(r, s, e);
  }

  lemma {:induction false} RunRowsInv(r: Rules, s: State, events: seq<Event>, s': State)
    requires RowsInv(r, s) && Run(r, s, events, s') && Never(r, s, events, Strips)
    ensures RowsInv(r, s')
    decreases |events|
  {
    if events != [] {
      StepRowsInv(r, s, events[0]);
      RunRowsInv(r, Apply(r, s, events[0]), events[1..], s');
    }
  }

  // ----- which steps break a promise, on any run and with either kind of read -----

  /** When the steps of one kind are those that end a property, it lasts exactly while there is none. */
  lemma {:induction false} LastsIff(r: Rules, s: State, events: seq<Event>, s': State, p: State -> bool,
                                    kind: (State, Event) -> bool)
    requires Steady(s) && p(s) && Run(r, s, events, s')
    requires forall m, e :: Steady(m) && p(m) && Enabled(r, m, e) ==> (p(Apply(r, m, e)) <==> !kind(m, e))
    ensures Throughout(r, s, events, p) <==> Never(r, s, events, kind)
    decreases |events|
  {
    if events != [] {
      var m := Apply(r, s, events[0]);
      StepSteady(r, s, events[0]);
      if p(m) {
        LastsIff(r, m, events[1..], s', p, kind);
      }
    }
  }

  /** A step leaves the rows sound exactly unless it removes a stamp on which an approved proof rests. */
  lemma StepRowsIff(r: Rules, s: State, e: Event)
    requires Steady(s) && RowsSound(r, s.t) && Enabled(r, s, e)
    ensures RowsSound(r, Apply(r, s, e).t) <==> !Strips(s, e)
  {
    if e.Revoke? {
      RevokeSoundIff(r, s.t, e.pair);
    } else {
      StepRows(r, s, e);
    }
  }

  ghost function RowsSoundIn(r: Rules): State -> bool {
    (s: State) => RowsSound(r, s.t)
  }

  /** Over a run the rows stay sound exactly when no such removal occurs. */
  lemma RowsSoundIff(r: Rules, s: State, events: seq<Event>, s': State)
    requires Steady(s) && RowsSound(r, s.t) && Run(r, s, events, s')
    ensures Throughout(r, s, events, RowsSoundIn(r)) <==> Never(r, s, events, Strips)
  {
    var p := RowsSoundIn(r);
    forall m, e | Steady(m) && p(m) && Enabled(r, m, e) ensures p(Apply(r, m, e)) <==> !Strips(m, e) {
      StepRowsIff(r, m, e);
    }
    LastsIff(r, s, events, s', p, Strips);
  }

  /** The step stores a submission for a pair that has a live one. */
  ghost predicate Crowds(s: State, e: Event) {
    e.Submit? && s.Pc(e.w).Rechecked? && !NoLive(s.t, s.Pc(e.w).pair)
  }

  /** Rows that were live before for the same pair do not crowd it. */
  lemma OneLiveFewer(t: Tables, t': Tables)
    requires OneLive(t)
    requires forall id :: id in t'.submissions && Live(t'.submissions[id]) ==>
      id in t.submissions && Live(t.submissions[id]) && t.submissions[id].pair == t'.submissions[id].pair
    ensures OneLive(t')
  {
  }

  /** A step keeps one live submission a pair exactly unless it stores one beside a live one. */
  lemma StepOneLiveIff(r: Rules, s: State, e: Event)
    requires Steady(s) && OneLive(s.t) && Enabled(r, s, e)
    ensures OneLive(Apply(r, s, e).t) <==> !Crowds(s, e)
  {
    var t' := Apply(r, s, e).t;
    if e.Submit? {
      SubmitOneLiveIff(s.t, s.Pc(e.w).pair, e.share, e.caption);
    } else {
      if e.Reject? || e.Approve? {
        assert Held(s, e.w);
      } else if Moves(e) {
        MoveFrame(r, s, e);
      }
      OneLiveFewer(s.t, t');
    }
  }

  lemma SubmitOneLiveIff(t: Tables, pair: Pair, share: bool, caption: Option<string>)
    requires OneLive(t) && t.nextId !in t.submissions
    ensures OneLive(Submitted(t, pair, share, caption)) <==> NoLive(t, pair)
  {
    var t' := Submitted(t, pair, share, caption);
    assert Live(t'.submissions[t.nextId]) && t'.submissions[t.nextId].pair == pair;
    forall id | id in t.submissions ensures id in t'.submissions && t'.submissions[id] == t.submissions[id] {}
  }

  ghost predicate OneLiveIn(s: State) {
    OneLive(s.t)
  }

  /** Over a run, whatever is granted or removed, no pair ever has two live submissions exactly when none
      is stored beside a live one. */
  lemma OneLiveThroughoutIff(r: Rules, s: State, events: seq<Event>, s': State)
    requires Steady(s) && OneLive(s.t) && Run(r, s, events, s')
    ensures Throughout(r, s, events, OneLiveIn) <==> Never(r, s, events, Crowds)
  {
    forall m, e | Steady(m) && OneLiveIn(m) && Enabled(r, m, e)
      ensures OneLiveIn(Apply(r, m, e)) <==> !Crowds(m, e)
    {
      StepOneLiveIff(r, m, e);
    }
    LastsIff(r, s, events, s', OneLiveIn, Crowds);
  }

  /** No submission waits for a stamp already collected. */
  ghost predicate Apart(s: State) {
    forall id :: id in s.t.submissions && s.t.submissions[id].status == Pending ==>
      s.t.submissions[id].pair !in s.t.collected
  }

  /** The step grants a stamp whose proof is pending. */
  ghost predicate GrantsPending(s: State, e: Event) {
    e.Grant? && HasPending(s.t, e.pair)
  }

  /** The step collects a stamp with another proof pending, or stores a proof for a collected stamp. */
  ghost predicate Parts(s: State, e: Event) {
    || GrantsPending(s, e)
    || (e.Submit? && s.Pc(e.w).Rechecked? && s.Pc(e.w).pair in s.t.collected)
    || (e.Approve? && s.Pc(e.w).Approving? && HasRival(s.t, s.Pc(e.w).id))
  }

  ghost predicate HasRival(t: Tables, id: nat) {
    exists k :: k in t.submissions && k != id && id in t.submissions
                && t.submissions[k].status == Pending && t.submissions[k].pair == t.submissions[id].pair
  }

  /** A step keeps pending and collected apart exactly unless it is one of those. */
  lemma StepPartsIff(r: Rules, s: State, e: Event)
    requires Steady(s) && Apart(s) && Enabled(r, s, e)
    ensures Apart(Apply(r, s, e)) <==> !Parts(s, e)
  {
    var t, t' := s.t, Apply(r, s, e).t;
    if e.Submit? {
      assert t'.submissions[t.nextId].status == Pending && t'.submissions[t.nextId].pair == s.Pc(e.w).pair;
      forall id | id in t.submissions ensures id in t'.submissions && t'.submissions[id] == t.submissions[id] {}
    } else if e.Approve? {
      assert Held(s, e.w);
      ApprovePartsIff(r, s, e.w, e.reviewer);
    } else if Moves(e) {
      MoveFrame(r, s, e);
    }
  }

  lemma ApprovePartsIff(r: Rules, s: State, w: nat, reviewer: nat)
    requires Held(s, w) && Apart(s) && Enabled(r, s, Approve(w, reviewer))
    ensures Apart(Apply(r, s, Approve(w, reviewer))) <==> !HasRival(s.t, s.Pc(w).id)
  {
    var id, t, t' := s.Pc(w).id, s.t, Apply(r, s, Approve(w, reviewer)).t;
    assert t'.submissions[id].status == Approved && t.submissions[id].pair in t'.collected;
    forall k | k in t.submissions && k != id ensures k in t'.submissions && t'.submissions[k] == t.submissions[k] {}
    if k :| HasRival(t, id) && k in t.submissions && k != id && t.submissions[k].status == Pending
            && t.submissions[k].pair == t.submissions[id].pair {
      assert t'.submissions[k].pair in t'.collected;
    }
  }

  /** Over a run, whatever is granted or removed, no pair is ever pending and collected exactly when no
      such step occurs. */
  lemma ApartThroughoutIff(r: Rules, s: State, events: seq<Event>, s': State)
    requires Steady(s) && Apart(s) && Run(r, s, events, s')
    ensures Throughout(r, s, events, Apart) <==> Never(r, s, events, Parts)
  {
    forall m, e | Steady(m) && Apart(m) && Enabled(r, m, e) ensures Apart(Apply(r, m, e)) <==> !Parts(m, e) {
      StepPartsIff(r, m, e);
    }
    LastsIff(r, s, events, s', Apart, Parts);
  }

  // ----- under committed reads -----

  lemma InvIsSteady(r: Rules, s: State)
    requires Inv(r, s)
    ensures Steady(s) && RowsInv(r, s)
  {
    forall w ensures Held(s, w) {
      assert Fresh(s, w);
    }
    RowsAreSteady(r, s);
  }

  /** With approved proofs always collected, a pair open for a proof has no live submission. */
  lemma OpenHasNoLive(r: Rules, t: Tables, pair: Pair)
    requires Sound(r, t) && Open(t, pair)
    ensures NoLive(t, pair)
  {
    forall id | id in t.submissions && t.submissions[id].pair == pair ensures !Live(t.submissions[id]) {
      assert RowSound(r, t, id);
    }
  }

  lemma MoveFresh(r: Rules, s: State, e: Event, v: nat)
    requires r.selects.Committed? && Sound(r, s.t) && Fresh(s, v) && Enabled(r, s, e) && Moves(e)
    ensures Fresh(Apply(r, s, e), v)
  {
    MoveFrame(r, s, e);
    if e.Recheck? && v == e.w {
      OpenHasNoLive(r, s.t, s.Pc(v).pair);
    }
  }

  lemma SubmitFresh(s: State, w: nat, share: bool, caption: Option<string>, v: nat, s': State)
    requires s.Pc(w).Rechecked? && Exclusive(s) && v != w && Fresh(s, v) && s'.Pc(v) == s.Pc(v)
    requires s.t.nextId !in s.t.submissions && s'.t == Submitted(s.t, s.Pc(w).pair, share, caption)
    ensures Fresh(s', v)
  {
    if s.Pc(v).Rechecked? && s.Pc(v).pair == s.Pc(w).pair {
      OneHolder(s, v, w, s.Pc(w).pair.passport);
    }
  }

  /** A review ends with the row's status settled; another worker cannot hold that row or passport. */
  lemma ReviewFresh(s: State, w: nat, row': Submission, v: nat, s': State)
    requires s.Pc(w).Reviewing? || s.Pc(w).Approving?
    requires Exclusive(s) && v != w && Fresh(s, v) && Fresh(s, w) && s'.Pc(v) == s.Pc(v)
    requires row'.pair == s.t.submissions[s.Pc(w).id].pair && row'.isDemo == s.t.submissions[s.Pc(w).id].isDemo
    requires s'.t.submissions == s.t.submissions[s.Pc(w).id := row']
    requires forall pair :: pair in s'.t.collected && pair !in s.t.collected ==>
      s.Pc(w).Approving? && pair.passport == s.Pc(w).passport
    ensures Fresh(s', v)
  {
    var id := s.Pc(w).id;
    assert RowHeld(s.Pc(w), id);
    if RowHeld(s.Pc(v), id) {
      OneReviewer(s, v, w, id);
    }
    if s.Pc(v).Rechecked? && s.Pc(w).Approving? && s.Pc(v).pair.passport == s.Pc(w).passport {
      OneHolder(s, v, w, s.Pc(w).passport);
    }
  }

  lemma ReviewStepFresh(r: Rules, s: State, e: Event, v: nat)
    requires Exclusive(s) && Enabled(r, s, e) && (e.Reject? || e.Approve?) && Fresh(s, v) && Fresh(s, e.w)
    ensures Fresh(Apply(r, s, e), v)
  {
    if v != e.w {
      var s' := Apply(r, s, e);
      ReviewFresh(s, e.w, s'.t.submissions[s.Pc(e.w).id], v, s');
    }
  }

  /** A grant waits for the passport, so it cannot come between a second check and what it allows. */
  lemma StampStepFresh(r: Rules, s: State, e: Event, v: nat)
    requires Fresh(s, v) && Enabled(r, s, e) && (e.Grant? || e.Revoke?)
    ensures Fresh(Apply(r, s, e), v)
  {
    if s.Pc(v).Rechecked? {
      assert PassportHeld(s.Pc(v), s.Pc(v).pair.passport);
    }
  }

  lemma FeedStepFresh(r: Rules, s: State, e: Event, v: nat)
    requires Fresh(s, v) && Enabled(r, s, e) && (e.Share? || e.Hide?)
    ensures Fresh(Apply(r, s, e), v)
  {
    assert Retouched(s.t.submissions[e.id], Apply(r, s, e).t.submissions[e.id]);
  }

  lemma StepFresh(r: Rules, s: State, e: Event, v: nat)
    requires r.selects.Committed? && Inv(r, s) && Enabled(r, s, e)
    ensures Fresh(Apply(r, s, e), v)
  {
    assert Fresh(s, v);
    if e.Submit? {
      if v != e.w {
        InvIsSteady(r, s);
        SubmitFresh(s, e.w, e.share, e.caption, v, Apply(r, s, e));
      }
    } else if e.Reject? || e.Approve? {
      assert Fresh(s, e.w);
      ReviewStepFresh(r, s, e, v);
    } else if e.Grant? || e.Revoke? {
      StampStepFresh(r, s, e, v);
    } else if e.Share? || e.Hide? {
      FeedStepFresh(r, s, e, v);
    } else {
      MoveFresh(r, s, e, v);
    }
  }

  lemma CommittedSteps(r: Rules, s: State, e: Event)
    requires Inv(r, s) && Enabled(r, s, e)
    ensures !Crowds(s, e) && (Parts(s, e) <==> GrantsPending(s, e))
  {
    if e.Submit? {
      assert Fresh(s, e.w);
    } else if e.Approve? {
      assert Fresh(s, e.w);
      var id := s.Pc(e.w).id;
      forall k | k in s.t.submissions && k != id && s.t.submissions[k].status == Pending
        ensures s.t.submissions[k].pair != s.t.submissions[id].pair
      {
        assert Live(s.t.submissions[k]) && Live(s.t.submissions[id]);
      }
    }
  }

  /** The tables after any step but a removal that strips a proof are as sound as before. */
  lemma StepSound(r: Rules, s: State, e: Event)
    requires Inv(r, s) && Enabled(r, s, e) && !Strips(s, e)
    ensures Sound(r, Apply(r, s, e).t)
  {
    InvIsSteady(r, s);
    CommittedSteps(r, s, e);
    StepOneLiveIff(r, s, e);
    StepRows(r, s, e);
  }

  lemma StepInv(r: Rules, s: State, e: Event)
    requires r.selects.Committed? && Inv(r, s) && Enabled(r, s, e) && !Strips(s, e)
    ensures Inv(r, Apply(r, s, e))
  {
    StepSound(r, s, e);
    StepExclusive(r, s, e);
    forall v ensures Fresh(Apply(r, s, e), v) {
      StepFresh(r, s, e, v);
    }
  }

  lemma {:induction false} RunInv(r: Rules, s: State, events: seq<Event>, s': State)
    requires r.selects.Committed? && Inv(r, s) && Run(r, s, events, s') && Never(r, s, events, Strips)
    ensures Inv(r, s')
    decreases |events|
  {
    if events != [] {
      StepInv(r, s, events[0]);
      RunInv(r, Apply(r, s, events[0]), events[1..], s');
    }
  }

  lemma {:induction false} CommittedRun(r: Rules, s: State, events: seq<Event>, s': State)
    requires r.selects.Committed? && Inv(r, s) && Run(r, s, events, s') && Never(r, s, events, Strips)
    ensures Never(r, s, events, Crowds)
    ensures Never(r, s, events, Parts) <==> Never(r, s, events, GrantsPending)
    decreases |events|
  {
    if events != [] {
      CommittedSteps(r, s, events[0]);
      StepInv(r, s, events[0]);
      CommittedRun(r, Apply(r, s, events[0]), events[1..], s');
    }
  }

  /** Pending and collected stay apart in every step but a grant to a pending pair. */
  lemma StepApartIff(r: Rules, s: State, e: Event)
    requires r.selects.Committed? && Inv(r, s) && Apart(s) && Enabled(r, s, e)
    ensures Apart(Apply(r, s, e)) <==> !GrantsPending(s, e)
  {
    InvIsSteady(r, s);
    StepPartsIff(r, s, e);
    CommittedSteps(r, s, e);
  }

  /** A pair is pending and collected at once somewhere in a run exactly when an administrator grants
      a stamp whose proof is pending. */
  lemma ApartIffUncontested(r: Rules, s: State, events: seq<Event>, s': State)
    requires r.selects.Committed? && Inv(r, s) && Apart(s) && Run(r, s, events, s') && Never(r, s, events, Strips)
    ensures Throughout(r, s, events, Apart) <==> Never(r, s, events, GrantsPending)
  {
    InvIsSteady(r, s);
    ApartThroughoutIff(r, s, events, s');
    CommittedRun(r, s, events, s');
  }

  // ----- what the second check needs -----

  /** Some run leads to the state in which no stamp is removed on which an approved proof rests. */
  ghost predicate Reached(r: Rules, s': State) {
    exists s, events :: Init(r, s) && Run(r, s, events, s') && Never(r, s, events, Strips)
  }

  lemma RunThen(r: Rules, s: State, events: seq<Event>, m: State, e: Event)
    requires Run(r, s, events, m) && Enabled(r, m, e) && Never(r, s, events, Strips) && !Strips(m, e)
    ensures Run(r, s, events + [e], Apply(r, m, e)) && Never(r, s, events + [e], Strips)
    decreases |events|
  {
    if events == [] {
      assert (events + [e])[1..] == [];
    } else {
      RunThen(r, Apply(r, s, events[0]), events[1..], m, e);
      assert (events + [e])[1..] == events[1..] + [e];
    }
  }

  lemma ReachedThen(r: Rules, m: State, e: Event)
    requires Reached(r, m) && Enabled(r, m, e) && !Strips(m, e)
    ensures Reached(r, Apply(r, m, e))
  {
    var s, events :| Init(r, s) && Run(r, s, events, m) && Never(r, s, events, Strips);
    RunThen(r, s, events, m, e);
  }

  /** Two requests for a new pair pass the first check. */
  lemma BothChecked(r: Rules, pair: Pair, none: Tables)
    requires none == Tables(map[], multiset{}, map[], 0)
    ensures Reached(r, State(none, map[0 := Checked(pair, none), 1 := Checked(pair, none)]))
  {
    var s := State(none, map[]);
    assert Reached(r, s) by {
      assert Init(r, s) && Run(r, s, [], s) && Never(r, s, [], Strips);
    }
    ReachedThen(r, s, Check(0, pair));
    ReachedThen(r, s.Goto(0, Checked(pair, none)), Check(1, pair));
  }

  /** The first of them checks again under the lock. */
  lemma FirstRechecked(r: Rules, pair: Pair, none: Tables)
    requires none == Tables(map[], multiset{}, map[], 0)
    ensures Reached(r, State(none, map[0 := Rechecked(pair), 1 := Checked(pair, none)]))
  {
    BothChecked(r, pair, none);
    var s := State(none, map[0 := Checked(pair, none), 1 := Checked(pair, none)]);
    ReachedThen(r, s, LockPassport(0));
    s := s.Goto(0, Locked(pair, none));
    ReachedThen(r, s, Recheck(0));
    assert s.Goto(0, Rechecked(pair)) == State(none, map[0 := Rechecked(pair), 1 := Checked(pair, none)]);
  }

  /** It stores its submission. */
  lemma FirstOfTwo(r: Rules, pair: Pair, none: Tables) returns (s: State)
    requires none == Tables(map[], multiset{}, map[], 0)
    ensures Reached(r, s)
    ensures s.t == Submitted(none, pair, false, None) && s.pcs == map[0 := Idle, 1 := Checked(pair, none)]
  {
    FirstRechecked(r, pair, none);
    s := State(none, map[0 := Rechecked(pair), 1 := Checked(pair, none)]);
    ReachedThen(r, s, Submit(0, false, None));
    s := s.Goto(0, Idle).(t := Submitted(none, pair, false, None));
  }

  /** A stamp granted while its proof is pending: pending and collected at once. */
  lemma GrantWhilePending(r: Rules, pair: Pair) returns (s: State)
    ensures Reached(r, s) && HasPending(s.t, pair) && pair in s.t.collected
  {
    var m := FirstOfTwo(r, pair, Tables(map[], multiset{}, map[], 0));
    ReachedThen(r, m, Grant(pair));
    s := Apply(r, m, Grant(pair));
    assert s.t.submissions[0].pair == pair;
  }

  /** The first proof approved. */
  lemma FirstApproved(r: Rules, pair: Pair) returns (s: State)
    ensures Reached(r, s) && 0 in s.t.submissions && Proof(s.t.submissions[0]) && s.t.submissions[0].pair == pair
    ensures s.t.collected == multiset{pair}
  {
    s := FirstOfTwo(r, pair, Tables(map[], multiset{}, map[], 0));
    ReachedThen(r, s, LockSubmission(0, 0));
    s := s.Goto(0, Reviewing(0));
    ReachedThen(r, s, LockForApproval(0));
    s := s.Goto(0, Approving(0, pair.passport));
    ReachedThen(r, s, Approve(0, 1));
    s := Apply(r, s, Approve(0, 1));
  }

  /** Removing that stamp leaves the approved proof without it. */
  lemma RevokeLeavesProofAlone(r: Rules, pair: Pair) returns (s: State, id: nat)
    ensures Reached(r, s) && Enabled(r, s, Revoke(pair))
    ensures var t := Apply(r, s, Revoke(pair)).t;
      id in t.submissions && Proof(t.submissions[id]) && t.submissions[id].pair == pair && pair !in t.collected
  {
    s := FirstApproved(r, pair);
    id := 0;
  }

  lemma TwoPending(t: Tables, pair: Pair)
    requires 0 in t.submissions && t.submissions[0].pair == pair && t.submissions[0].status == Pending
    requires 1 in t.submissions && t.submissions[1].pair == pair && t.submissions[1].status == Pending
    ensures HasPending(t, pair) && !OneLive(t)
  {
    assert Live(t.submissions[0]) && Live(t.submissions[1]);
  }

  /** The second request then checks again the rows it read first, and passes. */
  lemma SecondRechecked(r: Rules, pair: Pair, none: Tables) returns (s: State)
    requires r.selects.FirstRead? && none == Tables(map[], multiset{}, map[], 0)
    ensures Reached(r, s) && s.t == Submitted(none, pair, false, None) && s.Pc(1) == Rechecked(pair)
  {
    s := FirstOfTwo(r, pair, none);
    ReachedThen(r, s, LockPassport(1));
    s := s.Goto(1, Locked(pair, none));
    ReachedThen(r, s, Recheck(1));
    s := s.Goto(1, Rechecked(pair));
  }

  /** The second stores another submission for the pair. */
  lemma SecondPendingOnFirstReads(r: Rules, pair: Pair) returns (s: State)
    requires r.selects.FirstRead?
    ensures Reached(r, s) && HasPending(s.t, pair) && !OneLive(s.t)
  {
    var m := SecondRechecked(r, pair, Tables(map[], multiset{}, map[], 0));
    ReachedThen(r, m, Submit(1, false, None));
    s := Apply(r, m, Submit(1, false, None));
    TwoPending(s.t, pair);
  }

  /** One live submission a pair in every reachable state, exactly when the second check sees
      committed rows. */
  lemma OneLiveIffCommittedReads(r: Rules)
    ensures (forall s :: Reached(r, s) ==> OneLive(s.t)) <==> r.selects.Committed?
  {
    if r.selects.Committed? {
      forall s' | Reached(r, s') ensures OneLive(s'.t) {
        var s, events :| Init(r, s) && Run(r, s, events, s') && Never(r, s, events, Strips);
        RunInv(r, s, events, s');
      }
    } else {
      var s := SecondPendingOnFirstReads(r, Pair(1, 2));
    }
  }

  /** What holds of a submission in every reachable state, whichever rows the second check sees. */
  lemma RowPromises(r: Rules, s: State, id: nat)
    requires Reached(r, s) && id in s.t.submissions
    ensures var row := s.t.submissions[id];
      && (Proof(row) ==> s.t.collected[row.pair] == 1)
      && (Proof(row) ==> r.earned(ProvenStamps(s.t, row.pair.passport)) <= s.t.Badges(row.pair.passport))
      && !(row.feedDeleted.Some? && row.shared)
  {
    var s0, events :| Init(r, s0) && Run(r, s0, events, s) && Never(r, s0, events, Strips);
    RunRowsInv(r, s0, events, s);
    assert RowSound(r, s.t, id);
  }

  /** What holds of any two submissions in every reachable state when it sees committed rows. */
  lemma PairPromises(r: Rules, s: State, a: nat, b: nat)
    requires r.selects.Committed? && Reached(r, s)
    requires a in s.t.submissions && b in s.t.submissions && s.t.submissions[a].pair == s.t.submissions[b].pair
    ensures var x, y := s.t.submissions[a], s.t.submissions[b];
      && (x.status == Pending && y.status == Pending ==> a == b)
      && (Proof(x) && Proof(y) ==> a == b)
      && !(x.status == Pending && Proof(y))
  {
    OneLiveIffCommittedReads(r);
    assert OneLive(s.t);
  }

  // ----- every outcome is one the service gives on its own -----

  /** A submission is stored as by a request running alone at that moment exactly when the pair is then
      open; having seen committed rows, always. */
  lemma SubmitAsIfAloneIff(r: Rules, s: State, w: nat, share: bool, caption: Option<string>)
    requires Enabled(r, s, Submit(w, share, caption))
    ensures var pair := s.Pc(w).pair;
      && (Open(s.t, pair) <==>
            Created(s.t, pair, true, true, true, share, caption, Apply(r, s, Submit(w, share, caption)).t,
                    Success(s.t.nextId)))
      && (Inv(r, s) ==> Open(s.t, pair))
  {
    if Inv(r, s) {
      assert Fresh(s, w);
      var pair := s.Pc(w).pair;
      if id :| id in s.t.submissions && s.t.submissions[id].pair == pair && s.t.submissions[id].status == Pending {
        assert Live(s.t.submissions[id]);
      }
    }
  }

  /** A review ends as one running alone at that moment, whatever else happens and whichever rows the
      second check sees. */
  lemma ReviewAsIfAlone(r: Rules, s: State, e: Event)
    requires Steady(s) && Enabled(r, s, e) && (e.Reject? || e.Approve?)
    ensures var id := s.Pc(e.w).id;
      var t' := Apply(r, s, e).t;
      id in t'.submissions &&
      Reviewed(s.t, id, e.reviewer, if e.Reject? then Some(e.reason) else None, r.earned, t',
               Success(t'.submissions[id]))
  {
    assert Held(s, e.w);
  }

  /** So does a change to the feed. */
  lemma FeedAsIfAlone(r: Rules, s: State, e: Event)
    requires Enabled(r, s, e)
    ensures e.Share? ==> Reshared(s.t, e.id, e.share, e.caption, Apply(r, s, e).t)
    ensures e.Hide? ==> Removed(s.t, e.id, e.now, Apply(r, s, e).t)
  {
  }
}
