/** Concurrent requests against one campaign: workers hold the campaign row lock, then the
    member's claim row lock, until they commit or roll back. */
module RewardAllocation {
  import opened Wrappers
  import opened RewardTables

  /** Where a worker's transaction stands. `Waiting...` workers hold nothing; a claim request
      holds the campaign row from `HoldsCampaign` on, a `Returning` one its claim row as well,
      and an update the claim row while `Fulfilling`. */
  datatype Pc =
    | Idle
    | WaitingForCampaign(user: nat, shipping: Shipping)
    | HoldsCampaign(user: nat, shipping: Shipping)
    | NoClaimFound(user: nat, shipping: Shipping)
    | Inserting(user: nat, shipping: Shipping, stamps: int, now: int)
    | Returning(user: nat, id: nat)
    | WaitingForRow(id: nat, status: Status)
    | Fulfilling(id: nat, status: Status)

  /** `log` lists every allocation ever committed, `base` is the count the campaign started with. */
  datatype State = State(t: Tables, pcs: map<nat, Pc>, log: seq<nat>, base: int)
  {
    function Pc(w: nat): Pc { if w in pcs then pcs[w] else Idle }

    function Goto(w: nat, pc: Pc): State { this.(pcs := pcs[w := pc]) }
  }

  predicate CampaignHeld(pc: Pc) {
    pc.HoldsCampaign? || pc.NoClaimFound? || pc.Inserting? || pc.Returning?
  }

  predicate RowHeld(pc: Pc, id: nat) {
    (pc.Returning? || pc.Fulfilling?) && pc.id == id
  }

  ghost predicate CampaignFree(s: State) {
    forall v :: !CampaignHeld(s.Pc(v))
  }

  ghost predicate RowFree(s: State, id: nat) {
    forall v :: !RowHeld(s.Pc(v), id)
  }

  datatype Event =
    | Arrive(w: nat, user: nat, shipping: Shipping)
    | LockCampaign(w: nat)
    | FindClaim(w: nat, id: nat)
    | FindNone(w: nat)
    | Insert(w: nat, stamps: int, now: int)
    | Refuse(w: nat, stamps: int)
    | Commit(w: nat)
    | Reply(w: nat)
    | ArriveUpdate(w: nat, id: nat, status: Status)
    | LockRow(w: nat)
    | RefuseUpdate(w: nat)
    | CommitUpdate(w: nat, now: int)
    | Rollback(w: nat)
    | DeleteAccount(user: nat)

  ghost predicate Enabled(s: State, e: Event) {
    match e
    case Arrive(w, _, _) => s.Pc(w).Idle?
    case LockCampaign(w) => s.Pc(w).WaitingForCampaign? && CampaignFree(s)
    case FindClaim(w, id) =>
      s.Pc(w).HoldsCampaign? && s.t.campaign.Some? && Owns(s.t, s.Pc(w).user, id) && RowFree(s, id)
    case FindNone(w) => s.Pc(w).HoldsCampaign? && s.t.campaign.Some? && !HasClaim(s.t, s.Pc(w).user)
    case Insert(w, stamps, _) =>
      s.Pc(w).NoClaimFound? && s.t.campaign.Some? && Eligible(s.t.campaign.value, stamps) && s.Pc(w).user in s.t.users
    case Refuse(w, stamps) =>
      || (s.Pc(w).HoldsCampaign? && s.t.campaign.None?)
      || (s.Pc(w).NoClaimFound? && s.t.campaign.Some? &&
          (!Eligible(s.t.campaign.value, stamps) || s.Pc(w).user !in s.t.users))
    case Commit(w) => s.Pc(w).Inserting? && s.t.campaign.Some?
    case Reply(w) => s.Pc(w).Returning?
    case ArriveUpdate(w, _, _) => s.Pc(w).Idle?
    case LockRow(w) => s.Pc(w).WaitingForRow? && s.Pc(w).id in s.t.claims && RowFree(s, s.Pc(w).id)
                       && Order(s.t.claims[s.Pc(w).id].status) <= Order(s.Pc(w).status)
    case RefuseUpdate(w) => s.Pc(w).WaitingForRow? && RowFree(s, s.Pc(w).id)
                            && (s.Pc(w).id in s.t.claims ==>
                                 Order(s.Pc(w).status) < Order(s.t.claims[s.Pc(w).id].status))
    case CommitUpdate(w, _) => s.Pc(w).Fulfilling? && s.Pc(w).id in s.t.claims
    case Rollback(w) => !s.Pc(w).Idle?
    case DeleteAccount(user) =>
      // the delete waits for the claim row, and for an uncommitted insert that references the user
      && (forall id :: Owns(s.t, user, id) ==> RowFree(s, id))
      && (forall v :: s.Pc(v).Inserting? ==> s.Pc(v).user != user)
  }

  /** Uncommitted work lives in the worker; only commits and deletions change the tables. */
  ghost function Apply(s: State, e: Event): State
    requires Enabled(s, e)
  {
    match e
    case Arrive(w, user, shipping) => s.Goto(w, WaitingForCampaign(user, shipping))
    case LockCampaign(w) => s.Goto(w, HoldsCampaign(s.Pc(w).user, s.Pc(w).shipping))
    case FindClaim(w, id) => s.Goto(w, Returning(s.Pc(w).user, id))
    case FindNone(w) => s.Goto(w, NoClaimFound(s.Pc(w).user, s.Pc(w).shipping))
    case Insert(w, stamps, now) => s.Goto(w, Inserting(s.Pc(w).user, s.Pc(w).shipping, stamps, now))
    case Refuse(w, _) => s.Goto(w, Idle)
    case Commit(w) =>
      var pc := s.Pc(w);
      s.Goto(w, Idle).(t := Inserted(s.t, pc.user, pc.shipping, pc.now), log := s.log + [pc.user])
    case Reply(w) => s.Goto(w, Idle)
    case ArriveUpdate(w, id, status) => s.Goto(w, WaitingForRow(id, status))
    case LockRow(w) => s.Goto(w, Fulfilling(s.Pc(w).id, s.Pc(w).status))
    case RefuseUpdate(w) => s.Goto(w, Idle)
    case CommitUpdate(w, now) => s.Goto(w, Idle).(t := Updated(s.t, s.Pc(w).id, s.Pc(w).status, now))
    case Rollback(w) => s.Goto(w, Idle)
    case DeleteAccount(user) => s.(t := Deleted(s.t, user))
  }

  // ----- the invariant -----

  ghost predicate Exclusive(s: State) {
    && (forall v, w :: CampaignHeld(s.Pc(v)) && CampaignHeld(s.Pc(w)) ==> v == w)
    && (forall v, w, id :: RowHeld(s.Pc(v), id) && RowHeld(s.Pc(w), id) ==> v == w)
  }

  /** The counter is the number of allocations ever committed, and every stored claim is one of them. */
  ghost predicate Counted(s: State) {
    && (s.t.campaign.Some? ==> s.base + |s.log| == s.t.campaign.value.claimedCount <= s.t.campaign.value.quantity)
    && (s.t.campaign.None? ==> s.t.claims == map[] && s.log == [])
    && (forall id :: id in s.t.claims ==>
          && id < s.t.nextId
          && s.base < s.t.claims[id].allocationNo <= s.base + |s.log|
          && s.log[s.t.claims[id].allocationNo - s.base - 1] == s.t.claims[id].user)
  }

  /** What each worker has checked still holds when it acts on it. */
  ghost predicate Fresh(s: State, w: nat) {
    match s.Pc(w)
    case NoClaimFound(user, _) => s.t.campaign.Some? && !HasClaim(s.t, user)
    case Inserting(user, _, stamps, _) =>
      s.t.campaign.Some? && !HasClaim(s.t, user) && Eligible(s.t.campaign.value, stamps) && user in s.t.users
    case Returning(user, id) => s.t.campaign.Some? && Owns(s.t, user, id)
    case Fulfilling(id, status) => id in s.t.claims && Order(s.t.claims[id].status) <= Order(status)
    case _ => true
  }

  ghost predicate Inv(s: State) {
    && s.base >= 0
    && Integrity(s.t)
    && Exclusive(s)
    && Counted(s)
    && forall w :: Fresh(s, w)
  }

  /** A campaign with some places already given away and no stored claims. */
  ghost predicate Init(s: State) {
    && s.t.claims == map[] && s.pcs == map[] && s.log == [] && s.base >= 0
    && (s.t.campaign.Some? ==> s.base == s.t.campaign.value.claimedCount <= s.t.campaign.value.quantity)
  }

  lemma InitInv(s: State)
    requires Init(s)
    ensures Inv(s)
  {
  }

  lemma StepInv(s: State, e: Event)
    requires Inv(s) && Enabled(s, e)
    ensures Inv(Apply(s, e))
  {
    match e {
      case Commit(w) => CommitInv(s, w);
      case CommitUpdate(w, now) => UpdateInv(s, w, now);
      case DeleteAccount(user) => DeleteInv(s, user);
      case _ => MoveInv(s, e);
    }
  }

  predicate Moves(e: Event) {
    !e.Commit? && !e.CommitUpdate? && !e.DeleteAccount?
  }

  /** Steps that only move a worker leave the tables and the other workers alone. */
  lemma MoveFrame(s: State, e: Event)
    requires Enabled(s, e) && Moves(e)
    ensures var s' := Apply(s, e);
      s'.t == s.t && s'.log == s.log && s'.base == s.base && forall v :: v != e.w ==> s'.Pc(v) == s.Pc(v)
  {
  }

  lemma MoveExclusive(s: State, e: Event)
    requires Exclusive(s) && Enabled(s, e) && Moves(e)
    ensures Exclusive(Apply(s, e))
  {
    MoveFrame(s, e);
  }

  lemma MoveFresh(s: State, e: Event, v: nat)
    requires Fresh(s, v) && Enabled(s, e) && Moves(e)
    ensures Fresh(Apply(s, e), v)
  {
    MoveFrame(s, e);
  }

  lemma MoveInv(s: State, e: Event)
    requires Inv(s) && Enabled(s, e) && Moves(e)
    ensures Inv(Apply(s, e))
  {
    MoveFrame(s, e);
    MoveExclusive(s, e);
    forall v ensures Fresh(Apply(s, e), v) {
      MoveFresh(s, e, v);
    }
  }

  lemma OneHolder(s: State, v: nat, w: nat)
    requires Exclusive(s) && CampaignHeld(s.Pc(v)) && CampaignHeld(s.Pc(w))
    ensures v == w
  {
  }

  lemma CommitInv(s: State, w: nat)
    requires Inv(s) && Enabled(s, Commit(w))
    ensures Inv(Apply(s, Commit(w)))
  {
    var pc, s' := s.Pc(w), Apply(s, Commit(w));
    assert Fresh(s, w);
    InsertFailsOnlyWithoutUser(s.t, pc.user, pc.shipping, pc.stamps, pc.now);
    forall v ensures s'.Pc(v) == if v == w then Idle else s.Pc(v) {}
    forall v ensures Fresh(s', v) {
      assert Fresh(s, v);
      if v != w && CampaignHeld(s.Pc(v)) {
        OneHolder(s, v, w);
      }
    }
  }

  lemma UpdateInv(s: State, w: nat, now: int)
    requires Inv(s) && Enabled(s, CommitUpdate(w, now))
    ensures Inv(Apply(s, CommitUpdate(w, now)))
  {
    var pc, s' := s.Pc(w), Apply(s, CommitUpdate(w, now));
    forall v ensures s'.Pc(v) == if v == w then Idle else s.Pc(v) {}
    forall user ensures HasClaim(s'.t, user) <==> HasClaim(s.t, user) {
      forall id ensures Owns(s'.t, user, id) <==> Owns(s.t, user, id) {}
    }
    forall v ensures Fresh(s', v) {
      assert Fresh(s, v);
      if v != w && s.Pc(v).Fulfilling? && s.Pc(v).id == pc.id {
        assert RowHeld(s.Pc(v), pc.id) && RowHeld(s.Pc(w), pc.id);
      }
    }
  }

  lemma DeleteFresh(s: State, user: nat, v: nat)
    requires Enabled(s, DeleteAccount(user)) && Fresh(s, v)
    ensures Fresh(Apply(s, DeleteAccount(user)), v)
  {
    var s' := Apply(s, DeleteAccount(user));
    forall u ensures HasClaim(s'.t, u) ==> HasClaim(s.t, u) {
      forall id ensures Owns(s'.t, u, id) ==> Owns(s.t, u, id) {}
    }
    if (s.Pc(v).Fulfilling? || s.Pc(v).Returning?) && s.t.claims[s.Pc(v).id].user == user {
      assert Owns(s.t, user, s.Pc(v).id) && RowHeld(s.Pc(v), s.Pc(v).id);
    }
  }

  lemma DeleteTables(s: State, user: nat)
    requires Integrity(s.t) && Counted(s) && Enabled(s, DeleteAccount(user))
    ensures Integrity(Apply(s, DeleteAccount(user)).t) && Counted(Apply(s, DeleteAccount(user)))
  {
  }

  lemma DeleteInv(s: State, user: nat)
    requires Inv(s) && Enabled(s, DeleteAccount(user))
    ensures Inv(Apply(s, DeleteAccount(user)))
  {
    DeleteTables(s, user);
    assert forall v :: Apply(s, DeleteAccount(user)).Pc(v) == s.Pc(v);
    forall v ensures Fresh(Apply(s, DeleteAccount(user)), v) {
      DeleteFresh(s, user, v);
    }
  }

  // ----- runs -----

  ghost predicate Run(s: State, events: seq<Event>, s': State)
    decreases |events|
  {
    if events == [] then s == s'
    else Enabled(s, events[0]) && Run(Apply(s, events[0]), events[1..], s')
  }

  lemma {:induction false} RunInv(s: State, events: seq<Event>, s': State)
    requires Inv(s) && Run(s, events, s')
    ensures Inv(s')
    decreases |events|
  {
    if events != [] {
      StepInv(s, events[0]);
      RunInv(Apply(s, events[0]), events[1..], s');
    }
  }

  /** Some run from a campaign without claims leads to the state. */
  ghost predicate Reached(s': State) {
    exists s, events :: Init(s) && Run(s, events, s')
  }

  lemma ReachedInv(s': State)
    requires Reached(s')
    ensures Inv(s')
  {
    var s, events :| Init(s) && Run(s, events, s');
    InitInv(s);
    RunInv(s, events, s');
  }

  /** Every live claim holds one of the places given away, and those never exceed the quantity. */
  lemma LiveWithinQuantity(s: State)
    requires Inv(s) && s.t.campaign.Some?
    ensures |s.t.claims| <= s.t.campaign.value.claimedCount - s.base <= s.t.campaign.value.quantity
  {
    DistinctNumbers(s.t.claims, s.t.claims.Keys, s.base, s.base + |s.log|);
  }

  lemma {:induction false} DistinctNumbers(claims: map<nat, TeeClaim>, ids: set<nat>, low: int, high: int)
    requires ids <= claims.Keys && low <= high
    requires forall id :: id in ids ==> low < claims[id].allocationNo <= high
    requires forall a, b :: a in ids && b in ids && a != b ==> claims[a].allocationNo != claims[b].allocationNo
    ensures |ids| <= high - low
    decreases high - low
  {
    if ids != {} {
      if id :| id in ids && claims[id].allocationNo == high {
        DistinctNumbers(claims, ids - {id}, low, high - 1);
      } else {
        var id :| id in ids;
        DistinctNumbers(claims, ids, low, high - 1);
      }
    }
  }

  // ----- what a run keeps -----

  /** A stored claim keeps its member, number and address; only fulfilment advances. */
  predicate SameClaim(c: TeeClaim, c': TeeClaim) {
    && c'.user == c.user && c'.allocationNo == c.allocationNo && c'.shipping == c.shipping
    && c'.requestedAt == c.requestedAt && Order(c.status) <= Order(c'.status)
    && (c.fulfilledAt.Some? ==> c'.fulfilledAt == c.fulfilledAt)
    && (c.fulfilledAt.None? && c'.fulfilledAt.Some? ==> c'.status == Completed)
  }

  /** The allocation log only grows, live claims stay the same claims, and a claim stored later
      has a number beyond every number given before, whether or not those claims still exist. */
  ghost predicate Kept(s: State, s': State) {
    && s'.base == s.base && s.log <= s'.log && s.t.nextId <= s'.t.nextId
    && (forall id :: id in s'.t.claims && id in s.t.claims ==> SameClaim(s.t.claims[id], s'.t.claims[id]))
    && (forall id :: id in s'.t.claims && id !in s.t.claims ==>
          s.t.nextId <= id && s.base + |s.log| < s'.t.claims[id].allocationNo)
  }

  lemma StepKeeps(s: State, e: Event)
    requires Inv(s) && Enabled(s, e)
    ensures Kept(s, Apply(s, e))
  {
    if Moves(e) {
      MoveFrame(s, e);
    } else if e.CommitUpdate? {
      assert Fresh(s, e.w);
    }
  }

  lemma {:induction false} RunKeeps(s: State, events: seq<Event>, s': State)
    requires Inv(s) && Run(s, events, s')
    ensures Kept(s, s')
    decreases |events|
  {
    if events != [] {
      var m := Apply(s, events[0]);
      StepKeeps(s, events[0]);
      StepInv(s, events[0]);
      RunKeeps(m, events[1..], s');
      KeptOverTwo(s, m, s');
    }
  }

  lemma KeptOverTwo(s: State, m: State, s': State)
    requires Counted(s) && Kept(s, m) && Kept(m, s')
    ensures Kept(s, s')
  {
    forall id | id in s'.t.claims && id in s.t.claims ensures SameClaim(s.t.claims[id], s'.t.claims[id]) {
      assert id in m.t.claims;
      assert SameClaim(s.t.claims[id], m.t.claims[id]) && SameClaim(m.t.claims[id], s'.t.claims[id]);
    }
  }

  /** The members whose commits a run performs, in order. */
  ghost function Committers(s: State, events: seq<Event>): seq<nat>
    decreases |events|
  {
    if events == [] || !Enabled(s, events[0]) then []
    else (if events[0].Commit? then [s.Pc(events[0].w).user] else []) + Committers(Apply(s, events[0]), events[1..])
  }

  /** From any reachable state the k-th commit of a run takes the k-th next number, so the counter
      moves by the number of commits and by nothing else: no rollback, refusal, reply or deletion. */
  lemma {:induction false} CommitsTakeConsecutiveNumbers(s: State, events: seq<Event>, s': State)
    requires Inv(s) && Run(s, events, s') && s.t.campaign.Some?
    ensures s'.log == s.log + Committers(s, events)
    ensures s'.t.campaign.Some?
    ensures s'.t.campaign.value.claimedCount == s.t.campaign.value.claimedCount + |Committers(s, events)|
    ensures forall id :: id in s'.t.claims && id !in s.t.claims ==>
      var k := s'.t.claims[id].allocationNo - s.t.campaign.value.claimedCount - 1;
      0 <= k < |Committers(s, events)| && Committers(s, events)[k] == s'.t.claims[id].user
  {
    RunInv(s, events, s');
    RunKeeps(s, events, s');
    LogGrows(s, events, s');
    forall id | id in s'.t.claims && id !in s.t.claims
      ensures var k := s'.t.claims[id].allocationNo - s.t.campaign.value.claimedCount - 1;
        0 <= k < |Committers(s, events)| && Committers(s, events)[k] == s'.t.claims[id].user
    {
      LaterClaim(s, s', Committers(s, events), id);
    }
  }

  lemma LaterClaim(s: State, s': State, committed: seq<nat>, id: nat)
    requires Counted(s) && Counted(s') && Kept(s, s') && s'.log == s.log + committed
    requires s.t.campaign.Some? && id in s'.t.claims && id !in s.t.claims
    ensures var k := s'.t.claims[id].allocationNo - s.t.campaign.value.claimedCount - 1;
      0 <= k < |committed| && committed[k] == s'.t.claims[id].user
  {
    var n := s'.t.claims[id].allocationNo - s.base - 1;
    assert s'.log[n] == committed[n - |s.log|];
  }

  lemma StepLogs(s: State, e: Event)
    requires Inv(s) && Enabled(s, e)
    ensures Apply(s, e).log == s.log + (if e.Commit? then [s.Pc(e.w).user] else [])
    ensures Apply(s, e).t.campaign.Some? == s.t.campaign.Some?
  {
    if Moves(e) {
      MoveFrame(s, e);
    }
  }

  lemma Joined(log: seq<nat>, first: seq<nat>, rest: seq<nat>)
    ensures (log + first) + rest == log + (first + rest)
  {
  }

  lemma {:induction false} LogGrows(s: State, events: seq<Event>, s': State)
    requires Inv(s) && Run(s, events, s')
    ensures s'.log == s.log + Committers(s, events)
    ensures s.t.campaign.Some? == s'.t.campaign.Some?
    decreases |events|
  {
    if events != [] {
      var e, rest := events[0], events[1..];
      var m := Apply(s, e);
      StepInv(s, e);
      LogGrows(m, rest, s');
      StepLogs(s, e);
      Joined(s.log, if e.Commit? then [s.Pc(e.w).user] else [], Committers(m, rest));
    }
  }

  // ----- which rows the commits store -----

  /** What a worker is to claim, and for which address. */
  function Request(pc: Pc): Option<(nat, Shipping)> {
    match pc
    case WaitingForCampaign(user, shipping) => Some((user, shipping))
    case HoldsCampaign(user, shipping) => Some((user, shipping))
    case NoClaimFound(user, shipping) => Some((user, shipping))
    case Inserting(user, shipping, _, _) => Some((user, shipping))
    case _ => None
  }

  /** A worker's request stays the one it arrived with. */
  lemma RequestFromArrival(s: State, e: Event, w: nat)
    requires Enabled(s, e)
    ensures var before, after := Request(s.Pc(w)), Request(Apply(s, e).Pc(w));
      after.Some? ==> after == before || e == Arrive(w, after.value.0, after.value.1)
  {
  }

  /** A commit takes the next place for the worker's request, with nothing fulfilled yet. */
  lemma CommitAllocates(s: State, w: nat)
    requires Inv(s) && Enabled(s, Commit(w))
    ensures var s', pc := Apply(s, Commit(w)), s.Pc(w);
      s.t.nextId in s'.t.claims && Allocated(s.t, pc.user, pc.shipping, pc.now, s'.t, s'.t.claims[s.t.nextId])
  {
    assert Fresh(s, w);
  }

  /** The rows that the commits of a run store, in order. */
  ghost function CommittedRows(s: State, events: seq<Event>): seq<TeeClaim>
    decreases |events|
  {
    if events == [] || !Enabled(s, events[0]) then []
    else
      var e, rest := events[0], CommittedRows(Apply(s, events[0]), events[1..]);
      if e.Commit? && s.t.campaign.Some? && s.Pc(e.w).Inserting? then
        var pc := s.Pc(e.w);
        [TeeClaim(pc.user, s.t.campaign.value.claimedCount + 1, pc.shipping, Requested, pc.now, None)] + rest
      else rest
  }

  /** Whatever else a run does, a claim stored in it is one of those rows, advanced by fulfilment alone. */
  lemma {:induction false} StoredAsCommitted(s: State, events: seq<Event>, s': State, id: nat)
    requires Inv(s) && Run(s, events, s') && id in s'.t.claims && id !in s.t.claims
    ensures exists row :: row in CommittedRows(s, events) && SameClaim(row, s'.t.claims[id])
    decreases |events|
  {
    var e, m := events[0], Apply(s, events[0]);
    StepInv(s, e);
    if id in m.t.claims {
      NewRowIsCommitted(s, e, id);
      CommitAllocates(s, e.w);
      RunKeeps(m, events[1..], s');
      assert m.t.claims[id] == CommittedRows(s, events)[0];
    } else {
      StoredAsCommitted(m, events[1..], s', id);
    }
  }

  lemma NewRowIsCommitted(s: State, e: Event, id: nat)
    requires Inv(s) && Enabled(s, e) && id in Apply(s, e).t.claims && id !in s.t.claims
    ensures e.Commit? && id == s.t.nextId
  {
    if Moves(e) {
      MoveFrame(s, e);
    }
  }

  /** An update moves its claim's fulfilment, and nothing else. */
  lemma UpdateProgresses(s: State, w: nat, now: int)
    requires Inv(s) && Enabled(s, CommitUpdate(w, now))
    ensures var t', pc := Apply(s, CommitUpdate(w, now)).t, s.Pc(w);
      && t'.claims.Keys == s.t.claims.Keys && t'.campaign == s.t.campaign && t'.users == s.t.users
      && Progressed(s.t.claims[pc.id], pc.status, now, t'.claims[pc.id])
      && forall id :: id in s.t.claims && id != pc.id ==> t'.claims[id] == s.t.claims[id]
  {
    assert Fresh(s, w);
  }

  /** A stored claim goes exactly with its member's account, and its place is not given back. */
  lemma ClaimLeavesIff(s: State, e: Event, id: nat)
    requires Inv(s) && Enabled(s, e) && id in s.t.claims
    ensures id !in Apply(s, e).t.claims <==> e == DeleteAccount(s.t.claims[id].user)
    ensures e.DeleteAccount? ==> Apply(s, e).t.campaign == s.t.campaign && Apply(s, e).t.users == s.t.users - {e.user}
  {
    if Moves(e) {
      MoveFrame(s, e);
    }
  }

  ghost predicate Timed(t: Tables) {
    forall id :: id in t.claims ==> (t.claims[id].status == Completed <==> t.claims[id].fulfilledAt.Some?)
  }

  lemma StepTimed(s: State, e: Event)
    requires Inv(s) && Enabled(s, e) && Timed(s.t)
    ensures Timed(Apply(s, e).t)
  {
    if Moves(e) {
      MoveFrame(s, e);
    } else if e.CommitUpdate? {
      assert Fresh(s, e.w);
    }
  }

  lemma {:induction false} RunTimed(s: State, events: seq<Event>, s': State)
    requires Inv(s) && Run(s, events, s') && Timed(s.t)
    ensures Timed(s'.t)
    decreases |events|
  {
    if events != [] {
      StepTimed(s, events[0]);
      StepInv(s, events[0]);
      RunTimed(Apply(s, events[0]), events[1..], s');
    }
  }

  /** In every reachable state a claim has a completion time exactly when it is completed. */
  lemma CompletedIffTimed(s: State, id: nat)
    requires Reached(s) && id in s.t.claims
    ensures s.t.claims[id].status == Completed <==> s.t.claims[id].fulfilledAt.Some?
  {
    var s0, events :| Init(s0) && Run(s0, events, s);
    InitInv(s0);
    RunTimed(s0, events, s);
  }

  /** What a campaign promises in every reachable state: live claims within the places given away and
      those within the quantity, a number of its own for each claim, and one live claim a member. */
  lemma ReachedPromises(s: State, a: nat, b: nat)
    requires Reached(s) && a in s.t.claims && b in s.t.claims
    ensures s.t.campaign.Some? && |s.t.claims| <= s.t.campaign.value.claimedCount <= s.t.campaign.value.quantity
    ensures 1 <= s.t.claims[a].allocationNo <= s.t.campaign.value.claimedCount
    ensures s.t.claims[a].allocationNo == s.t.claims[b].allocationNo ==> a == b
    ensures s.t.claims[a].user == s.t.claims[b].user ==> a == b
  {
    ReachedInv(s);
    LiveWithinQuantity(s);
  }

  /** From a campaign with no place given away the k-th commit ever takes number k. */
  lemma NumbersFromOne(s: State, events: seq<Event>, s': State, id: nat)
    requires Init(s) && s.base == 0 && s.t.campaign.Some? && Run(s, events, s')
    ensures s'.t.campaign.Some? && s'.t.campaign.value.claimedCount == |Committers(s, events)|
    ensures id in s'.t.claims ==>
      var k := s'.t.claims[id].allocationNo;
      1 <= k <= |Committers(s, events)| && Committers(s, events)[k - 1] == s'.t.claims[id].user
  {
    InitInv(s);
    CommitsTakeConsecutiveNumbers(s, events, s');
  }

  // ----- every answer is one the one-at-a-time service gives -----

  /** The answer a worker gives in the step that ends its request. */
  ghost function Answer(s: State, e: Event): Result<TeeClaim, ApiError>
    requires Inv(s) && Enabled(s, e) && (e.Commit? || e.Reply? || e.Refuse?)
  {
    assert Fresh(s, e.w);
    match e
    case Commit(w) => Success(Apply(s, e).t.claims[s.t.nextId])
    case Reply(w) => Success(s.t.claims[s.Pc(w).id])
    case Refuse(w, stamps) =>
      if s.t.campaign.None? then Failure(RewardUnavailable)
      else if !s.t.campaign.value.isOpen then Failure(RewardClosed)
      else if stamps < s.t.campaign.value.requiredStamps then Failure(NotEligible)
      else if s.t.campaign.value.claimedCount >= s.t.campaign.value.quantity then Failure(SoldOut)
      else Failure(ClaimConflict)
  }

  /** However requests interleave, each one's checks still hold when it ends, so it acts on the
      stored tables in one step exactly as a request running alone would. */
  lemma EndsAsIfAlone(s: State, e: Event, stamps: int, now: int)
    requires Inv(s) && Enabled(s, e) && (e.Commit? || e.Reply? || e.Refuse?)
    requires e.Commit? ==> stamps == s.Pc(e.w).stamps && now == s.Pc(e.w).now
    requires e.Refuse? ==> stamps == e.stamps
    ensures var pc := s.Pc(e.w);
      var shipping := if pc.Returning? then Shipping("", "", "", "", "", "") else pc.shipping;
      Claimed(s.t, pc.user, shipping, stamps, now, if e.Commit? then Stored else Refused, Apply(s, e).t, Answer(s, e))
  {
    var pc := s.Pc(e.w);
    assert Fresh(s, e.w);
    if e.Reply? {
      assert Owns(s.t, pc.user, pc.id);
    }
  }

  // ----- no deadlock -----

  /** `w` asks for a row that `v` holds. */
  ghost predicate WaitsFor(s: State, w: nat, v: nat) {
    match s.Pc(w)
    case WaitingForCampaign(_, _) => CampaignHeld(s.Pc(v))
    case HoldsCampaign(user, _) => exists id :: Owns(s.t, user, id) && RowHeld(s.Pc(v), id)
    case WaitingForRow(id, _) => RowHeld(s.Pc(v), id)
    case _ => false
  }

  ghost predicate WaitChain(s: State, ws: seq<nat>) {
    forall i :: 0 <= i < |ws| - 1 ==> WaitsFor(s, ws[i], ws[i + 1])
  }

  function Rank(pc: Pc): nat {
    if pc.WaitingForCampaign? then 2 else if pc.HoldsCampaign? || pc.WaitingForRow? then 1 else 0
  }

  /** Rows are taken campaign first, so a chain of waiting workers is short and never closes. */
  lemma {:induction false} WaitsNeverClose(s: State, ws: seq<nat>)
    requires |ws| > 1 && WaitChain(s, ws)
    ensures |ws| <= 3 && ws[0] != ws[|ws| - 1]
  {
    RankFalls(s, ws);
  }

  lemma {:induction false} RankFalls(s: State, ws: seq<nat>)
    requires |ws| > 0 && WaitChain(s, ws)
    ensures Rank(s.Pc(ws[|ws| - 1])) + |ws| - 1 <= Rank(s.Pc(ws[0]))
  {
    if |ws| > 1 {
      assert WaitsFor(s, ws[0], ws[1]);
      assert forall i :: 0 <= i < |ws[1..]| - 1 ==> WaitsFor(s, ws[1..][i], ws[i + 2]);
      RankFalls(s, ws[1..]);
    }
  }

  function Stage(pc: Pc): nat {
    match pc
    case Idle => 0
    case WaitingForCampaign(_, _) => 4
    case HoldsCampaign(_, _) => 3
    case NoClaimFound(_, _) => 2
    case Inserting(_, _, _, _) => 1
    case Returning(_, _) => 1
    case WaitingForRow(_, _) => 2
    case Fulfilling(_, _) => 1
  }

  /** A step of a request already under way that is not a rollback. */
  predicate Advances(e: Event) {
    !e.Arrive? && !e.ArriveUpdate? && !e.DeleteAccount? && !e.Rollback?
  }

  /** A worker that waits for nobody can take its next step. */
  lemma UnblockedSteps(s: State, w: nat) returns (e: Event)
    requires Inv(s) && !s.Pc(w).Idle? && forall v :: !WaitsFor(s, w, v)
    ensures Advances(e) && e.w == w && Enabled(s, e) && Stage(Apply(s, e).Pc(w)) < Stage(s.Pc(w))
  {
    assert Fresh(s, w);
    match s.Pc(w) {
      case WaitingForCampaign(_, _) =>
        assert forall v :: WaitsFor(s, w, v) <==> CampaignHeld(s.Pc(v));
        e := LockCampaign(w);
      case HoldsCampaign(user, _) =>
        if s.t.campaign.None? {
          e := Refuse(w, 0);
        } else if id :| Owns(s.t, user, id) {
          forall v ensures !RowHeld(s.Pc(v), id) {
            assert !WaitsFor(s, w, v);
          }
          e := FindClaim(w, id);
        } else {
          e := FindNone(w);
        }
      case NoClaimFound(user, _) =>
        if Eligible(s.t.campaign.value, 0) && user in s.t.users {
          e := Insert(w, 0, 0);
        } else {
          e := Refuse(w, 0);
        }
      case Inserting(_, _, _, _) =>
        e := Commit(w);
      case Returning(_, _) =>
        e := Reply(w);
      case WaitingForRow(id, status) =>
        assert forall v :: WaitsFor(s, w, v) <==> RowHeld(s.Pc(v), id);
        if id in s.t.claims && Order(s.t.claims[id].status) <= Order(status) {
          e := LockRow(w);
        } else {
          e := RefuseUpdate(w);
        }
      case Fulfilling(_, _) =>
        e := CommitUpdate(w, 0);
    }
  }

  /** As long as a request is under way, some worker can take its next step without a rollback. */
  lemma SomeoneSteps(s: State, w: nat) returns (e: Event)
    requires Inv(s) && !s.Pc(w).Idle?
    ensures Advances(e) && Enabled(s, e) && Stage(Apply(s, e).Pc(e.w)) < Stage(s.Pc(e.w))
    decreases Rank(s.Pc(w))
  {
    if v :| WaitsFor(s, w, v) {
      e := SomeoneSteps(s, v);
    } else {
      e := UnblockedSteps(s, w);
    }
  }

  /** Work left for workers below `n`. */
  ghost function Load(s: State, n: nat): nat {
    if n == 0 then 0 else Load(s, n - 1) + Stage(s.Pc(n - 1))
  }

  lemma {:induction false} LoadFalls(s: State, s': State, w: nat, n: nat)
    requires forall v :: v != w ==> s'.Pc(v) == s.Pc(v)
    requires Stage(s'.Pc(w)) < Stage(s.Pc(w))
    ensures if w < n then Load(s', n) < Load(s, n) else Load(s', n) == Load(s, n)
  {
    if n > 0 {
      LoadFalls(s, s', w, n - 1);
    }
  }

  /** From every reachable state all requests under way can run to their end, with no rollback. */
  lemma NoDeadlock(s: State, n: nat) returns (events: seq<Event>, s': State)
    requires Reached(s) && forall v :: v >= n ==> s.Pc(v).Idle?
    ensures Run(s, events, s')
    ensures (forall e :: e in events ==> Advances(e)) && (forall w :: s'.Pc(w).Idle?)
  {
    ReachedInv(s);
    events, s' := RunsOut(s, n);
  }

  lemma {:induction false} RunsOut(s: State, n: nat) returns (events: seq<Event>, s': State)
    requires Inv(s) && forall v :: v >= n ==> s.Pc(v).Idle?
    ensures Run(s, events, s') && Inv(s')
    ensures (forall e :: e in events ==> Advances(e)) && (forall w :: s'.Pc(w).Idle?)
    decreases Load(s, n)
  {
    if w :| !s.Pc(w).Idle? {
      var e := SomeoneSteps(s, w);
      var m := Apply(s, e);
      StepInv(s, e);
      forall v | v != e.w ensures m.Pc(v) == s.Pc(v) {}
      LoadFalls(s, m, e.w, n);
      var rest;
      rest, s' := RunsOut(m, n);
      events := [e] + rest;
      assert events[1..] == rest;
    } else {
      events, s' := [], s;
    }
  }
}
