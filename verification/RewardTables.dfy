/** The tee campaign and its claims: the stored rows, the integrity rules of the schema, and the
    service operations of one request at a time. */
module RewardTables {
  import opened Wrappers

  datatype Status = Requested | Preparing | Shipped | Completed

  function Order(s: Status): nat {
    match s
    case Requested => 0
    case Preparing => 1
    case Shipped => 2
    case Completed => 3
  }

  datatype Shipping = Shipping(size: string, recipient: string, phone: string, postalCode: string,
                               address: string, addressDetail: string)

  datatype TeeClaim = TeeClaim(user: nat, allocationNo: int, shipping: Shipping, status: Status,
                               requestedAt: int, fulfilledAt: Option<int>)

  datatype Campaign = Campaign(requiredStamps: int, quantity: int, claimedCount: int, isOpen: bool)

  /** Committed rows; claims are keyed by row id. */
  datatype Tables = Tables(campaign: Option<Campaign>, claims: map<nat, TeeClaim>, users: set<nat>, nextId: nat)

  datatype ApiError = RewardUnavailable | RewardClosed | NotEligible | SoldOut | ClaimConflict
                    | NotFound | InvalidTransition

  ghost predicate Owns(t: Tables, user: nat, id: nat) {
    id in t.claims && t.claims[id].user == user
  }

  ghost predicate HasClaim(t: Tables, user: nat) {
    exists id :: Owns(t, user, id)
  }

  /** The schema's rules: the capacity check, both unique keys, and the foreign key to users. */
  ghost predicate Integrity(t: Tables) {
    && (t.campaign.Some? ==> 0 <= t.campaign.value.claimedCount <= t.campaign.value.quantity)
    && (forall a, b :: a in t.claims && b in t.claims && a != b ==>
          t.claims[a].user != t.claims[b].user && t.claims[a].allocationNo != t.claims[b].allocationNo)
    && (forall id :: id in t.claims ==> t.claims[id].user in t.users)
  }

  /** Allocate the next number and insert the row for it. */
  function Inserted(t: Tables, user: nat, shipping: Shipping, now: int): Tables
    requires t.campaign.Some?
  {
    var next := t.campaign.value.claimedCount + 1;
    t.(campaign := Some(t.campaign.value.(claimedCount := next)),
       claims := t.claims[t.nextId := TeeClaim(user, next, shipping, Requested, now, None)],
       nextId := t.nextId + 1)
  }

  function Advanced(claim: TeeClaim, status: Status, now: int): TeeClaim {
    claim.(status := status,
           fulfilledAt := if status == Completed && claim.fulfilledAt.None? then Some(now) else claim.fulfilledAt)
  }

  function Updated(t: Tables, id: nat, status: Status, now: int): Tables
    requires id in t.claims
  {
    t.(claims := t.claims[id := Advanced(t.claims[id], status, now)])
  }

  /** Deleting an account removes its claim by cascade and leaves the counter alone. */
  function Deleted(t: Tables, user: nat): Tables {
    t.(claims := map id | id in t.claims && t.claims[id].user != user :: t.claims[id], users := t.users - {user})
  }

  /** A member may take one of the remaining places. */
  predicate Eligible(c: Campaign, stamps: int) {
    c.isOpen && stamps >= c.requiredStamps && c.claimedCount < c.quantity
  }

  datatype Report = Report(remaining: int, eligible: bool, claim: Option<TeeClaim>)

  /** How the database answers the insert and commit. */
  datatype Storage = Stored | Refused | Unconfirmed

  /** One place more is taken, and one row more is stored: the member's, with the next number and the
      address given, requested now and not fulfilled. Nothing else changes. */
  ghost predicate Allocated(t: Tables, user: nat, shipping: Shipping, now: int, t': Tables, row: TeeClaim) {
    && t.campaign.Some? && t'.campaign.Some?
    && var c, c' := t.campaign.value, t'.campaign.value;
      && c'.claimedCount == c.claimedCount + 1
      && c'.quantity == c.quantity && c'.requiredStamps == c.requiredStamps && c'.isOpen == c.isOpen
      && row.user == user && row.allocationNo == c.claimedCount + 1 && row.shipping == shipping
      && row.status == Requested && row.requestedAt == now && row.fulfilledAt.None?
      && t'.claims.Keys == t.claims.Keys + {t.nextId} && t'.claims[t.nextId] == row
      && (forall id :: id in t.claims ==> t'.claims[id] == t.claims[id])
      && t'.users == t.users && t'.nextId == t.nextId + 1
  }

  /** Only fulfilment moves, and never backwards; the completion time is that of the first completion. */
  predicate Progressed(c: TeeClaim, status: Status, now: int, c': TeeClaim) {
    && c'.user == c.user && c'.allocationNo == c.allocationNo && c'.shipping == c.shipping
    && c'.requestedAt == c.requestedAt && c'.status == status && Order(c.status) <= Order(status)
    && (c.fulfilledAt.Some? ==> c'.fulfilledAt == c.fulfilledAt)
    && (c.fulfilledAt.None? && status == Completed ==> c'.fulfilledAt == Some(now))
    && (c.fulfilledAt.None? && status != Completed ==> c'.fulfilledAt.None?)
  }

  /** What a request for a tee does: a stored claim is returned unchanged, otherwise one place is
      taken and its row returned, and a request that fails takes none. */
  ghost predicate Claimed(t: Tables, user: nat, shipping: Shipping, stamps: int, now: int, storage: Storage,
                          t': Tables, r: Result<TeeClaim, ApiError>)
  {
    && (HasClaim(t, user) && t.campaign.Some? ==>
          t' == t && r.Success? && exists id :: Owns(t, user, id) && r.value == t.claims[id])
    && (r.Success? && !HasClaim(t, user) ==>
          && t.campaign.Some? && Eligible(t.campaign.value, stamps) && storage == Stored
          && t' == Inserted(t, user, shipping, now) && Owns(t', user, t.nextId)
          && Allocated(t, user, shipping, now, t', r.value))
    && (r.Failure? ==> t' == t)
    && (r.Failure? <==>
          || t.campaign.None?
          || (!HasClaim(t, user) && !(Eligible(t.campaign.value, stamps) && storage == Stored)))
    && (r.Failure? && t.campaign.None? ==> r.error == RewardUnavailable)
    && (r.Failure? && t.campaign.Some? ==> var c := t.campaign.value;
          && (r.error == RewardClosed <==> !c.isOpen)
          && (r.error == NotEligible <==> c.isOpen && stamps < c.requiredStamps)
          && (r.error == SoldOut <==> c.isOpen && stamps >= c.requiredStamps && c.claimedCount >= c.quantity)
          && (r.error == ClaimConflict <==> Eligible(c, stamps) && storage == Refused)
          && (r.error == RewardUnavailable <==> Eligible(c, stamps) && storage == Unconfirmed))
  }

  class PassportRewardService {
    var t: Tables

    constructor (t: Tables)
      ensures this.t == t
    {
      this.t := t;
    }

    /** Claim a tee. The second look for a claim after a refused insert is left to
        `InsertFailsOnlyWithoutUser`: with the campaign locked there is none to find. */
    method Claim(user: nat, shipping: Shipping, stamps: int, now: int, storage: Storage)
      returns (r: Result<TeeClaim, ApiError>)
      requires t.nextId !in t.claims
      modifies this
      ensures Claimed(old(t), user, shipping, stamps, now, storage, t, r)
    {
      if t.campaign.None? {
        return Failure(RewardUnavailable);
      }
      var campaign := t.campaign.value;
      if exists id :: id in t.claims && t.claims[id].user == user {
        var id :| id in t.claims && t.claims[id].user == user;
        assert Owns(t, user, id);
        return Success(t.claims[id]);
      }
      assert !HasClaim(t, user);
      if !campaign.isOpen {
        return Failure(RewardClosed);
      }
      if stamps < campaign.requiredStamps {
        return Failure(NotEligible);
      }
      if campaign.claimedCount >= campaign.quantity {
        return Failure(SoldOut);
      }
      var before, id := t, t.nextId;
      t := Inserted(t, user, shipping, now);
      match storage {
        case Stored =>
          r := Success(t.claims[id]);
        case Refused =>
          t := before;
          r := Failure(ClaimConflict);
        case Unconfirmed =>
          t := before;
          r := Failure(RewardUnavailable);
      }
    }

    /** What the member's page shows. */
    method Status(user: nat, stamps: int) returns (r: Result<Report, ApiError>)
      ensures r.Failure? <==> t.campaign.None?
      ensures r.Failure? ==> r.error == RewardUnavailable
      ensures r.Success? ==>
        && (r.value.eligible <==> !HasClaim(t, user) && Eligible(t.campaign.value, stamps))
        && (r.value.claim.Some? <==> HasClaim(t, user))
        && (r.value.claim.Some? ==> exists id :: Owns(t, user, id) && r.value.claim.value == t.claims[id])
        && r.value.remaining >= 0
        && (r.value.remaining > 0 <==> t.campaign.value.claimedCount < t.campaign.value.quantity)
    {
      if t.campaign.None? {
        return Failure(RewardUnavailable);
      }
      var campaign := t.campaign.value;
      var claim: Option<TeeClaim> := None;
      if exists id :: id in t.claims && t.claims[id].user == user {
        var id :| id in t.claims && t.claims[id].user == user;
        assert Owns(t, user, id);
        claim := Some(t.claims[id]);
      }
      assert claim.None? ==> !HasClaim(t, user);
      var left := campaign.quantity - campaign.claimedCount;
      var remaining := if left > 0 then left else 0;
      var eligible := claim.None? && campaign.isOpen && remaining > 0 && stamps >= campaign.requiredStamps;
      r := Success(Report(remaining, eligible, claim));
    }

    /** Fulfilment moves forward only, and the completion time is set once. */
    method Update(id: nat, status: Status, now: int) returns (r: Result<TeeClaim, ApiError>)
      modifies this
      ensures r.Success? <==> id in old(t).claims && Order(old(t).claims[id].status) <= Order(status)
      ensures r.Failure? ==> t == old(t)
      ensures r.Success? ==> t == Updated(old(t), id, status, now)
      ensures r.Success? ==>
        && Progressed(old(t).claims[id], status, now, r.value) && id in t.claims && t.claims[id] == r.value
        && t.claims.Keys == old(t).claims.Keys
        && (forall k :: k in t.claims && k != id ==> t.claims[k] == old(t).claims[k])
        && t.campaign == old(t).campaign && t.users == old(t).users && t.nextId == old(t).nextId
    {
      if id !in t.claims {
        return Failure(NotFound);
      }
      if Order(status) < Order(t.claims[id].status) {
        return Failure(InvalidTransition);
      }
      var row := t.claims[id].(status := status);
      if status == Completed && row.fulfilledAt.None? {
        row := row.(fulfilledAt := Some(now));
      }
      t := t.(claims := t.claims[id := row]);
      r := Success(row);
    }
  }

  /** The page calls a member eligible exactly when a claim made now, if it can be stored, takes a place. */
  lemma EligibleMeansPlaceTaken(t: Tables, user: nat, shipping: Shipping, stamps: int, now: int, t': Tables,
                                r: Result<TeeClaim, ApiError>)
    requires t.campaign.Some? && Claimed(t, user, shipping, stamps, now, Stored, t', r)
    ensures !HasClaim(t, user) && Eligible(t.campaign.value, stamps) <==>
      r.Success? && t'.campaign.Some? && t'.campaign.value.claimedCount == t.campaign.value.claimedCount + 1
  {
    if HasClaim(t, user) {
      assert t' == t;
    }
  }

  // ----- when an insert can break an integrity rule -----

  /** Checked under the campaign lock, an insert can only miss its user row: the integrity error
      is reached exactly when the account is gone. */
  lemma InsertFailsOnlyWithoutUser(t: Tables, user: nat, shipping: Shipping, stamps: int, now: int)
    requires Integrity(t) && t.campaign.Some? && t.nextId !in t.claims
    requires forall id :: id in t.claims ==> t.claims[id].allocationNo <= t.campaign.value.claimedCount
    requires !HasClaim(t, user) && Eligible(t.campaign.value, stamps)
    ensures Integrity(Inserted(t, user, shipping, now)) <==> user in t.users
  {
    var next := Inserted(t, user, shipping, now);
    assert next.claims[t.nextId].user == user;
    forall id | id in t.claims ensures t.claims[id].user != user && next.claims[id] == t.claims[id] {
      assert Owns(t, user, id) ==> HasClaim(t, user);
    }
  }
}
