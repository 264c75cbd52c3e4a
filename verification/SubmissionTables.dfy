/** Photo-proof submissions, collected stamps and collected badges: the stored rows and the service
    operations of one request at a time. */
module SubmissionTables {
  import opened Wrappers

  datatype Status = Pending | Approved | Rejected

  datatype Pair = Pair(passport: nat, stamp: nat)

  datatype Submission = Submission(pair: Pair, status: Status, isDemo: bool, reviewer: Option<nat>,
                                   reason: Option<string>, shared: bool, caption: Option<string>,
                                   feedDeleted: Option<int>)

  /** Submissions are keyed by row id; `badges` holds the badge rows each passport has collected. */
  datatype Tables = Tables(submissions: map<nat, Submission>, collected: multiset<Pair>,
                           badges: map<nat, set<nat>>, nextId: nat)
  {
    function Badges(passport: nat): set<nat> {
      if passport in badges then badges[passport] else {}
    }
  }

  datatype ApiError = NotFound | BadRequest | AlreadyCollected | AlreadyPending | AlreadyReviewed

  predicate HasPending(t: Tables, pair: Pair) {
    exists id :: id in t.submissions && t.submissions[id].pair == pair && t.submissions[id].status == Pending
  }

  /** A new proof may be sent for the pair. */
  predicate Open(t: Tables, pair: Pair) {
    pair !in t.collected && !HasPending(t, pair)
  }

  /** Reviewed photo proof of the stamp, demonstration posts aside. */
  predicate Proof(row: Submission) {
    row.status == Approved && !row.isDemo
  }

  /** The stamps a passport has approved proof for. */
  function ProvenStamps(t: Tables, passport: nat): set<nat> {
    set id | id in t.submissions && Proof(t.submissions[id]) && t.submissions[id].pair.passport == passport ::
      t.submissions[id].pair.stamp
  }

  // ----- what each operation writes -----

  function Submitted(t: Tables, pair: Pair, share: bool, caption: Option<string>): Tables {
    var row := Submission(pair, Pending, false, None, None, share, if share then caption else None, None);
    t.(submissions := t.submissions[t.nextId := row], nextId := t.nextId + 1)
  }

  function RejectedIn(t: Tables, id: nat, reviewer: nat, reason: string): Tables
    requires id in t.submissions
  {
    var row := t.submissions[id].(status := Rejected, reviewer := Some(reviewer), reason := Some(reason));
    t.(submissions := t.submissions[id := row])
  }

  /** Approval stores the stamp once and awards what the passport's proofs now earn. */
  function ApprovedIn(t: Tables, id: nat, reviewer: nat, earned: set<nat> -> set<nat>): Tables
    requires id in t.submissions
  {
    var row := t.submissions[id].(status := Approved, reviewer := Some(reviewer), reason := None);
    var p := row.pair.passport;
    var stored := if row.pair in t.collected then t.collected else t.collected + multiset{row.pair};
    var next := t.(submissions := t.submissions[id := row], collected := stored);
    next.(badges := next.badges[p := next.Badges(p) + earned(ProvenStamps(next, p))])
  }

  function SharedIn(t: Tables, id: nat, share: bool, caption: Option<string>): Tables
    requires id in t.submissions
  {
    t.(submissions := t.submissions[id := t.submissions[id].(shared := share, caption := caption)])
  }

  function HiddenIn(t: Tables, id: nat, now: int): Tables
    requires id in t.submissions
  {
    var row := t.submissions[id];
    t.(submissions := t.submissions[id := row.(shared := false, feedDeleted := Some(row.feedDeleted.GetOr(now)))])
  }

  // ----- what each operation promises -----

  /** One row more is stored: a pending proof of the pair, not reviewed, not removed, shared as asked and
      with its caption only if shared. Nothing else changes. */
  ghost predicate Posted(t: Tables, pair: Pair, share: bool, caption: Option<string>, t': Tables) {
    && t'.submissions.Keys == t.submissions.Keys + {t.nextId} && t'.nextId == t.nextId + 1
    && (forall k :: k in t.submissions && k != t.nextId ==> t'.submissions[k] == t.submissions[k])
    && t'.collected == t.collected && t'.badges == t.badges
    && var row := t'.submissions[t.nextId];
      && row.pair == pair && row.status == Pending && !row.isDemo && row.reviewer.None? && row.reason.None?
      && row.feedDeleted.None? && row.shared == share
      && (share ==> row.caption == caption) && (!share ==> row.caption.None?)
  }

  /** The row is reviewed: rejected for the reason given, or approved; its post stays as it is. */
  predicate Settled(row: Submission, reviewer: nat, reason: Option<string>, row': Submission) {
    && row'.pair == row.pair && row'.isDemo == row.isDemo && row'.shared == row.shared
    && row'.caption == row.caption && row'.feedDeleted == row.feedDeleted
    && row'.reviewer == Some(reviewer) && row'.reason == reason
    && row'.status == if reason.Some? then Rejected else Approved
  }

  /** Only the reviewed row changes; an approval collects its stamp if it was not collected, and gives its
      passport the badges that the proofs then approved earn. */
  ghost predicate OnlyTheReview(t: Tables, id: nat, reviewer: nat, reason: Option<string>,
                                earned: set<nat> -> set<nat>, t': Tables)
  {
    && id in t.submissions && t'.submissions.Keys == t.submissions.Keys && t'.nextId == t.nextId
    && Settled(t.submissions[id], reviewer, reason, t'.submissions[id])
    && (forall k :: k in t.submissions && k != id ==> t'.submissions[k] == t.submissions[k])
    && (reason.Some? ==> t'.collected == t.collected && t'.badges == t.badges)
    && (reason.None? ==> var pair := t.submissions[id].pair;
          && t'.collected == (if pair in t.collected then t.collected else t.collected + multiset{pair})
          && (forall p :: t'.Badges(p) ==
                t.Badges(p) + if p == pair.passport then earned(ProvenStamps(t', p)) else {}))
  }

  /** A submission is stored exactly when both answers about the target are favourable, the object keys
      belong to it and the pair is open; nothing else changes. */
  ghost predicate Created(t: Tables, pair: Pair, valid: bool, keysFit: bool, validLocked: bool, share: bool,
                          caption: Option<string>, t': Tables, r: Result<nat, ApiError>)
  {
    && (r.Success? <==> valid && validLocked && keysFit && Open(t, pair))
    && (r.Success? ==> t' == Submitted(t, pair, share, caption) && r.value == t.nextId)
    && (r.Success? ==> Posted(t, pair, share, caption, t'))
    && (r.Failure? ==> t' == t)
    && (r == Failure(BadRequest) <==> valid && Open(t, pair) && !keysFit)
  }

  /** Only a pending proof is reviewed: a reason rejects it, no reason approves it. */
  ghost predicate Reviewed(t: Tables, id: nat, reviewer: nat, reason: Option<string>, earned: set<nat> -> set<nat>,
                           t': Tables, r: Result<Submission, ApiError>)
  {
    && (r.Success? <==> id in t.submissions && t.submissions[id].status == Pending)
    && (r.Success? && reason.Some? ==> t' == RejectedIn(t, id, reviewer, reason.value))
    && (r.Success? && reason.None? ==> t' == ApprovedIn(t, id, reviewer, earned))
    && (r.Success? ==> OnlyTheReview(t, id, reviewer, reason, earned, t'))
    && (r.Success? ==> id in t'.submissions && r.value == t'.submissions[id])
    && (r.Failure? ==> t' == t && (r.error == NotFound <==> id !in t.submissions))
  }

  /** Proofs, reviews, collected stamps, badges and all other posts are as before. */
  ghost predicate OnlyThePost(t: Tables, id: nat, t': Tables) {
    && t'.collected == t.collected && t'.badges == t.badges && t'.nextId == t.nextId
    && t'.submissions.Keys == t.submissions.Keys && id in t.submissions
    && (forall k :: k in t.submissions && k != id ==> t'.submissions[k] == t.submissions[k])
    && var row, row' := t.submissions[id], t'.submissions[id];
      && row'.pair == row.pair && row'.status == row.status && row'.isDemo == row.isDemo
      && row'.reviewer == row.reviewer && row'.reason == row.reason
  }

  /** The post is shown as asked; it was not removed and is not removed by this. */
  ghost predicate Reshared(t: Tables, id: nat, share: bool, caption: Option<string>, t': Tables) {
    && OnlyThePost(t, id, t') && t.submissions[id].feedDeleted.None?
    && var row' := t'.submissions[id];
      row'.feedDeleted.None? && row'.shared == share && row'.caption == caption
  }

  /** The post is no longer shown and counts as removed since its first removal. */
  ghost predicate Removed(t: Tables, id: nat, now: int, t': Tables) {
    && OnlyThePost(t, id, t')
    && var row, row' := t.submissions[id], t'.submissions[id];
      && !row'.shared && row'.caption == row.caption
      && (row.feedDeleted.Some? ==> row'.feedDeleted == row.feedDeleted)
      && (row.feedDeleted.None? ==> row'.feedDeleted == Some(now))
  }

  /** The service with the database to itself. `valid` is the check that the passport belongs to the
      member and the stamp to a visible published mission; `owned` that the post is the member's. */
  class StampSubmissionService {
    var t: Tables
    const earned: set<nat> -> set<nat>

    constructor (t: Tables, earned: set<nat> -> set<nat>)
      ensures this.t == t && this.earned == earned
    {
      this.t := t;
      this.earned := earned;
    }

    method CheckTarget(pair: Pair, valid: bool) returns (error: Option<ApiError>)
      ensures error.None? <==> valid && Open(t, pair)
      ensures error == Some(NotFound) <==> !valid
      ensures error == Some(AlreadyCollected) <==> valid && pair in t.collected
      ensures error == Some(AlreadyPending) <==> valid && pair !in t.collected && HasPending(t, pair)
      ensures error != Some(BadRequest)
    {
      if !valid {
        return Some(NotFound);
      }
      if pair in t.collected {
        return Some(AlreadyCollected);
      }
      if HasPending(t, pair) {
        return Some(AlreadyPending);
      }
      error := None;
    }

    /** `validLocked` is the second answer about the target, read once the passport is locked;
        `keysFit` says that every object key belongs to this passport and stamp. */
    method Create(pair: Pair, valid: bool, keysFit: bool, validLocked: bool, share: bool, caption: Option<string>)
      returns (r: Result<nat, ApiError>)
      modifies this`t
      ensures Created(old(t), pair, valid, keysFit, validLocked, share, caption, t, r)
    {
      var error := CheckTarget(pair, valid);
      if error.Some? {
        return Failure(error.value);
      }
      if !keysFit {
        return Failure(BadRequest);
      }
      error := CheckTarget(pair, validLocked);
      if error.Some? {
        return Failure(error.value);
      }
      r := Success(t.nextId);
      t := Submitted(t, pair, share, caption);
    }

    method Review(id: nat, reviewer: nat, reason: Option<string>) returns (r: Result<Submission, ApiError>)
      modifies this`t
      ensures Reviewed(old(t), id, reviewer, reason, earned, t, r)
    {
      if id !in t.submissions {
        return Failure(NotFound);
      }
      var row := t.submissions[id];
      if row.status != Pending {
        return Failure(AlreadyReviewed);
      }
      if reason.Some? {
        row := row.(status := Rejected, reviewer := Some(reviewer), reason := reason);
        t := t.(submissions := t.submissions[id := row]);
      } else {
        if row.pair !in t.collected {
          t := t.(collected := t.collected + multiset{row.pair});
        }
        row := row.(status := Approved, reviewer := Some(reviewer), reason := None);
        t := t.(submissions := t.submissions[id := row]);
        var p := row.pair.passport;
        var rules := earned(ProvenStamps(t, p));
        t := t.(badges := t.badges[p := t.Badges(p) + rules]);
      }
      r := Success(row);
    }

    method UpdateFeedVisibility(id: nat, owned: bool, share: bool, caption: Option<string>) returns (ok: bool)
      modifies this`t
      ensures ok <==> id in old(t).submissions && owned && old(t).submissions[id].feedDeleted.None?
      ensures ok ==> Reshared(old(t), id, share, caption, t)
      ensures !ok ==> t == old(t)
    {
      ok := id in t.submissions && owned && t.submissions[id].feedDeleted.None?;
      if ok {
        t := t.(submissions := t.submissions[id := t.submissions[id].(shared := share, caption := caption)]);
      }
    }

    method DeleteFromFeed(id: nat, owned: bool, now: int) returns (ok: bool)
      modifies this`t
      ensures ok <==> id in old(t).submissions && owned
      ensures ok ==> Removed(old(t), id, now, t)
      ensures !ok ==> t == old(t)
    {
      ok := id in t.submissions && owned;
      if ok {
        var row := t.submissions[id];
        row := row.(shared := false, feedDeleted := if row.feedDeleted.Some? then row.feedDeleted else Some(now));
        t := t.(submissions := t.submissions[id := row]);
      }
    }
  }

  /** What a feed change promises leaves no choice about the rows. */
  lemma FeedChangeDetermined(t: Tables, id: nat, share: bool, caption: Option<string>, now: int, t': Tables)
    ensures Reshared(t, id, share, caption, t') ==> t' == SharedIn(t, id, share, caption)
    ensures Removed(t, id, now, t') ==> t' == HiddenIn(t, id, now)
  {
    if Reshared(t, id, share, caption, t') {
      assert t'.submissions == SharedIn(t, id, share, caption).submissions;
    }
    if Removed(t, id, now, t') {
      assert t'.submissions == HiddenIn(t, id, now).submissions;
    }
  }
}
