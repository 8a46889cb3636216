/** The terms of a replay: who may ask again for a committed expiry, in any snapshot that `validate` accepts. */
module HoldReplayTerms {
  import opened Wrappers
  import opened Text
  import opened HoldModel
  import opened HoldTransitions
  import opened HoldFacts
  import opened HoldExactExpire
  import opened HoldExactClaim
  import opened HoldTerms


  /** The one lease that may replay commit k: the consumed one while nobody claims the operation, then the
      claim with the largest fence. */
  ghost predicate HoldsAuthority(s: Snapshot, operation: Digest, c: Candidate)
    requires |s.ledger.claimRequests| == |s.ledger.claimResults|
  {
    var l := s.ledger;
    if forall j | 0 <= j < |l.claimRequests| :: l.claimRequests[j].expireOperationId != operation then
      exists e | 0 <= e < |l.entries| ::
        l.entries[e].candidate == c && l.entries[e].consumed.Some? && l.entries[e].consumed.value.operation == operation
    else
      exists j | 0 <= j < |l.claimRequests| ::
        && l.claimRequests[j].expireOperationId == operation && l.claimResults[j].candidate == c
        && forall i | 0 <= i < |l.claimRequests| && l.claimRequests[i].expireOperationId == operation ::
             l.claimResults[i].candidate.fence <= c.fence
  }

  ghost predicate ReplayTerms(r: ExpireRequest, s: Snapshot, ctx: Context, fence: int, c: Candidate)
    requires |s.ledger.claimRequests| == |s.ledger.claimResults|
  {
    && FromReaper(ctx) && RequestsExpiry(r, c)
    && ctx.principal == c.ownerPrincipal && ctx.instance == c.ownerInstance && fence == c.fence
    && r.due.artifactId == s.hold.artifactId && r.due.holdId == s.hold.holdId
    && ((exists j | 0 <= j < |s.ledger.claimRequests| :: s.ledger.claimRequests[j].expireOperationId == r.expireOperationId) ==>
          c.issuedAt <= ctx.now < c.leaseUntil)
  }

  /** A stored claim has its unconsumed entry, later than the commit it follows. */
  lemma ClaimEntry(s: Snapshot, k: nat, j: nat, committed: nat) returns (e: nat)
    requires ValidSnapshot(s) && k < |s.commits| && j < |s.ledger.claimRequests| == |s.ledger.claimResults|
    requires s.ledger.claimRequests[j].expireOperationId == s.commits[k].expireOperationId
    requires FindTombstone(s.ledger, s.commits[k].expireOperationId) == Some(committed)
    ensures e < |s.ledger.entries| && s.ledger.entries[e] == Entry(s.ledger.claimResults[j].candidate, None)
    ensures committed < |s.ledger.entries|
    ensures s.ledger.entries[committed].candidate.fence < s.ledger.claimResults[j].candidate.fence
    ensures s.ledger.entries[committed].candidate.leaseId != s.ledger.claimResults[j].candidate.leaseId
  {
    hide ValidSnapshot, CommitMatchesEntry, HoldReflects, ValidClaimResultFor;
    var l, c := s.ledger, s.ledger.claimResults[j].candidate;
    ClaimIsPersisted(s, j);
    SnapshotProjection(s);
    e := PersistedEntry(l, c);
    ClaimOutranks(s, k, j, committed);
    ClaimIsUnconsumed(s, k, committed, j, e);
    EntriesDiffer(s, e, committed);
  }

  lemma EntriesDiffer(s: Snapshot, i: nat, j: nat)
    requires ValidSnapshot(s) && i < |s.ledger.entries| && j < |s.ledger.entries| && i != j
    ensures !SharesBearer(s.ledger.entries[i].candidate, s.ledger.entries[j].candidate)
    ensures s.ledger.entries[i].candidate.leaseId != s.ledger.entries[j].candidate.leaseId
  {
    SnapshotParts(s);
    if i < j {
      assert !SharesBearer(s.ledger.entries[i].candidate, s.ledger.entries[j].candidate);
    } else {
      assert !SharesBearer(s.ledger.entries[j].candidate, s.ledger.entries[i].candidate);
    }
  }

  lemma SnapshotProjection(s: Snapshot)
    requires ValidSnapshot(s)
    ensures |s.ledger.scanRequests| == |s.ledger.scanResults| && ValidProjection(s.ledger)
  {
  }

  lemma ClaimIsPersisted(s: Snapshot, j: nat)
    requires ValidSnapshot(s) && j < |s.ledger.claimResults|
    ensures |s.ledger.scanRequests| == |s.ledger.scanResults|
    ensures s.ledger.claimResults[j].candidate in PersistedCandidates(s.ledger)
  {
    hide ValidSnapshot;
    SnapshotProjection(s);
    var l := s.ledger;
    assert PersistedCandidates(l)[|EvidenceOf(l.scanRequests, l.scanResults)| + j] == l.claimResults[j].candidate;
  }

  lemma ClaimOutranks(s: Snapshot, k: nat, j: nat, committed: nat)
    requires ValidSnapshot(s) && k < |s.commits| && j < |s.ledger.claimRequests| == |s.ledger.claimResults|
    requires s.ledger.claimRequests[j].expireOperationId == s.commits[k].expireOperationId
    requires FindTombstone(s.ledger, s.commits[k].expireOperationId) == Some(committed)
    ensures committed < |s.ledger.entries|
    ensures s.ledger.entries[committed].candidate.fence == s.commits[k].fence < s.ledger.claimResults[j].candidate.fence
  {
    hide ValidHold, ValidLedger, ValidHoldCandidate, ValidTombstones, ValidCommits, ValidEvents, NothingNewer, HoldReflects;
    var q, result := s.ledger.claimRequests[j], s.ledger.claimResults[j];
    assert FollowsSomeCommit(q, result, s.commits, s.hold);
    var i :| 0 <= i < |s.commits| && s.commits[i].expireOperationId == q.expireOperationId
             && ClaimFollowsCommit(q, result, s.commits[i], s.hold);
    OnlyCommitOf(s, k, i);
  }

  /** An entry with the claim's due tuple could only be the tombstone, whose fence is smaller. */
  lemma ClaimIsUnconsumed(s: Snapshot, k: nat, committed: nat, j: nat, e: nat)
    requires ValidSnapshot(s) && k < |s.commits| && j < |s.ledger.claimRequests| == |s.ledger.claimResults|
    requires s.ledger.claimRequests[j].expireOperationId == s.commits[k].expireOperationId
    requires FindTombstone(s.ledger, s.commits[k].expireOperationId) == Some(committed) && committed < |s.ledger.entries|
    requires s.ledger.entries[committed].candidate.fence < s.ledger.claimResults[j].candidate.fence
    requires e < |s.ledger.entries| && s.ledger.entries[e].candidate == s.ledger.claimResults[j].candidate
    ensures s.ledger.entries[e].consumed.None?
  {
    hide ValidSnapshot, HoldReflects, NothingNewer, ValidDue;
    ClaimDue(s, j);
    if s.ledger.entries[e].consumed.Some? {
      var i := ConsumingCommit(s, e);
      OnlyCommitOf(s, k, i);
      OnlyTombstone(s, e, committed);
    }
  }

  lemma ClaimDue(s: Snapshot, j: nat)
    requires ValidSnapshot(s) && j < |s.ledger.claimRequests| == |s.ledger.claimResults|
    ensures s.ledger.claimRequests[j].expireOperationId == ExpireOperation(s.ledger.claimResults[j].candidate.due)
    ensures s.ledger.claimResults[j].candidate.scanOperationId == s.ledger.claimRequests[j].replayOperationId
    ensures s.ledger.claimResults[j].expireOperationId == s.ledger.claimRequests[j].expireOperationId
  {
    hide ValidCandidate, ValidDue;
    SnapshotClaims(s);
    assert ValidClaimResultFor(s.ledger.claimResults[j], s.ledger.claimRequests[j]);
  }

  lemma ConsumingCommit(s: Snapshot, e: nat) returns (i: nat)
    requires ValidSnapshot(s) && e < |s.ledger.entries| && s.ledger.entries[e].consumed.Some?
    ensures i < |s.commits| && s.commits[i].expireOperationId == s.ledger.entries[e].consumed.value.operation
    ensures s.commits[i].expireOperationId == ExpireOperation(s.ledger.entries[e].candidate.due)
  {
    hide ValidHold, ValidLedger, ValidHoldCandidate, ValidClaimEvidence, ValidCommits, ValidEvents, NothingNewer, HoldReflects;
    var operation := s.ledger.entries[e].consumed.value.operation;
    assert operation in ConsumedOperations(s.ledger.entries);
    i :| 0 <= i < |s.commits| && s.commits[i].expireOperationId == operation;
    assert CommitMatchesEntry(s.commits[i], s.ledger.entries[e]);
  }

  lemma OnlyTombstone(s: Snapshot, i: nat, j: nat)
    requires ValidSnapshot(s) && i < |s.ledger.entries| && j < |s.ledger.entries|
    requires s.ledger.entries[i].consumed.Some? && s.ledger.entries[j].consumed.Some?
    requires s.ledger.entries[i].consumed.value.operation == s.ledger.entries[j].consumed.value.operation
    ensures i == j
  {
  }

  /******* Authority *******/

  lemma CommittedAuthorityExactly(l: Ledger, r: ExpireRequest, committed: Candidate, ctx: Context, fence: int)
    requires |l.claimRequests| == |l.claimResults|
    ensures var a := AuthorityUnder(l, r, committed, None, ctx, fence);
      a.Ok? <==> Binds(r, committed) && fence == committed.fence && ctx.instance == committed.ownerInstance
  {
    hide ValidClaimResultFor;
  }

  lemma ClaimedAuthorityExactly(l: Ledger, r: ExpireRequest, committed: Candidate, ctx: Context, fence: int, j: nat, e: nat)
    requires j < |l.claimRequests| == |l.claimResults| && e < |l.entries|
    requires FindEntry(l, l.claimResults[j].candidate.leaseId) == Some(e)
    requires ValidClaimResultFor(l.claimResults[j], l.claimRequests[j])
    requires l.claimRequests[j].expireOperationId == r.expireOperationId == l.claimResults[j].expireOperationId
    requires l.entries[e] == Entry(l.claimResults[j].candidate, None)
    requires committed.fence < l.claimResults[j].candidate.fence
    requires committed.leaseId != l.claimResults[j].candidate.leaseId
    requires forall i | 0 <= i < |l.claimResults| && l.claimResults[i].candidate == l.claimResults[j].candidate :: i == j
    ensures var c, a := l.claimResults[j].candidate,
                        AuthorityUnder(l, r, committed, Some(Claim(l.claimRequests[j], l.claimResults[j])), ctx, fence);
      a.Ok? <==> && Binds(r, c) && ctx.principal == c.ownerPrincipal && ctx.instance == c.ownerInstance && fence == c.fence
                 && c.issuedAt <= ctx.now < c.leaseUntil
  {
    hide ValidClaimResultFor;
    var c := l.claimResults[j].candidate;
    var found := First(l.claimResults, (x: ClaimResult) => x.candidate == c);
    assert found == Some(j);
  }

  lemma OneClaimPerCandidate(s: Snapshot, j: nat)
    requires ValidSnapshot(s) && j < |s.ledger.claimRequests| == |s.ledger.claimResults|
    ensures forall i | 0 <= i < |s.ledger.claimResults| && s.ledger.claimResults[i].candidate == s.ledger.claimResults[j].candidate ::
              i == j
  {
    hide ValidSnapshot;
    forall i | 0 <= i < |s.ledger.claimResults| && s.ledger.claimResults[i].candidate == s.ledger.claimResults[j].candidate
      ensures i == j
    {
      ClaimDue(s, i);
      ClaimDue(s, j);
      DistinctClaims(s, i, j);
    }
  }

  /** The candidate that authority rests with: the last claim's, or the consumed one. */
  ghost function Authority(s: Snapshot, operation: Digest, committed: nat): Candidate
    requires |s.ledger.claimRequests| == |s.ledger.claimResults| && committed < |s.ledger.entries|
  {
    match LastRanked(s.ledger, operation)
    case None => s.ledger.entries[committed].candidate
    case Some(claim) => claim.result.candidate
  }

  lemma AuthorityExactly(s: Snapshot, k: nat, committed: nat, c: Candidate)
    requires ValidSnapshot(s) && k < |s.commits| && |s.ledger.claimRequests| == |s.ledger.claimResults|
    requires FindTombstone(s.ledger, s.commits[k].expireOperationId) == Some(committed) && committed < |s.ledger.entries|
    ensures HoldsAuthority(s, s.commits[k].expireOperationId, c) <==> c == Authority(s, s.commits[k].expireOperationId, committed)
    ensures LastRanked(s.ledger, s.commits[k].expireOperationId).Some?
       <==> exists j | 0 <= j < |s.ledger.claimRequests| ::
              s.ledger.claimRequests[j].expireOperationId == s.commits[k].expireOperationId
  {
    hide ValidSnapshot, LastRanked, ValidClaims, ValidTakeovers;
    var l, operation := s.ledger, s.commits[k].expireOperationId;
    SnapshotTakeovers(s);
    if j :| 0 <= j < |l.claimRequests| && l.claimRequests[j].expireOperationId == operation {
      EarlierClaimsEnd(l, operation, j);
      var last := LastIsStored(l, operation);
      forall i | 0 <= i < |l.claimRequests| && l.claimRequests[i].expireOperationId == operation
        ensures l.claimResults[i].candidate.fence <= l.claimResults[last].candidate.fence
        ensures l.claimResults[i].candidate.fence == l.claimResults[last].candidate.fence ==>
                  l.claimResults[i].candidate == l.claimResults[last].candidate
      {
        EarlierClaimsEnd(l, operation, i);
        var e := ClaimEntry(s, k, i, committed);
        var e' := ClaimEntry(s, k, last, committed);
        if l.claimResults[i].candidate.fence == l.claimResults[last].candidate.fence {
          FencesDiffer(s, e, e');
        }
      }
    } else {
      if LastRanked(l, operation).Some? {
        var last := LastIsStored(l, operation);
      }
      assert ConsumedBy(l.entries[committed], operation);
      forall e | 0 <= e < |l.entries| && ConsumedBy(l.entries[e], operation) ensures e == committed {
        OnlyTombstone(s, e, committed);
      }
    }
  }

  lemma FencesDiffer(s: Snapshot, i: nat, j: nat)
    requires ValidSnapshot(s) && i < |s.ledger.entries| && j < |s.ledger.entries|
    requires s.ledger.entries[i].candidate.fence == s.ledger.entries[j].candidate.fence
    ensures i == j
  {
    SnapshotParts(s);
  }

  /** `require_replay_authority` of a committed operation. */
  lemma ReplayAuthorityExactly(r: ExpireRequest, s: Snapshot, ctx: Context, fence: int, k: nat, committed: nat)
    requires ValidSnapshot(s) && k < |s.commits| && |s.ledger.claimRequests| == |s.ledger.claimResults|
    requires ValidExpireRequest(r) && s.commits[k].expireOperationId == r.expireOperationId
    requires FindTombstone(s.ledger, r.expireOperationId) == Some(committed) && committed < |s.ledger.entries|
    ensures var c := Authority(s, r.expireOperationId, committed);
      ReplayAuthority(s.ledger, r, ctx, fence).Ok?
      <==> && Binds(r, c) && ctx.principal == c.ownerPrincipal && ctx.instance == c.ownerInstance && fence == c.fence
           && (LastRanked(s.ledger, r.expireOperationId).Some? ==> c.issuedAt <= ctx.now < c.leaseUntil)
  {
    hide ValidSnapshot, ValidLedger, CurrentClaim, AuthorityUnder, LastRanked, ValidClaims, ValidPointers, HoldReflects;
    hide ValidEntries, ValidDue, Binds;
    var l, operation := s.ledger, r.expireOperationId;
    SnapshotClaims(s);
    SnapshotLedger(s);
    SnapshotParts(s);
    CurrentClaimIsLast(l, operation);
    var e := CommitDue(s, k);
    if LastRanked(l, operation).Some? {
      var j := LastIsStored(l, operation);
      var entry := ClaimEntry(s, k, j, committed);
      ClaimDue(s, j);
      ClaimPrincipal(s, k, j, committed);
      OneClaimPerCandidate(s, j);
      OnlyUnderItsLease(l, entry);
      ClaimIsValid(l, j);
      ClaimedAuthorityExactly(l, r, l.entries[committed].candidate, ctx, fence, j, entry);
    } else {
      CommittedAuthorityExactly(l, r, l.entries[committed].candidate, ctx, fence);
    }
  }

  lemma ClaimIsValid(l: Ledger, j: nat)
    requires ValidClaims(l) && j < |l.claimRequests|
    ensures ValidClaimResultFor(l.claimResults[j], l.claimRequests[j])
  {
  }

  lemma SnapshotLedger(s: Snapshot)
    requires ValidSnapshot(s)
    ensures ValidLedger(s.ledger)
  {
  }

  /** A claim stays with the principal that committed. */
  lemma ClaimPrincipal(s: Snapshot, k: nat, j: nat, committed: nat)
    requires ValidSnapshot(s) && k < |s.commits| && j < |s.ledger.claimRequests| == |s.ledger.claimResults|
    requires s.ledger.claimRequests[j].expireOperationId == s.commits[k].expireOperationId
    requires FindTombstone(s.ledger, s.commits[k].expireOperationId) == Some(committed) && committed < |s.ledger.entries|
    ensures s.ledger.claimResults[j].candidate.ownerPrincipal == s.ledger.entries[committed].candidate.ownerPrincipal
  {
    hide ValidHold, ValidLedger, ValidHoldCandidate, ValidTombstones, ValidCommits, ValidEvents, NothingNewer, HoldReflects;
    var q, result := s.ledger.claimRequests[j], s.ledger.claimResults[j];
    assert FollowsSomeCommit(q, result, s.commits, s.hold);
    var i :| 0 <= i < |s.commits| && s.commits[i].expireOperationId == q.expireOperationId
             && ClaimFollowsCommit(q, result, s.commits[i], s.hold);
    OnlyCommitOf(s, k, i);
    assert CommitMatchesEntry(s.commits[k], s.ledger.entries[committed]);
  }

  /** A committed operation is answered to the one holder of its authority, on these terms, with the committed
      result and nothing changed; everybody else is refused. */
  lemma ReplayAcceptsExactly(r: ExpireRequest, s: Snapshot, ctx: Context, fence: int, k: nat)
    requires ValidSnapshot(s) && |s.ledger.claimRequests| == |s.ledger.claimResults|
    requires k < |s.commits| && s.commits[k].expireOperationId == r.expireOperationId
    ensures var a := ApplyExpire(r, s, ctx, fence);
      && (a.Ok? <==> exists c :: HoldsAuthority(s, r.expireOperationId, c) && ReplayTerms(r, s, ctx, fence, c))
      && (if a.Ok? then a.value == (s, s.commits[k].result) else a.error.Refused?)
  {
    hide ValidSnapshot, ApplyExpire, Replay, FreshExpire, HoldsAuthority, FromReaper, ValidContext, OnReaperChannel;
    hide ValidExpireRequest, RequestsExpiry, Binds, ReplayAuthority, LastRanked, Authority, HoldReflects, ValidCandidate;
    ExpireReduces(r, s, ctx, fence);
    FromReaperExactly(ctx);
    FoundCommit(s, k);
    var committed := CommitDue(s, k);
    var c := Authority(s, r.expireOperationId, committed);
    forall x ensures HoldsAuthority(s, r.expireOperationId, x) <==> x == c {
      AuthorityExactly(s, k, committed, x);
    }
    AuthorityExactly(s, k, committed, c);
    AuthorityIsValid(s, k, committed);
    RequestExactly(r, c);
    BoundDue(r, c);
    LeastFence(c);
    if ValidExpireRequest(r) {
      ReplayIsNeverRejected(r, s, k, ctx, fence);
      ReplayAuthorityExactly(r, s, ctx, fence, k, committed);
      ReplayNeedsAuthority(r, s, ctx, fence, k);
    }
  }

  lemma AuthorityIsValid(s: Snapshot, k: nat, committed: nat)
    requires ValidSnapshot(s) && k < |s.commits| && |s.ledger.claimRequests| == |s.ledger.claimResults|
    requires FindTombstone(s.ledger, s.commits[k].expireOperationId) == Some(committed) && committed < |s.ledger.entries|
    ensures ValidCandidate(Authority(s, s.commits[k].expireOperationId, committed))
  {
    hide ValidSnapshot, ValidCandidate, LastRanked;
    SnapshotParts(s);
    assert ValidEntry(s.ledger.entries[committed]);
    if LastRanked(s.ledger, s.commits[k].expireOperationId).Some? {
      var j := LastIsStored(s.ledger, s.commits[k].expireOperationId);
      var e := ClaimEntry(s, k, j, committed);
      assert ValidEntry(s.ledger.entries[e]);
    }
  }

  /** Besides its authority, a replay only needs the hold to be the one that was expired. */
  lemma ReplayNeedsAuthority(r: ExpireRequest, s: Snapshot, ctx: Context, fence: int, k: nat)
    requires ValidSnapshot(s) && ValidExpireRequest(r) && k < |s.commits|
    requires s.commits[k].expireOperationId == r.expireOperationId
    ensures Replay(r, s, s.commits[k], ctx, fence).Ok?
       <==> && ReplayAuthority(s.ledger, r, ctx, fence).Ok?
            && r.due.artifactId == s.hold.artifactId && r.due.holdId == s.hold.holdId
  {
    hide ValidSnapshot, ValidLedger, ReplayAuthority, ResultAnswers, CommitMatchesEntry, Authorises, ValidDue, HoldReflects;
    var e := CommittedTombstone(s, k);
    var e' := CommitDue(s, k);
    SnapshotLedger(s);
    AuthorityIsSound(s.ledger, r, ctx, fence, e);
    var a := ReplayAuthority(s.ledger, r, ctx, fence);
    if a.Ok? {
      CommitAnswers(r, s.commits[k], s.ledger.entries[e], a.value, ctx, fence);
    }
    if r.due.artifactId == s.hold.artifactId && r.due.holdId == s.hold.holdId {
      CommittedHold(s, k, r.due);
    }
  }
}
