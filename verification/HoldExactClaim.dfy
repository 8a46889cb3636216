/** REPLAY_CLAIM of any snapshot that `validate` accepts: exactly when it is stored, refused by a guard,
    or rejected by the validation of what it built. */
module HoldExactClaim {
  import opened Wrappers
  import opened Text
  import opened HoldModel
  import opened HoldTransitions
  import opened HoldFacts
  import Sorting

  ghost function NextPointer(l: Ledger, q: ClaimRequest, c: Candidate): Pointer {
    PointerOf(Claim(q, ClaimResultFor(q, c)), NextRevision(l, q.expireOperationId))
  }

  /** The ledger with one more claim, which becomes the current one of its operation. */
  ghost function AppendClaim(l: Ledger, q: ClaimRequest, c: Candidate): Ledger {
    WithClaim(l, q, ClaimResultFor(q, c), NextPointer(l, q, c))
  }

  ghost function ClaimNext(s: Snapshot, q: ClaimRequest, c: Candidate): Snapshot {
    s.(ledger := AppendClaim(s.ledger, q, c))
  }

  /** A claim that may be appended: the next fence and a new operation ID. */
  ghost predicate IsNextClaim(l: Ledger, q: ClaimRequest, c: Candidate) {
    && ValidClaimResultFor(ClaimResultFor(q, c), q)
    && c.fence == l.highWater + 1
    && FindClaim(l, q.replayOperationId).None?
  }

  /** The replay operation ID has not been used up as a scan operation ID. */
  ghost predicate NotAScan(l: Ledger, id: Digest) {
    forall i | 0 <= i < |l.scanRequests| :: l.scanRequests[i].scanOperationId != id
  }

  /******* The grown ledger *******/

  lemma OneMoreClaim(l: Ledger, q: ClaimRequest, c: Candidate, operation: Digest)
    requires |l.claimRequests| == |l.claimResults|
    ensures var l' := AppendClaim(l, q, c);
      ClaimsOn(l'.claimRequests, l'.claimResults, operation)
      == ClaimsOn(l.claimRequests, l.claimResults, operation)
         + if q.expireOperationId == operation then [Claim(q, ClaimResultFor(q, c))] else []
  {
    var l', n := AppendClaim(l, q, c), |l.claimRequests|;
    assert l'.claimRequests[..n] == l.claimRequests && l'.claimResults[..n] == l.claimResults;
  }

  /** Claims are entries, so their fences are at most the high-water. */
  lemma ClaimFencesAreStored(l: Ledger, operation: Digest)
    requires |l.scanRequests| == |l.scanResults| && |l.claimRequests| == |l.claimResults|
    requires ValidEntries(l) && ValidProjection(l)
    ensures forall d | d in ClaimsOn(l.claimRequests, l.claimResults, operation) :: ClaimFence(d) <= l.highWater
  {
    hide ValidEntry, ValidProjection;
    ClaimsOnMembers(l.claimRequests, l.claimResults, operation);
    forall d | d in ClaimsOn(l.claimRequests, l.claimResults, operation) ensures ClaimFence(d) <= l.highWater {
      var j :| 0 <= j < |l.claimRequests| && d == Claim(l.claimRequests[j], l.claimResults[j]);
      assert PersistedCandidates(l)[|EvidenceOf(l.scanRequests, l.scanResults)| + j] == l.claimResults[j].candidate;
      var k := PersistedEntry(l, l.claimResults[j].candidate);
      assert l.entries[k].candidate.fence <= l.highWater;
    }
  }

  lemma RankedAfterClaim(l: Ledger, q: ClaimRequest, c: Candidate, operation: Digest)
    requires |l.scanRequests| == |l.scanResults| && |l.claimRequests| == |l.claimResults|
    requires ValidEntries(l) && ValidProjection(l) && l.highWater < c.fence
    ensures RankedClaims(AppendClaim(l, q, c), operation)
         == RankedClaims(l, operation)
            + if q.expireOperationId == operation then [Claim(q, ClaimResultFor(q, c))] else []
  {
    hide ValidEntries, ValidProjection, AppendClaim;
    var claims, claim := ClaimsOn(l.claimRequests, l.claimResults, operation), Claim(q, ClaimResultFor(q, c));
    OneMoreClaim(l, q, c, operation);
    if q.expireOperationId == operation {
      ClaimFencesAreStored(l, operation);
      forall i | 0 <= i < |claims| ensures !Sorting.ByKey(ClaimFence)(claim, claims[i]) {
        assert ClaimFence(claims[i]) < ClaimFence(claim);
      }
      Sorting.SortAppends(Sorting.ByKey(ClaimFence), claims, claim);
    } else {
      assert claims + [] == claims && RankedClaims(l, operation) + [] == RankedClaims(l, operation);
    }
  }

  lemma GrownClaims(l: Ledger, q: ClaimRequest, c: Candidate)
    requires ValidClaims(l) && IsNextClaim(l, q, c)
    ensures ValidClaims(AppendClaim(l, q, c)) <==> NotAScan(l, q.replayOperationId)
  {
    hide ValidClaimResultFor;
    var l', n := AppendClaim(l, q, c), |l.claimRequests|;
    assert l'.claimRequests[n] == q && l'.claimResults[n] == ClaimResultFor(q, c);
  }

  /** The last claim of the operation, if there is one, ends before the new one starts. */
  ghost predicate Follows(l: Ledger, q: ClaimRequest, c: Candidate)
    requires |l.claimRequests| == |l.claimResults|
  {
    var last := LastRanked(l, q.expireOperationId);
    last.Some? ==> last.value.result.candidate.leaseUntil <= c.issuedAt
  }

  lemma AdjacentAppends(claims: seq<Claim>, claim: Claim)
    requires Adjacent(claims)
    requires claims != [] ==> claims[|claims| - 1].result.candidate.leaseUntil <= claim.result.candidate.issuedAt
    ensures Adjacent(claims + [claim])
  {
  }

  /** The claims of one operation are ordered in time, whether or not there are any. */
  lemma AllTakeovers(l: Ledger, operation: Digest)
    requires |l.claimRequests| == |l.claimResults| && ValidTakeovers(l)
    ensures Adjacent(RankedClaims(l, operation))
  {
    var claims := ClaimsOn(l.claimRequests, l.claimResults, operation);
    if claims != [] {
      ClaimsOnMembers(l.claimRequests, l.claimResults, operation);
      ClaimsOnOperation(l.claimRequests, l.claimResults, operation);
      assert claims[0] in claims;
      var j :| 0 <= j < |l.claimRequests| && claims[0] == Claim(l.claimRequests[j], l.claimResults[j]);
      assert l.claimRequests[j].expireOperationId == operation;
    }
  }

  lemma GrownTakeovers(l: Ledger, q: ClaimRequest, c: Candidate)
    requires |l.scanRequests| == |l.scanResults| && |l.claimRequests| == |l.claimResults|
    requires ValidEntries(l) && ValidProjection(l) && ValidTakeovers(l)
    requires l.highWater < c.fence && Follows(l, q, c)
    ensures ValidTakeovers(AppendClaim(l, q, c))
  {
    hide ValidEntries, ValidProjection, Adjacent, ValidTakeovers;
    var l' := AppendClaim(l, q, c);
    forall operation ensures Adjacent(RankedClaims(l', operation)) {
      AllTakeovers(l, operation);
      RankedAfterClaim(l, q, c, operation);
      if q.expireOperationId == operation {
        AdjacentAppends(RankedClaims(l, operation), Claim(q, ClaimResultFor(q, c)));
      } else {
        assert RankedClaims(l, operation) + [] == RankedClaims(l, operation);
      }
    }
    TakeoversOfAll(l');
  }

  lemma TakeoversOfAll(l: Ledger)
    requires |l.claimRequests| == |l.claimResults|
    requires forall operation :: Adjacent(RankedClaims(l, operation))
    ensures ValidTakeovers(l)
  {
    hide Adjacent;
  }

  lemma {:induction false} ClaimsOnAreFewer(requests: seq<ClaimRequest>, results: seq<ClaimResult>, operation: Digest)
    requires |requests| == |results|
    ensures |ClaimsOn(requests, results, operation)| <= |requests|
  {
    if requests != [] {
      ClaimsOnAreFewer(requests[..|requests| - 1], results[..|requests| - 1], operation);
    }
  }

  lemma {:induction false} FencesOutrun(l: Ledger, k: nat)
    requires ValidEntries(l) && k < |l.entries|
    ensures k < l.entries[k].candidate.fence
  {
    assert ValidEntry(l.entries[k]);
    if k > 0 {
      FencesOutrun(l, k - 1);
    }
  }

  /** The revision counts the claims of the operation, and stays below the new fence. */
  lemma RevisionCounts(l: Ledger, q: ClaimRequest, c: Candidate)
    requires |l.scanRequests| == |l.scanResults| && |l.claimRequests| == |l.claimResults|
    requires ValidEntries(l) && ValidProjection(l) && ValidPointers(l) && IsNextClaim(l, q, c)
    requires SafeInteger(0, l.highWater)
    ensures NextRevision(l, q.expireOperationId) == |RankedClaims(l, q.expireOperationId)| + 1
    ensures ValidPointer(NextPointer(l, q, c))
  {
    hide ValidPointers, ValidProjection, ValidEntries;
    PointerOfRanked(l, q.expireOperationId);
    ClaimsOnAreFewer(l.claimRequests, l.claimResults, q.expireOperationId);
    ProjectionCounts(l);
    if l.entries != [] {
      FencesOutrun(l, |l.entries| - 1);
      LastFenceIsBelow(l);
    }
  }

  lemma ProjectionCounts(l: Ledger)
    requires |l.scanRequests| == |l.scanResults| && ValidProjection(l)
    ensures |l.claimResults| <= |l.entries|
  {
    assert |EntryCandidates(l.entries)| == |PersistedCandidates(l)|;
  }

  lemma LastFenceIsBelow(l: Ledger)
    requires ValidEntries(l) && l.entries != []
    ensures l.entries[|l.entries| - 1].candidate.fence <= l.highWater
  {
  }

  lemma PointersReplaced(l: Ledger, p: Pointer)
    requires forall i, j | 0 <= i < j < |l.pointers| :: l.pointers[i].expireOperationId != l.pointers[j].expireOperationId
    ensures var pointers := WithPointer(l, p);
      && PointedOperations(pointers) == PointedOperations(l.pointers) + {p.expireOperationId}
      && (forall i, j | 0 <= i < j < |pointers| :: pointers[i].expireOperationId != pointers[j].expireOperationId)
      && (forall i | 0 <= i < |pointers| ::
            pointers[i] == p || (pointers[i].expireOperationId != p.expireOperationId && pointers[i] in l.pointers))
  {
    var pointers, found := WithPointer(l, p), FindPointer(l, p.expireOperationId);
    var at := if found.Some? then found.value else |l.pointers|;
    assert pointers[at] == p && forall i | 0 <= i < |l.pointers| && i != at :: pointers[i] == l.pointers[i];
    forall id | id in PointedOperations(l.pointers) ensures id in PointedOperations(pointers) {
      var i :| 0 <= i < |l.pointers| && l.pointers[i].expireOperationId == id;
      assert pointers[i].expireOperationId == id;
    }
  }

  lemma OneMoreClaimed(requests: seq<ClaimRequest>, q: ClaimRequest)
    ensures ClaimedOperations(requests + [q]) == ClaimedOperations(requests) + {q.expireOperationId}
  {
    assert (requests + [q])[|requests|] == q && forall i | 0 <= i < |requests| :: (requests + [q])[i] == requests[i];
    forall id | id in ClaimedOperations(requests) ensures id in ClaimedOperations(requests + [q]) {
      var j :| 0 <= j < |requests| && requests[j].expireOperationId == id;
      assert (requests + [q])[j].expireOperationId == id;
    }
  }

  /** Each pointer is valid and leads to the claim ranked last on its operation. */
  ghost predicate PointsToLast(l: Ledger, p: Pointer)
    requires |l.claimRequests| == |l.claimResults|
  {
    var ranked := RankedClaims(l, p.expireOperationId);
    ValidPointer(p) && ranked != [] && p == PointerOf(ranked[|ranked| - 1], |ranked|)
  }

  lemma PointersUnfold(l: Ledger)
    requires |l.claimRequests| == |l.claimResults|
    ensures ValidPointers(l)
       <==> && (forall i, j | 0 <= i < j < |l.pointers| ::
                  l.pointers[i].expireOperationId != l.pointers[j].expireOperationId)
            && PointedOperations(l.pointers) == ClaimedOperations(l.claimRequests)
            && forall i | 0 <= i < |l.pointers| :: PointsToLast(l, l.pointers[i])
  {
    hide ValidPointer;
  }

  lemma GrownPointers(l: Ledger, q: ClaimRequest, c: Candidate)
    requires |l.scanRequests| == |l.scanResults| && |l.claimRequests| == |l.claimResults|
    requires ValidEntries(l) && ValidProjection(l) && ValidPointers(l) && IsNextClaim(l, q, c)
    requires SafeInteger(0, l.highWater)
    ensures ValidPointers(AppendClaim(l, q, c))
  {
    hide ValidEntries, ValidProjection, ValidPointers, ValidPointer, PointedOperations, ClaimedOperations, RankedClaims;
    hide NextRevision, WithPointer;
    var l', p := AppendClaim(l, q, c), NextPointer(l, q, c);
    PointersUnfold(l);
    RevisionCounts(l, q, c);
    PointersReplaced(l, p);
    OneMoreClaimed(l.claimRequests, q);
    forall i | 0 <= i < |l'.pointers| ensures PointsToLast(l', l'.pointers[i]) {
      RankedAfterClaim(l, q, c, l'.pointers[i].expireOperationId);
      if l'.pointers[i] != p {
        var k :| 0 <= k < |l.pointers| && l.pointers[k] == l'.pointers[i];
        assert PointsToLast(l, l.pointers[k]);
        assert RankedClaims(l, l.pointers[k].expireOperationId) + [] == RankedClaims(l, l.pointers[k].expireOperationId);
      }
    }
    PointersUnfold(l');
  }

  lemma ClaimProvenance(l: Ledger, q: ClaimRequest, c: Candidate)
    requires ValidProvenance(l)
    ensures ValidProvenance(AppendClaim(l, q, c))
  {
    hide HasProvenance;
    forall a | 0 <= a < |l.allocations| ensures HasProvenance(AppendClaim(l, q, c).entries, l.allocations[a]) {
      GrownProvenance(l.entries, Entry(c, None), l.allocations[a]);
    }
  }

  lemma ClaimPersisted(l: Ledger, q: ClaimRequest, c: Candidate)
    requires |l.scanRequests| == |l.scanResults|
    ensures PersistedCandidates(AppendClaim(l, q, c)) == PersistedCandidates(l) + [c]
  {
    var l', n := AppendClaim(l, q, c), |l.claimResults|;
    assert l'.claimResults[n].candidate == c && forall j | 0 <= j < n :: l'.claimResults[j] == l.claimResults[j];
  }

  /** The ledger with one more claim is valid exactly if no scan had its ID. */
  lemma AppendedClaimIsValid(l: Ledger, q: ClaimRequest, c: Candidate)
    requires ValidLedger(l) && IsNextClaim(l, q, c) && Unused(c, l) && Follows(l, q, c)
    ensures ValidLedger(AppendClaim(l, q, c)) <==> NotAScan(l, q.replayOperationId)
  {
    hide ValidEntries, ValidProjection, ValidProvenance, ValidTakeovers, ValidPointers, ValidSeals, ValidAllocations;
    hide Follows, Unused, NotAScan, PersistedCandidates;
    var l' := AppendClaim(l, q, c);
    SameScans(l, l');
    GrownClaims(l, q, c);
    GrownTakeovers(l, q, c);
    GrownPointers(l, q, c);
    assert Grows(l, l', c) by {
      assert ValidCandidate(c);
    }
    GrownEntries(l, l', c);
    ClaimProvenance(l, q, c);
    ClaimPersisted(l, q, c);
    GrownProjection(l, l', c);
  }

  /******* The grown snapshot *******/

  /** The new entry is a claim's, and claims are never newer than a tombstone. */
  lemma ClaimIsNotNewer(l: Ledger, q: ClaimRequest, c: Candidate, e: Entry)
    requires NothingNewer(e, l)
    ensures NothingNewer(e, AppendClaim(l, q, c))
  {
    var l', n, m := AppendClaim(l, q, c), |l.entries|, |l.claimResults|;
    assert l'.claimResults[m].candidate == c && forall j | 0 <= j < m :: l'.claimResults[j] == l.claimResults[j];
    assert l'.entries[n].candidate == c && forall i | 0 <= i < n :: l'.entries[i] == l.entries[i];
    forall i | 0 <= i < n && IsReplayCandidate(l.entries[i].candidate, l.claimResults)
      ensures IsReplayCandidate(l'.entries[i].candidate, l'.claimResults)
    {
      var j :| 0 <= j < m && l.claimResults[j].candidate == l.entries[i].candidate;
      assert l'.claimResults[j].candidate == l'.entries[i].candidate;
    }
  }

  lemma ClaimKeepsEvidence(s: Snapshot, q: ClaimRequest, c: Candidate)
    requires ValidCommitEvidence(s)
    ensures ValidCommitEvidence(ClaimNext(s, q, c))
  {
    hide CommitMatchesEntry, HoldReflects, NothingNewer;
    var s', n := ClaimNext(s, q, c), |s.ledger.entries|;
    forall i, k | 0 <= i < |s.commits| && 0 <= k < |s'.ledger.entries| && s'.ledger.entries[k].consumed.Some?
                  && s'.ledger.entries[k].consumed.value.operation == s.commits[i].expireOperationId
      ensures CommitMatchesEntry(s.commits[i], s'.ledger.entries[k])
      ensures NothingNewer(s'.ledger.entries[k], s'.ledger)
      ensures HoldReflects(s'.hold, s.commits[i], s'.ledger.entries[k].candidate)
    {
      assert k < n && s'.ledger.entries[k] == s.ledger.entries[k];
      ClaimIsNotNewer(s.ledger, q, c, s.ledger.entries[k]);
    }
  }

  lemma GrownClaimEvidence(s: Snapshot, q: ClaimRequest, c: Candidate)
    requires |s.ledger.claimRequests| == |s.ledger.claimResults| && ValidClaimEvidence(s)
    ensures ValidClaimEvidence(ClaimNext(s, q, c)) <==> FollowsSomeCommit(q, ClaimResultFor(q, c), s.commits, s.hold)
  {
    hide FollowsSomeCommit;
    var l', n := ClaimNext(s, q, c).ledger, |s.ledger.claimRequests|;
    assert l'.claimRequests[n] == q && l'.claimResults[n] == ClaimResultFor(q, c);
    forall j | 0 <= j < n
      ensures FollowsSomeCommit(l'.claimRequests[j], l'.claimResults[j], s.commits, s.hold)
    {
      assert l'.claimRequests[j] == s.ledger.claimRequests[j] && l'.claimResults[j] == s.ledger.claimResults[j];
    }
  }

  /** The snapshot with one more claim is valid exactly if its ledger is and the claim follows a commit. */
  lemma ClaimNextIsValid(s: Snapshot, q: ClaimRequest, c: Candidate)
    requires ValidSnapshot(s) && s.hold.status != ACTIVE && s.hold.candidate.None?
    requires ValidLedger(AppendClaim(s.ledger, q, c))
    ensures ValidSnapshot(ClaimNext(s, q, c)) <==> FollowsSomeCommit(q, ClaimResultFor(q, c), s.commits, s.hold)
  {
    hide ValidLedger, ValidTombstones, ValidCommitEvidence, ValidCommits, ValidEvents, FollowsSomeCommit, ValidClaimEvidence;
    LedgerCounts(s.ledger);
    ClaimKeepsEvidence(s, q, c);
    GrownClaimEvidence(s, q, c);
    UnconsumedTombstones(s.ledger.entries, Entry(c, None), s.commits);
  }

  lemma LedgerCounts(l: Ledger)
    ensures ValidLedger(l) ==> |l.scanRequests| == |l.scanResults| && |l.claimRequests| == |l.claimResults|
  {
  }

  /******* The commit that is taken over *******/

  /** Everything the guards on commit, tombstone, principal and hold establish. */
  ghost predicate TakesOver(q: ClaimRequest, s: Snapshot, ctx: Context, k: nat)
    requires k < |s.commits|
  {
    && FindCommit(s, q.expireOperationId) == Some(k)
    && q.baseCommitDigest == OfCommit(s.commits[k])
    && ctx.principal == s.commits[k].principal
    && q.due.artifactId == s.commits[k].result.artifactId && q.due.holdId == s.commits[k].result.holdId
    && q.due.holdDigest == s.commits[k].expectedHoldDigest && q.due.version == s.commits[k].previousVersion
    && s.commits[k].fence <= s.ledger.highWater
    && TerminalFor(s.hold, q, s.commits[k])
  }

  lemma ClaimedCommitOutcome(q: ClaimRequest, s: Snapshot, ctx: Context)
    requires ValidSnapshot(s)
    ensures var commit := ClaimedCommit(q, s, ctx);
      if commit.Ok? then exists k :: 0 <= k < |s.commits| && s.commits[k] == commit.value && TakesOver(q, s, ctx, k)
      else commit.error.Refused?
  {
    hide ValidHold, ValidLedger, ValidHoldCandidate, ValidClaimEvidence, ValidCommitEvidence, ValidTombstones;
    hide ValidCommits, ValidEvents, ValidDue, ValidCommit, ValidExpiryResult, RetainedBy, TerminalFor;
    var found := FindCommit(s, q.expireOperationId);
    if found.Some? {
      var e := CommittedTombstone(s, found.value);
      CommitFence(s, e);
      assert ClaimedCommit(q, s, ctx).Ok? ==> TakesOver(q, s, ctx, found.value);
    }
  }

  lemma CommitFence(s: Snapshot, e: nat)
    requires ValidSnapshot(s) && e < |s.ledger.entries|
    ensures s.ledger.entries[e].candidate.fence <= s.ledger.highWater
  {
  }

  lemma OnlyCommitOf(s: Snapshot, k: nat, i: nat)
    requires ValidSnapshot(s) && k < |s.commits| && i < |s.commits|
    requires s.commits[i].expireOperationId == s.commits[k].expireOperationId
    ensures i == k
  {
  }

  lemma FollowsItsCommit(q: ClaimRequest, s: Snapshot, ctx: Context, k: nat, c: Candidate)
    requires ValidSnapshot(s) && k < |s.commits| && TakesOver(q, s, ctx, k)
    requires c.due == q.due && c.ownerPrincipal == ctx.principal && s.ledger.highWater < c.fence
    ensures FollowsSomeCommit(q, ClaimResultFor(q, c), s.commits, s.hold) <==> s.commits[k].committedAt <= c.issuedAt
  {
    hide ValidSnapshot;
    var result := ClaimResultFor(q, c);
    assert ClaimFollowsCommit(q, result, s.commits[k], s.hold) <==> s.commits[k].committedAt <= c.issuedAt;
    if FollowsSomeCommit(q, result, s.commits, s.hold) {
      var i :| 0 <= i < |s.commits| && s.commits[i].expireOperationId == q.expireOperationId
               && ClaimFollowsCommit(q, result, s.commits[i], s.hold);
      OnlyCommitOf(s, k, i);
    }
  }

  /** The last claim of an operation came after its commit. */
  lemma LastClaimFollows(s: Snapshot, k: nat)
    requires ValidSnapshot(s) && k < |s.commits|
    ensures var last := LastRanked(s.ledger, s.commits[k].expireOperationId);
      last.Some? ==>
        s.commits[k].committedAt <= last.value.result.candidate.issuedAt < last.value.result.candidate.leaseUntil
  {
    hide ValidHold, ValidHoldCandidate, ValidTombstones, ValidCommits, ValidCommitEvidence, ValidEvents;
    hide ValidScans, ValidSeals, ValidAllocations, ValidTakeovers, ValidPointers, ValidEntries, ValidProvenance, ValidProjection;
    var l, operation := s.ledger, s.commits[k].expireOperationId;
    var ranked := RankedClaims(l, operation);
    if ranked != [] {
      var last := ranked[|ranked| - 1];
      Sorting.SortPermutes(Sorting.ByKey(ClaimFence), ClaimsOn(l.claimRequests, l.claimResults, operation));
      ClaimsOnMembers(l.claimRequests, l.claimResults, operation);
      ClaimsOnOperation(l.claimRequests, l.claimResults, operation);
      assert last in ranked;
      var j :| 0 <= j < |l.claimRequests| && last == Claim(l.claimRequests[j], l.claimResults[j]);
      StoredClaimFollows(s, k, j);
    }
  }

  lemma StoredClaimFollows(s: Snapshot, k: nat, j: nat)
    requires ValidSnapshot(s) && k < |s.commits| && j < |s.ledger.claimRequests|
    requires |s.ledger.claimRequests| == |s.ledger.claimResults|
    requires s.ledger.claimRequests[j].expireOperationId == s.commits[k].expireOperationId
    ensures var c := s.ledger.claimResults[j].candidate; s.commits[k].committedAt <= c.issuedAt < c.leaseUntil
  {
    hide ValidHold, ValidHoldCandidate, ValidTombstones, ValidCommits, ValidCommitEvidence, ValidEvents;
    hide ValidScans, ValidSeals, ValidAllocations, ValidTakeovers, ValidPointers, ValidEntries, ValidProvenance, ValidProjection;
    var q, result := s.ledger.claimRequests[j], s.ledger.claimResults[j];
    assert ValidClaimResultFor(result, q) && FollowsSomeCommit(q, result, s.commits, s.hold);
    var i :| 0 <= i < |s.commits| && s.commits[i].expireOperationId == q.expireOperationId
             && ClaimFollowsCommit(q, result, s.commits[i], s.hold);
    OnlyCommitOf(s, k, i);
  }

  /******* The transition *******/

  lemma EvaluateRecordClaim(l: Ledger, q: ClaimRequest, c: Candidate)
    requires ValidLedger(l) && ValidClaimResultFor(ClaimResultFor(q, c), q)
    requires FindClaim(l, q.replayOperationId).None? && l.highWater < c.fence && ValidPointer(NextPointer(l, q, c))
    ensures RecordClaim(l, q, ClaimResultFor(q, c))
         == if !Unused(c, l) then Err(Refused(BearerReused))
            else if !ValidLedger(AppendClaim(l, q, c)) then Err(Rejected(LedgerAfter))
            else Ok(AppendClaim(l, q, c))
  {
    hide ValidLedger, Unused, NextRevision, WithClaim, ValidPointer;
  }

  /** `_record_replay_claim` of the next claim. */
  lemma RecordClaimOutcome(l: Ledger, q: ClaimRequest, c: Candidate)
    requires ValidLedger(l) && IsNextClaim(l, q, c) && Follows(l, q, c)
    ensures RecordClaim(l, q, ClaimResultFor(q, c))
         == if !Unused(c, l) then Err(Refused(BearerReused))
            else if !NotAScan(l, q.replayOperationId) then Err(Rejected(LedgerAfter))
            else Ok(AppendClaim(l, q, c))
  {
    hide ValidScans, ValidEntries, ValidProjection, ValidProvenance, ValidTakeovers, ValidPointers, ValidSeals;
    hide ValidAllocations, RecordClaim, NextPointer, AppendClaim, Unused, NotAScan, Follows;
    ScanCounts(l);
    RevisionCounts(l, q, c);
    EvaluateRecordClaim(l, q, c);
    if Unused(c, l) {
      AppendedClaimIsValid(l, q, c);
    }
  }

  lemma ScanCounts(l: Ledger)
    requires ValidScans(l)
    ensures |l.scanRequests| == |l.scanResults|
  {
  }

  lemma ClaimResultIsValid(q: ClaimRequest, c: Candidate)
    requires ValidClaimRequest(q) && ValidCandidate(c)
    requires c.scanOperationId == q.replayOperationId && c.leaseId == q.leaseId && c.token == q.token && c.due == q.due
    ensures ValidClaimResultFor(ClaimResultFor(q, c), q)
  {
  }

  /** The authority is vacant exactly if the claim ranked last has run out. */
  lemma VacantOutcome(s: Snapshot, k: nat, now: int)
    requires ValidSnapshot(s) && k < |s.commits|
    ensures var last := LastRanked(s.ledger, s.commits[k].expireOperationId);
      var r := VacantAuthority(s.ledger, s.commits[k].expireOperationId, now);
      if last.Some? ==> last.value.result.candidate.leaseUntil <= now then r == Ok(()) else r.Err? && r.error.Refused?
  {
    hide ValidClaims, ValidPointers, LastRanked, CurrentClaim;
    SnapshotClaims(s);
    CurrentClaimIsLast(s.ledger, s.commits[k].expireOperationId);
    LastClaimFollows(s, k);
  }

  lemma SnapshotClaims(s: Snapshot)
    requires ValidSnapshot(s)
    ensures ValidClaims(s.ledger) && ValidPointers(s.ledger)
  {
  }

  /** The guards of a new claim, as the transition runs them. */
  ghost predicate ClaimGuards(q: ClaimRequest, s: Snapshot, ctx: Context, leaseUntil: int)
    requires |s.ledger.claimRequests| == |s.ledger.claimResults|
  {
    && ctx.now < leaseUntil
    && ClaimedCommit(q, s, ctx).Ok?
    && VacantAuthority(s.ledger, q.expireOperationId, ctx.now).Ok?
    && ValidCandidate(ClaimCandidate(q, s.ledger, ctx, leaseUntil))
    && Unused(ClaimCandidate(q, s.ledger, ctx, leaseUntil), s.ledger)
  }

  /** The operation is committed but nobody claims it yet, and `now` is before the commit. */
  ghost predicate PredatesCommit(s: Snapshot, operation: Digest, now: int) {
    && (forall j | 0 <= j < |s.ledger.claimRequests| :: s.ledger.claimRequests[j].expireOperationId != operation)
    && exists k | 0 <= k < |s.commits| :: s.commits[k].expireOperationId == operation && now < s.commits[k].committedAt
  }

  lemma PredatesUnfolds(s: Snapshot, k: nat, now: int)
    requires ValidSnapshot(s) && k < |s.commits|
    ensures PredatesCommit(s, s.commits[k].expireOperationId, now)
       <==> LastRanked(s.ledger, s.commits[k].expireOperationId).None? && now < s.commits[k].committedAt
  {
    hide ValidSnapshot;
    var l, operation := s.ledger, s.commits[k].expireOperationId;
    SnapshotClaims(s);
    ClaimsOnMembers(l.claimRequests, l.claimResults, operation);
    ClaimsOnOperation(l.claimRequests, l.claimResults, operation);
    var claims := ClaimsOn(l.claimRequests, l.claimResults, operation);
    if claims != [] {
      assert claims[0] in claims;
    }
    forall i | 0 <= i < |s.commits| && s.commits[i].expireOperationId == operation ensures i == k {
      OnlyCommitOf(s, k, i);
    }
  }

  lemma EvaluateFreshClaim(q: ClaimRequest, s: Snapshot, ctx: Context, leaseUntil: int, ledger: Result<Ledger, Failure>)
    requires |s.ledger.claimRequests| == |s.ledger.claimResults|
    requires ctx.now < leaseUntil && ClaimedCommit(q, s, ctx).Ok?
    requires VacantAuthority(s.ledger, q.expireOperationId, ctx.now).Ok?
    requires var c := ClaimCandidate(q, s.ledger, ctx, leaseUntil);
      && ValidCandidate(c)
      && ValidClaimResultFor(ClaimResultFor(q, c), q)
      && ledger == RecordClaim(s.ledger, q, ClaimResultFor(q, c))
    ensures var c := ClaimCandidate(q, s.ledger, ctx, leaseUntil);
      FreshClaim(q, s, ctx, leaseUntil)
      == if ledger.Err? then Err(ledger.error)
         else if ValidSnapshot(s.(ledger := ledger.value)) then
           Ok((s.(ledger := ledger.value), ClaimResultFor(q, c)))
         else Err(Rejected(ClosingSnapshot))
  {
    hide ValidSnapshot, RecordClaim, ClaimedCommit, VacantAuthority, ValidCandidate, ValidClaimResultFor;
  }

  lemma EvaluateUnguarded(q: ClaimRequest, s: Snapshot, ctx: Context, leaseUntil: int)
    requires |s.ledger.claimRequests| == |s.ledger.claimResults|
    requires var commit, vacant := ClaimedCommit(q, s, ctx), VacantAuthority(s.ledger, q.expireOperationId, ctx.now);
      || leaseUntil <= ctx.now
      || (commit.Err? && commit.error.Refused?)
      || (commit.Ok? && vacant.Err? && vacant.error.Refused?)
      || (commit.Ok? && vacant.Ok? && !ValidCandidate(ClaimCandidate(q, s.ledger, ctx, leaseUntil)))
    ensures var r := FreshClaim(q, s, ctx, leaseUntil); r.Err? && r.error.Refused?
  {
    hide ValidSnapshot, RecordClaim, ClaimedCommit, VacantAuthority, ValidCandidate, ValidClaimResultFor;
  }

  /** The candidate of a claim on a vacant authority may be appended. */
  lemma CandidateIsNext(q: ClaimRequest, s: Snapshot, ctx: Context, leaseUntil: int, k: nat)
    requires ValidSnapshot(s) && ValidClaimRequest(q) && FindClaim(s.ledger, q.replayOperationId).None?
    requires k < |s.commits| && s.commits[k].expireOperationId == q.expireOperationId
    requires ValidCandidate(ClaimCandidate(q, s.ledger, ctx, leaseUntil))
    requires |s.ledger.claimRequests| == |s.ledger.claimResults|
    requires VacantAuthority(s.ledger, q.expireOperationId, ctx.now).Ok?
    ensures var c := ClaimCandidate(q, s.ledger, ctx, leaseUntil);
      IsNextClaim(s.ledger, q, c) && Follows(s.ledger, q, c)
  {
    hide ValidSnapshot, LastRanked, VacantAuthority;
    ClaimResultIsValid(q, ClaimCandidate(q, s.ledger, ctx, leaseUntil));
    VacantOutcome(s, k, ctx.now);
  }

  /** A takeover whose guards pass. */
  lemma GuardedClaimOutcome(q: ClaimRequest, s: Snapshot, ctx: Context, leaseUntil: int, k: nat)
    requires ValidSnapshot(s) && |s.ledger.claimRequests| == |s.ledger.claimResults|
    requires ValidClaimRequest(q) && FindClaim(s.ledger, q.replayOperationId).None?
    requires k < |s.commits| && TakesOver(q, s, ctx, k) && ctx.now < leaseUntil && ClaimedCommit(q, s, ctx).Ok?
    requires VacantAuthority(s.ledger, q.expireOperationId, ctx.now).Ok?
    requires ValidCandidate(ClaimCandidate(q, s.ledger, ctx, leaseUntil))
    ensures var c := ClaimCandidate(q, s.ledger, ctx, leaseUntil);
      FreshClaim(q, s, ctx, leaseUntil)
      == if !Unused(c, s.ledger) then Err(Refused(BearerReused))
         else if !NotAScan(s.ledger, q.replayOperationId) then Err(Rejected(LedgerAfter))
         else if PredatesCommit(s, q.expireOperationId, ctx.now) then Err(Rejected(ClosingSnapshot))
         else Ok((ClaimNext(s, q, c), ClaimResultFor(q, c)))
  {
    hide ValidLedger, FreshClaim, RecordClaim, ClaimedCommit, VacantAuthority, ValidCandidate, ValidClaimResultFor;
    hide Unused, NotAScan, PredatesCommit, AppendClaim, FollowsSomeCommit, IsNextClaim, LastRanked, ValidClaimRequest;
    var c := ClaimCandidate(q, s.ledger, ctx, leaseUntil);
    CandidateIsNext(q, s, ctx, leaseUntil, k);
    IsNextUnfolds(s.ledger, q, c);
    RecordClaimOutcome(s.ledger, q, c);
    EvaluateFreshClaim(q, s, ctx, leaseUntil, RecordClaim(s.ledger, q, ClaimResultFor(q, c)));
    if Unused(c, s.ledger) && NotAScan(s.ledger, q.replayOperationId) {
      AppendedClaimIsValid(s.ledger, q, c);
      ClaimNextIsValid(s, q, c);
      FollowsItsCommit(q, s, ctx, k, c);
      PredatesUnfolds(s, k, ctx.now);
      LastClaimFollows(s, k);
    }
  }

  lemma IsNextUnfolds(l: Ledger, q: ClaimRequest, c: Candidate)
    requires IsNextClaim(l, q, c)
    ensures ValidClaimResultFor(ClaimResultFor(q, c), q)
  {
  }

  /** A claim under a new ID, in any valid snapshot. */
  lemma FreshClaimOutcome(q: ClaimRequest, s: Snapshot, ctx: Context, leaseUntil: int)
    requires ValidSnapshot(s) && |s.ledger.claimRequests| == |s.ledger.claimResults|
    requires ValidClaimRequest(q) && FindClaim(s.ledger, q.replayOperationId).None?
    ensures var c, r := ClaimCandidate(q, s.ledger, ctx, leaseUntil), FreshClaim(q, s, ctx, leaseUntil);
      if ClaimGuards(q, s, ctx, leaseUntil) then
        r == if !NotAScan(s.ledger, q.replayOperationId) then Err(Rejected(LedgerAfter))
             else if PredatesCommit(s, q.expireOperationId, ctx.now) then Err(Rejected(ClosingSnapshot))
             else Ok((ClaimNext(s, q, c), ClaimResultFor(q, c)))
      else r.Err? && r.error.Refused?
  {
    hide ValidSnapshot, FreshClaim, ClaimedCommit, VacantAuthority, ValidCandidate, NotAScan, PredatesCommit, ClaimNext;
    hide Unused, ValidClaimRequest;
    ClaimedCommitOutcome(q, s, ctx);
    var c := ClaimCandidate(q, s.ledger, ctx, leaseUntil);
    if ClaimedCommit(q, s, ctx).Ok? {
      var k :| 0 <= k < |s.commits| && s.commits[k] == ClaimedCommit(q, s, ctx).value && TakesOver(q, s, ctx, k);
      VacantOutcome(s, k, ctx.now);
      if ctx.now < leaseUntil && VacantAuthority(s.ledger, q.expireOperationId, ctx.now).Ok? && ValidCandidate(c) {
        GuardedClaimOutcome(q, s, ctx, leaseUntil, k);
      } else {
        EvaluateUnguarded(q, s, ctx, leaseUntil);
      }
    } else {
      EvaluateUnguarded(q, s, ctx, leaseUntil);
    }
  }

  ghost predicate ClaimAdmitted(q: ClaimRequest, ctx: Context, leaseUntil: int) {
    ValidClaimRequest(q) && ValidContext(ctx) && SafeInteger(0, leaseUntil) && OnReaperChannel(ctx)
  }

  /** Every guard of a claim under a new ID passes. */
  ghost predicate ClaimPassesGuards(q: ClaimRequest, s: Snapshot, ctx: Context, leaseUntil: int) {
    && |s.ledger.claimRequests| == |s.ledger.claimResults|
    && ClaimAdmitted(q, ctx, leaseUntil)
    && FindClaim(s.ledger, q.replayOperationId).None?
    && ClaimGuards(q, s, ctx, leaseUntil)
  }

  lemma ClaimReduces(q: ClaimRequest, s: Snapshot, ctx: Context, leaseUntil: int)
    requires ValidSnapshot(s)
    ensures |s.ledger.claimRequests| == |s.ledger.claimResults|
    ensures var r := ApplyClaim(q, s, ctx, leaseUntil);
      && (!ClaimAdmitted(q, ctx, leaseUntil) ==> r.Err? && r.error.Refused?)
      && (ClaimAdmitted(q, ctx, leaseUntil) ==>
            match FindClaim(s.ledger, q.replayOperationId)
            case Some(i) => r == StoredClaim(q, s, ctx, i)
            case None => r == FreshClaim(q, s, ctx, leaseUntil))
  {
    hide ValidClaimRequest, StoredClaim, FreshClaim;
  }

  lemma AdmittedIsValid(q: ClaimRequest, ctx: Context, leaseUntil: int)
    ensures ClaimAdmitted(q, ctx, leaseUntil) ==> ValidClaimRequest(q)
  {
  }

  /** REPLAY_CLAIM of any valid snapshot. */
  lemma ClaimOutcome(q: ClaimRequest, s: Snapshot, ctx: Context, leaseUntil: int)
    requires ValidSnapshot(s)
    ensures var c, r := ClaimCandidate(q, s.ledger, ctx, leaseUntil), ApplyClaim(q, s, ctx, leaseUntil);
      if ClaimPassesGuards(q, s, ctx, leaseUntil) then
        r == if !NotAScan(s.ledger, q.replayOperationId) then Err(Rejected(LedgerAfter))
             else if PredatesCommit(s, q.expireOperationId, ctx.now) then Err(Rejected(ClosingSnapshot))
             else Ok((ClaimNext(s, q, c), ClaimResultFor(q, c)))
      else (r.Err? ==> r.error.Refused?) && (r.Ok? ==> FindClaim(s.ledger, q.replayOperationId).Some?)
  {
    hide ValidSnapshot, ApplyClaim, FreshClaim, ClaimAdmitted, ClaimGuards, NotAScan, PredatesCommit, ClaimNext;
    ClaimReduces(q, s, ctx, leaseUntil);
    AdmittedIsValid(q, ctx, leaseUntil);
    if ClaimAdmitted(q, ctx, leaseUntil) && FindClaim(s.ledger, q.replayOperationId).None? {
      FreshClaimOutcome(q, s, ctx, leaseUntil);
    }
  }
}
