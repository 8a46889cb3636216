/** REPLAY_CLAIM in runs: what its guards come to, and that it keeps the invariant. */
module HoldClaim {
  import opened Wrappers
  import opened Text
  import opened HoldModel
  import opened HoldTransitions
  import opened HoldFacts
  import opened HoldInvariant
  import opened HoldExactClaim
  import opened HoldScan

  /******* Lookups in a committed snapshot *******/

  lemma CommitLookup(s: Snapshot, operation: Digest)
    requires Closed(s)
    ensures FindCommit(s, operation) == if operation == s.commits[0].expireOperationId then Some(0) else None
    ensures FindTombstone(s.ledger, operation)
         == if operation == s.commits[0].expireOperationId then Some(|s.ledger.scanRequests| - 1) else None
  {
    assert ConsumedBy(Tombstone(s.ledger), s.commits[0].expireOperationId);
  }

  lemma OpenLookup(s: Snapshot, operation: Digest)
    requires Open(s)
    ensures FindCommit(s, operation) == None && FindTombstone(s.ledger, operation) == None
  {
  }

  /** The tombstone's due tuple is the one that the committed operation was computed from. */
  lemma CommittedDue(s: Snapshot)
    requires Closed(s)
    ensures s.commits[0].expireOperationId == ExpireOperation(Tombstone(s.ledger).candidate.due)
    ensures s.commits[0].result.artifactId == Tombstone(s.ledger).candidate.due.artifactId
    ensures s.commits[0].result.holdId == Tombstone(s.ledger).candidate.due.holdId
    ensures s.commits[0].expectedHoldDigest == Tombstone(s.ledger).candidate.due.holdDigest
    ensures s.commits[0].previousVersion == Tombstone(s.ledger).candidate.due.version
    ensures s.commits[0].principal == Tombstone(s.ledger).candidate.ownerPrincipal
  {
  }

  ghost function NewestClaim(l: Ledger): Option<Claim>
    requires |l.claimRequests| == |l.claimResults|
  {
    var n := |l.claimRequests|;
    if n == 0 then None else Some(ClaimAt(l, n - 1))
  }

  /** All claims of a committed snapshot are on its one operation. */
  lemma ClaimsShareOperation(s: Snapshot)
    requires Closed(s)
    ensures forall j | 0 <= j < |s.ledger.claimRequests| ::
              s.ledger.claimRequests[j].expireOperationId == s.commits[0].expireOperationId
  {
  }

  lemma CurrentClaimIsNewest(s: Snapshot)
    requires LedgerInv(s.ledger) && Closed(s)
    ensures CurrentClaim(s.ledger, s.commits[0].expireOperationId) == Ok(NewestClaim(s.ledger))
  {
    ClaimsShareOperation(s);
    NewestIsLastRanked(s.ledger, s.commits[0].expireOperationId);
    LedgerIsValid(s.ledger);
    CurrentClaimIsLast(s.ledger, s.commits[0].expireOperationId);
  }

  lemma NewestIsLastRanked(l: Ledger, operation: Digest)
    requires Entries(l) && Claims(l)
    requires forall j | 0 <= j < |l.claimRequests| :: l.claimRequests[j].expireOperationId == operation
    ensures LastRanked(l, operation) == NewestClaim(l)
  {
    ClaimFences(l);
    FencedAreRanked(l, operation);
  }

  /******* One more claim *******/

  lemma AppendClaimKeepsScans(l: Ledger, q: ClaimRequest, c: Candidate)
    requires Scans(l)
    ensures Scans(AppendClaim(l, q, c))
  {
    var l' := AppendClaim(l, q, c);
    forall i | 0 <= i < |l'.scanRequests| ensures ScanSlot(l', i) {
      var slot := ScanSlot(l, i);
    }
  }

  lemma AppendClaimKeepsSlot(l: Ledger, q: ClaimRequest, c: Candidate, j: nat)
    requires Claims(l) && j < |l.claimRequests|
    ensures ClaimSlot(AppendClaim(l, q, c), j)
  {
    var slot := ClaimSlot(l, j);
  }

  lemma AppendClaimAddsSlot(l: Ledger, q: ClaimRequest, c: Candidate)
    requires |l.claimRequests| == |l.claimResults| && |l.entries| == |l.scanRequests| + |l.claimRequests|
    requires ValidClaimResultFor(ClaimResultFor(q, c), q)
    ensures ClaimSlot(AppendClaim(l, q, c), |l.claimRequests|)
  {
  }

  lemma AppendClaimKeepsSlots(l: Ledger, q: ClaimRequest, c: Candidate)
    requires Claims(l) && ValidClaimResultFor(ClaimResultFor(q, c), q)
    ensures var l' := AppendClaim(l, q, c);
      forall j | 0 <= j < |l'.claimRequests| :: ClaimSlot(l', j)
  {
    var l' := AppendClaim(l, q, c);
    forall j | 0 <= j < |l'.claimRequests| ensures ClaimSlot(l', j) {
      if j < |l.claimRequests| {
        AppendClaimKeepsSlot(l, q, c, j);
      } else {
        AppendClaimAddsSlot(l, q, c);
      }
    }
  }

  lemma AppendClaimKeepsIds(l: Ledger, q: ClaimRequest, c: Candidate)
    requires Claims(l) && FindClaim(l, q.replayOperationId).None? && NotAScan(l, q.replayOperationId)
    ensures var l' := AppendClaim(l, q, c);
      && (forall i, j | 0 <= i < j < |l'.claimRequests| ::
            l'.claimRequests[i].replayOperationId != l'.claimRequests[j].replayOperationId)
      && (forall i, j | 0 <= i < |l'.scanRequests| && 0 <= j < |l'.claimRequests| ::
            l'.scanRequests[i].scanOperationId != l'.claimRequests[j].replayOperationId)
  {
  }

  lemma AppendClaimKeepsOrder(l: Ledger, q: ClaimRequest, c: Candidate)
    requires Claims(l)
    requires l.claimRequests != [] ==>
               && q.expireOperationId == l.claimRequests[0].expireOperationId
               && NewestClaim(l).value.result.candidate.leaseUntil <= c.issuedAt
    ensures var l' := AppendClaim(l, q, c);
      && (forall j | 0 <= j < |l'.claimRequests| ::
            l'.claimRequests[j].expireOperationId == l'.claimRequests[0].expireOperationId)
      && (forall i, j | 0 <= i < j < |l'.claimResults| && j == i + 1 ::
            l'.claimResults[i].candidate.leaseUntil <= l'.claimResults[j].candidate.issuedAt)
  {
  }

  lemma NextRevisionCounts(l: Ledger, operation: Digest)
    requires |l.claimRequests| == |l.claimResults| && l.pointers == CurrentPointers(l)
    requires forall j | 0 <= j < |l.claimRequests| :: l.claimRequests[j].expireOperationId == operation
    ensures NextRevision(l, operation) == |l.claimRequests| + 1
    ensures forall p: Pointer | p.expireOperationId == operation :: WithPointer(l, p) == [p]
  {
    if l.claimRequests != [] {
      assert l.pointers[0].expireOperationId == operation;
      assert FindPointer(l, operation) == Some(0);
    }
  }

  lemma AppendClaimKeepsPointers(l: Ledger, q: ClaimRequest, c: Candidate)
    requires Claims(l)
    requires forall j | 0 <= j < |l.claimRequests| :: l.claimRequests[j].expireOperationId == q.expireOperationId
    ensures AppendClaim(l, q, c).pointers == CurrentPointers(AppendClaim(l, q, c))
  {
    NextRevisionCounts(l, q.expireOperationId);
  }

  lemma AppendClaimKeepsClaims(l: Ledger, q: ClaimRequest, c: Candidate)
    requires Claims(l) && IsNextClaim(l, q, c) && NotAScan(l, q.replayOperationId)
    requires forall j | 0 <= j < |l.claimRequests| :: l.claimRequests[j].expireOperationId == q.expireOperationId
    requires l.claimRequests != [] ==> NewestClaim(l).value.result.candidate.leaseUntil <= c.issuedAt
    ensures Claims(AppendClaim(l, q, c))
  {
    AppendClaimKeepsIds(l, q, c);
    AppendClaimKeepsSlots(l, q, c);
    AppendClaimKeepsOrder(l, q, c);
    AppendClaimKeepsPointers(l, q, c);
  }

  lemma AppendClaimKeepsLedger(l: Ledger, q: ClaimRequest, c: Candidate)
    requires LedgerInv(l) && IsNextClaim(l, q, c) && Unused(c, l) && NotAScan(l, q.replayOperationId)
    requires forall j | 0 <= j < |l.claimRequests| :: l.claimRequests[j].expireOperationId == q.expireOperationId
    requires l.claimRequests != [] ==> NewestClaim(l).value.result.candidate.leaseUntil <= c.issuedAt
    ensures LedgerInv(AppendClaim(l, q, c))
  {
    AppendKeepsEntries(l, AppendClaim(l, q, c), c);
    AppendClaimKeepsScans(l, q, c);
    AppendClaimKeepsClaims(l, q, c);
  }

  /******* The transition *******/

  /** The takeover names the commit of this snapshot and comes from its reaper principal. */
  ghost predicate NamesCommit(q: ClaimRequest, s: Snapshot, ctx: Context) {
    && Closed(s)
    && q.expireOperationId == s.commits[0].expireOperationId
    && q.baseCommitDigest == OfCommit(s.commits[0])
    && ctx.principal == s.commits[0].principal
  }

  /** No claim is live at `now`: the last lease, if any, has run out. */
  ghost predicate Vacant(l: Ledger, now: int)
    requires |l.claimRequests| == |l.claimResults|
  {
    NewestClaim(l).Some? ==> NewestClaim(l).value.result.candidate.leaseUntil <= now
  }

  /** Everything that the guards of a new claim ask for, read off a snapshot of a run. */
  ghost predicate TakeoverGuards(q: ClaimRequest, s: Snapshot, ctx: Context, leaseUntil: int) {
    && ctx.now < leaseUntil
    && NamesCommit(q, s, ctx)
    && Vacant(s.ledger, ctx.now)
    && ValidCandidate(ClaimCandidate(q, s.ledger, ctx, leaseUntil))
    && Unused(ClaimCandidate(q, s.ledger, ctx, leaseUntil), s.ledger)
  }

  lemma NamedCommit(q: ClaimRequest, s: Snapshot, ctx: Context)
    requires Open(s) || Closed(s)
    requires ValidClaimRequest(q)
    ensures NamesCommit(q, s, ctx) <==> ClaimedCommit(q, s, ctx).Ok?
  {
    hide CommitMatchesEntry, ValidDue, EventOf;
    if Open(s) {
      OpenLookup(s, q.expireOperationId);
    } else {
      CommitLookup(s, q.expireOperationId);
      CommittedDue(s);
    }
  }

  lemma NewestClaimIsValid(l: Ledger)
    requires Claims(l) && l.claimRequests != []
    ensures ValidCandidate(NewestClaim(l).value.result.candidate)
  {
    var slot := ClaimSlot(l, |l.claimRequests| - 1);
  }

  lemma VacantCommit(s: Snapshot, now: int)
    requires SnapshotInv(s) && Closed(s)
    ensures VacantAuthority(s.ledger, s.commits[0].expireOperationId, now).Ok? <==> Vacant(s.ledger, now)
  {
    ClaimsShareOperation(s);
    NewestIsLastRanked(s.ledger, s.commits[0].expireOperationId);
    InvariantImpliesValid(s);
    VacantOutcome(s, 0, now);
  }

  /** In runs the guards of a new claim come to these conditions. */
  lemma GuardsOfTakeover(q: ClaimRequest, s: Snapshot, ctx: Context, leaseUntil: int)
    requires SnapshotInv(s) && ValidClaimRequest(q)
    ensures |s.ledger.claimRequests| == |s.ledger.claimResults|
    ensures ClaimGuards(q, s, ctx, leaseUntil) <==> TakeoverGuards(q, s, ctx, leaseUntil)
  {
    hide VacantAuthority, ValidCandidate, Unused, ClaimedCommit, ValidClaimRequest, ValidHold;
    NamedCommit(q, s, ctx);
    if NamesCommit(q, s, ctx) {
      VacantCommit(s, ctx.now);
    }
  }

  /** A claim of a run is inconsistent if its ID is a scan's, or if it is the first and predates the commit. */
  lemma ClaimConsistency(q: ClaimRequest, s: Snapshot, ctx: Context)
    requires SnapshotInv(s) && NamesCommit(q, s, ctx)
    ensures PredatesCommit(s, q.expireOperationId, ctx.now)
       <==> s.ledger.claimRequests == [] && ctx.now < s.commits[0].committedAt
  {
    hide ValidHold, LedgerInv;
    ClaimsShareOperation(s);
    assert s.commits[0].expireOperationId == q.expireOperationId;
    if s.ledger.claimRequests != [] {
      assert s.ledger.claimRequests[0].expireOperationId == q.expireOperationId;
    }
  }

  /** What the guards do not ask for, but the validators do. */
  ghost predicate ClaimIsConsistent(q: ClaimRequest, s: Snapshot, ctx: Context)
    requires |s.commits| == 1
  {
    && NotAScan(s.ledger, q.replayOperationId)
    && (s.ledger.claimRequests == [] ==> s.commits[0].committedAt <= ctx.now)
  }

  lemma FollowsCommit(q: ClaimRequest, s: Snapshot, ctx: Context, leaseUntil: int)
    requires NamesCommit(q, s, ctx) && ValidClaimRequest(q) && LedgerInv(s.ledger)
    requires var n := NewestClaim(s.ledger);
      if n.Some? then s.commits[0].committedAt <= n.value.result.candidate.issuedAt < ctx.now
      else s.commits[0].committedAt <= ctx.now
    ensures var c := ClaimCandidate(q, s.ledger, ctx, leaseUntil);
      ClaimFollowsCommit(q, ClaimResultFor(q, c), s.commits[0], s.hold)
  {
    CommittedDue(s);
    assert Tombstone(s.ledger).candidate.fence <= s.ledger.highWater;
  }

  lemma NewestFollowsCommit(s: Snapshot)
    requires Claims(s.ledger) && Closed(s) && s.ledger.claimRequests != []
    ensures var c := NewestClaim(s.ledger).value.result.candidate;
      s.commits[0].committedAt <= c.issuedAt < c.leaseUntil
  {
    NewestClaimIsValid(s.ledger);
    var j := |s.ledger.claimRequests| - 1;
    var follows := ClaimFollowsCommit(s.ledger.claimRequests[j], s.ledger.claimResults[j], s.commits[0], s.hold);
  }

  lemma ClaimNextIsClosed(s: Snapshot, q: ClaimRequest, c: Candidate)
    requires LedgerInv(s.ledger) && Closed(s) && q.expireOperationId == s.commits[0].expireOperationId
    requires ClaimFollowsCommit(q, ClaimResultFor(q, c), s.commits[0], s.hold)
    ensures Closed(ClaimNext(s, q, c))
  {
    var s' := ClaimNext(s, q, c);
    assert Tombstone(s'.ledger) == Tombstone(s.ledger);
  }

  lemma ClaimKeepsInvariant(q: ClaimRequest, s: Snapshot, ctx: Context, leaseUntil: int)
    requires SnapshotInv(s) && ValidClaimRequest(q) && FindClaim(s.ledger, q.replayOperationId).None?
    requires TakeoverGuards(q, s, ctx, leaseUntil) && ClaimIsConsistent(q, s, ctx)
    ensures SnapshotInv(ClaimNext(s, q, ClaimCandidate(q, s.ledger, ctx, leaseUntil)))
  {
    var c := ClaimCandidate(q, s.ledger, ctx, leaseUntil);
    ClaimResultIsValid(q, c);
    ClaimsShareOperation(s);
    AppendClaimKeepsLedger(s.ledger, q, c);
    if s.ledger.claimRequests != [] {
      NewestFollowsCommit(s);
    }
    FollowsCommit(q, s, ctx, leaseUntil);
    ClaimNextIsClosed(s, q, c);
  }
}
