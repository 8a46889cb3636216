/** The terms of each transition, field by field: what a caller must bring to any snapshot that
    `validate` accepts, and every record that is written in return. */
module HoldTerms {
  import opened Wrappers
  import opened Text
  import opened HoldModel
  import opened HoldTransitions
  import opened HoldFacts
  import opened HoldExactScan
  import opened HoldExactExpire
  import opened HoldExactClaim
  import Sorting

  /** Integers up to 2^53 - 1 survive every JSON reader. */
  ghost predicate IsExact(n: int) {
    0 <= n <= 9_007_199_254_740_991
  }

  /** The caller is a reaper, on the expiry subject. */
  ghost predicate FromReaper(ctx: Context) {
    && IsExact(ctx.now) && Stable(ctx.principal) && Stable(ctx.instance)
    && ctx.component == "artifact-hold-reaper" && ctx.subject == "a2a.v1.state.artifact.hold.expire"
  }

  lemma ChannelIsStable()
    ensures Stable("component:artifact-hold-reaper")
    ensures Stable("artifact-hold-reaper") && Stable("a2a.v1.state.artifact.hold.expire")
  {
  }

  lemma FromReaperExactly(ctx: Context)
    ensures FromReaper(ctx) <==> ValidContext(ctx) && OnReaperChannel(ctx)
  {
    ChannelIsStable();
  }

  /** Nobody has used this bearer, as a lease ID or as a token. */
  ghost predicate IsNewBearer(l: Ledger, bearer: Token) {
    forall e | 0 <= e < |l.entries| :: l.entries[e].candidate.leaseId != bearer && l.entries[e].candidate.token != bearer
  }

  lemma NewBearersAreUnused(l: Ledger, c: Candidate)
    ensures IsNewBearer(l, c.leaseId) && IsNewBearer(l, c.token) <==> Unused(c, l)
  {
    if Unused(c, l) {
      forall e | 0 <= e < |l.entries|
        ensures l.entries[e].candidate.leaseId != c.leaseId && l.entries[e].candidate.token != c.leaseId
        ensures l.entries[e].candidate.leaseId != c.token && l.entries[e].candidate.token != c.token
      {
        assert !SharesBearer(c, l.entries[e].candidate);
      }
    }
  }

  /******* SCAN *******/

  ghost predicate ScanTerms(q: ScanRequest, s: Snapshot, ctx: Context, leaseId: Token, token: Token) {
    var id, h, l := q.scanOperationId, s.hold, s.ledger;
    && FromReaper(ctx) && ctx.principal == "component:artifact-hold-reaper"
    && q == ScanRequest(id, q.maxCandidates, id, OfScanRequest(id, q.maxCandidates, id)) && 1 <= q.maxCandidates <= 100
    && h.status == ACTIVE && h.expires.Some? && h.expires.value <= ctx.now
    && IsExact(ctx.now + 300_000) && IsExact(l.highWater + 1)
    && IsNewBearer(l, leaseId) && IsNewBearer(l, token)
  }

  /** The high-water is the fence of the last entry, or 0 before any. */
  ghost predicate StandsAtLastFence(l: Ledger) {
    if l.entries == [] then l.highWater == 0 else l.highWater == l.entries[|l.entries| - 1].candidate.fence
  }

  lemma IssuedIsValid(q: ScanRequest, s: Snapshot, ctx: Context, leaseId: Token, token: Token)
    requires ValidHold(s.hold) && s.hold.expires.Some? && ValidContext(ctx) && SafeInteger(0, s.ledger.highWater)
    requires leaseId != token
    ensures ValidCandidate(IssueCandidate(q, s, ctx, leaseId, token))
       <==> IsExact(ctx.now + 300_000) && IsExact(s.ledger.highWater + 1)
  {
    hide Stable;
  }

  lemma ScanTermsExactly(q: ScanRequest, s: Snapshot, ctx: Context, leaseId: Token, token: Token)
    requires ValidSnapshot(s) && leaseId != token
    requires forall i | 0 <= i < |s.ledger.scanRequests| :: s.ledger.scanRequests[i].scanOperationId != q.scanOperationId
    ensures ScanTerms(q, s, ctx, leaseId, token) <==> ScanPassesGuards(q, s, ctx, leaseId, token)
  {
    hide ValidSnapshot, ValidCandidate, Unused, FromReaper, Stable, ValidContext, OnReaperChannel, IsNewBearer;
    FromReaperExactly(ctx);
    SnapshotParts(s);
    assert FindScan(s.ledger, q.scanOperationId).None?;
    if s.hold.expires.Some? {
      if ValidContext(ctx) {
        IssuedIsValid(q, s, ctx, leaseId, token);
      }
      NewBearersAreUnused(s.ledger, IssueCandidate(q, s, ctx, leaseId, token));
    }
  }

  lemma SnapshotParts(s: Snapshot)
    requires ValidSnapshot(s)
    ensures ValidHold(s.hold) && SafeInteger(0, s.ledger.highWater) && ValidEntries(s.ledger)
  {
  }

  /** A scan under a new ID is answered exactly on these terms, if the high-water is the last fence; if it
      is not, the terms lead to a rejection. */
  lemma ScanAcceptsExactly(q: ScanRequest, s: Snapshot, ctx: Context, leaseId: Token, token: Token)
    requires ValidSnapshot(s) && leaseId != token
    requires forall i | 0 <= i < |s.ledger.scanRequests| :: s.ledger.scanRequests[i].scanOperationId != q.scanOperationId
    ensures var r := ApplyScan(q, s, ctx, leaseId, token);
      && (r.Ok? <==> ScanTerms(q, s, ctx, leaseId, token) && StandsAtLastFence(s.ledger))
      && (r.Err? && r.error.Rejected? <==> ScanTerms(q, s, ctx, leaseId, token) && !StandsAtLastFence(s.ledger))
  {
    hide ValidSnapshot, ApplyScan, ScanPassesGuards, ScanTerms, ScanNext;
    ScanTermsExactly(q, s, ctx, leaseId, token);
    ScanOutcome(q, s, ctx, leaseId, token);
    assert FindScan(s.ledger, q.scanOperationId).None?;
  }

  /** The candidate that is issued, the records about it, and nothing else. */
  ghost predicate ScanWrites(q: ScanRequest, s: Snapshot, ctx: Context, leaseId: Token, token: Token, s': Snapshot, result: ScanResult)
  {
    var h, l, id, now := s.hold, s.ledger, q.scanOperationId, ctx.now;
    && h.expires.Some?
    && var c := Candidate(id, leaseId, l.highWater + 1, token, ctx.principal, ctx.instance, now, now + 300_000,
                          Due(h.artifactId, h.holdId, h.holdDigest, h.version, h.expires.value));
    && result == ScanResult(id, q.requestDigest, [c])
    && s'.hold == Hold(h.artifactId, h.version, h.lifecycle, h.holdId, h.holdDigest, h.status, h.expires, h.activeHoldIds,
                       h.refCount, h.minimumDeleteAt, h.dueIndexed, h.dueScore, Some(c))
    && s'.ledger == Ledger(l.highWater + 1, l.scanRequests + [q], l.scanResults + [result], l.entries + [Entry(c, None)],
                           l.claimRequests, l.claimResults, l.pointers,
                           l.seals + [Seal(id, leaseId, token, OfCandidate(c), OfScanResult(result), ctx.principal,
                                           ctx.instance, l.highWater + 1, now, now + 300_000)],
                           l.allocations + [Allocation(q, c, l.highWater)])
    && s'.commits == s.commits && s'.audit == s.audit && s'.outbox == s.outbox
  }

  lemma ScanWritesExactly(q: ScanRequest, s: Snapshot, ctx: Context, leaseId: Token, token: Token)
    requires ValidSnapshot(s) && leaseId != token
    requires forall i | 0 <= i < |s.ledger.scanRequests| :: s.ledger.scanRequests[i].scanOperationId != q.scanOperationId
    requires ApplyScan(q, s, ctx, leaseId, token).Ok?
    ensures var (s', result) := ApplyScan(q, s, ctx, leaseId, token).value;
      ScanWrites(q, s, ctx, leaseId, token, s', result)
  {
    hide ValidSnapshot, ApplyScan, ScanAdmitted, ScanRefusal;
    ScanOutcome(q, s, ctx, leaseId, token);
    assert FindScan(s.ledger, q.scanOperationId).None?;
  }

  /** A scan under a stored ID repeats the stored answer, for the same request from the owner of all its
      candidates, and changes nothing. */
  lemma ScanRepeats(q: ScanRequest, s: Snapshot, ctx: Context, leaseId: Token, token: Token, i: nat)
    requires ValidSnapshot(s) && leaseId != token
    requires i < |s.ledger.scanRequests| == |s.ledger.scanResults|
    requires s.ledger.scanRequests[i].scanOperationId == q.scanOperationId
    ensures var r, stored := ApplyScan(q, s, ctx, leaseId, token), s.ledger.scanResults[i];
      if FromReaper(ctx) && ctx.principal == "component:artifact-hold-reaper" && s.ledger.scanRequests[i] == q
         && forall k | 0 <= k < |stored.candidates| ::
              stored.candidates[k].ownerPrincipal == ctx.principal && stored.candidates[k].ownerInstance == ctx.instance
      then r == Ok((s, stored)) else r.Err? && r.error.Refused?
  {
    hide ValidSnapshot, ApplyScan, FreshScan, ValidScanRequest, FromReaper, ValidContext, OnReaperChannel;
    ScanReduces(q, s, ctx, leaseId, token);
    FromReaperExactly(ctx);
    StoredScanRequest(s, i);
    var found := FindScan(s.ledger, q.scanOperationId);
    assert found.Some?;
    DistinctScans(s, found.value, i);
  }

  lemma StoredScanRequest(s: Snapshot, i: nat)
    requires ValidSnapshot(s) && i < |s.ledger.scanRequests|
    ensures ValidScanRequest(s.ledger.scanRequests[i])
  {
  }

  lemma DistinctScans(s: Snapshot, i: nat, j: nat)
    requires ValidSnapshot(s) && i < |s.ledger.scanRequests| && j < |s.ledger.scanRequests|
    requires s.ledger.scanRequests[i].scanOperationId == s.ledger.scanRequests[j].scanOperationId
    ensures i == j
  {
  }

  /******* EXPIRE *******/

  /** The request that names this candidate, component by component. */
  ghost predicate RequestsExpiry(r: ExpireRequest, c: Candidate) {
    && r.due == c.due && r.scanOperationId == c.scanOperationId && r.leaseId == c.leaseId && r.fence == c.fence
    && r.token == c.token
    && r.expireOperationId == ExpireOperation(c.due) && r.idempotencyKey == ExpireOperation(c.due)
    && r.requestDigest == OfExpireRequest(ExpireOperation(c.due), c.due, ExpireOperation(c.due))
  }

  lemma RequestExactly(r: ExpireRequest, c: Candidate)
    requires ValidCandidate(c)
    ensures RequestsExpiry(r, c) <==> ValidExpireRequest(r) && Binds(r, c)
  {
  }

  ghost predicate ExpireTerms(r: ExpireRequest, s: Snapshot, ctx: Context, fence: int) {
    && FromReaper(ctx)
    && s.hold.candidate.Some?
    && var h, c := s.hold, s.hold.candidate.value;
    && RequestsExpiry(r, c)
    && ctx.principal == c.ownerPrincipal && ctx.instance == c.ownerInstance && fence == c.fence
    && c.issuedAt <= ctx.now < c.leaseUntil && c.due.expiresMs <= ctx.now
    && h.lifecycle != DELETING && h.lifecycle != DELETED
    && IsExact(h.version + 1) && IsExact(|h.activeHoldIds| - 1)
  }

  /** A scan candidate of the same hold is unconsumed and has a later fence. */
  ghost predicate HasNewer(s: Snapshot, c: Candidate) {
    exists i | 0 <= i < |s.ledger.entries| ::
      var e := s.ledger.entries[i];
      && e.consumed.None? && c.fence < e.candidate.fence
      && (forall j | 0 <= j < |s.ledger.claimResults| :: s.ledger.claimResults[j].candidate != e.candidate)
      && e.candidate.due.artifactId == c.due.artifactId && e.candidate.due.holdId == c.due.holdId
      && e.candidate.due.holdDigest == c.due.holdDigest && e.candidate.due.expiresMs == c.due.expiresMs
  }

  lemma NewerExactly(s: Snapshot, c: Candidate)
    ensures HasNewer(s, c) <==> !NothingNewer(Entry(c, None), s.ledger)
  {
    forall i | 0 <= i < |s.ledger.entries|
      ensures IsReplayCandidate(s.ledger.entries[i].candidate, s.ledger.claimResults)
         <==> !forall j | 0 <= j < |s.ledger.claimResults| :: s.ledger.claimResults[j].candidate != s.ledger.entries[i].candidate
    {
    }
  }

  lemma ExpireTermsExactly(r: ExpireRequest, s: Snapshot, ctx: Context, fence: int)
    requires ValidSnapshot(s)
    requires forall i | 0 <= i < |s.commits| :: s.commits[i].expireOperationId != r.expireOperationId
    ensures ExpireTerms(r, s, ctx, fence) <==> ExpirePassesGuards(r, s, ctx, fence)
  {
    hide ValidSnapshot, FromReaper, ValidContext, OnReaperChannel, RequestsExpiry, ValidExpireRequest, Binds, ValidCandidate;
    FromReaperExactly(ctx);
    SnapshotParts(s);
    assert FindCommit(s, r.expireOperationId).None?;
    if s.hold.candidate.Some? {
      var c := s.hold.candidate.value;
      HoldOfCandidate(s.hold);
      RequestExactly(r, c);
      BoundDue(r, c);
      LeastFence(c);
    }
  }

  /** A hold with a candidate is ACTIVE, in its own active set, indexed, and named by the candidate. */
  lemma HoldOfCandidate(h: Hold)
    requires ValidHold(h) && h.candidate.Some?
    ensures ValidCandidate(h.candidate.value)
    ensures h.status == ACTIVE && h.holdId in h.activeHoldIds && h.dueIndexed && h.dueScore == h.expires
    ensures IsDueOf(h.candidate.value.due, h) && h.expires.Some?
    ensures |h.activeHoldIds - {h.holdId}| == |h.activeHoldIds| - 1
  {
  }

  lemma BoundDue(r: ExpireRequest, c: Candidate)
    ensures Binds(r, c) ==> r.due == c.due
  {
  }

  lemma LeastFence(c: Candidate)
    requires ValidCandidate(c)
    ensures SafeInteger(1, c.fence)
  {
  }

  /** An expiry of an operation that is not committed is accepted exactly on these terms, if no scan of the
      hold is newer; if one is, the terms lead to a rejection. */
  lemma ExpireAcceptsExactly(r: ExpireRequest, s: Snapshot, ctx: Context, fence: int)
    requires ValidSnapshot(s)
    requires forall i | 0 <= i < |s.commits| :: s.commits[i].expireOperationId != r.expireOperationId
    ensures var a := ApplyExpire(r, s, ctx, fence);
      && (a.Ok? <==> ExpireTerms(r, s, ctx, fence) && !HasNewer(s, s.hold.candidate.value))
      && (a.Err? && a.error.Rejected? <==> ExpireTerms(r, s, ctx, fence) && HasNewer(s, s.hold.candidate.value))
  {
    hide ValidSnapshot, ApplyExpire, ExpirePassesGuards, HasNewer, NothingNewer, ExpireNext, FromReaper;
    ExpireTermsExactly(r, s, ctx, fence);
    ExpireOutcome(r, s, ctx, fence);
    assert FindCommit(s, r.expireOperationId).None?;
    if ExpireTerms(r, s, ctx, fence) {
      NewerExactly(s, s.hold.candidate.value);
    }
  }

  /** The artifact stays locked: another hold is active, something refers to it, or it is too early. */
  ghost predicate StaysLocked(h: Hold, now: int) {
    || (exists id :: id in h.activeHoldIds && id != h.holdId)
    || h.refCount >= 1
    || (h.minimumDeleteAt.Some? && h.minimumDeleteAt.value > now)
  }

  /** The expired hold, the answer, the commit, its two events and the tombstone, and nothing else. */
  ghost predicate ExpireWrites(r: ExpireRequest, s: Snapshot, ctx: Context, fence: int, s': Snapshot, result: ExpiryResult) {
    var h, l, l', now := s.hold, s.ledger, s'.ledger, ctx.now;
    && h.candidate.Some?
    && var c, id := h.candidate.value, ExpireOperation(h.candidate.value.due);
    && result == ExpiryResult(id, h.artifactId, h.holdId, r.requestDigest, h.version + 1, result.retentionLocked)
    && (result.retentionLocked <==> StaysLocked(h, now))
    && s'.hold == Hold(h.artifactId, h.version + 1, h.lifecycle, h.holdId, h.holdDigest, EXPIRED, h.expires,
                       h.activeHoldIds - {h.holdId}, h.refCount, h.minimumDeleteAt, false, None, None)
    && var commit := Commit(id, r.requestDigest, h.holdDigest, OfCandidate(c), ctx.principal, fence, h.version,
                            |h.activeHoldIds| - 1, h.refCount, h.minimumDeleteAt, now, result);
    && s'.commits == s.commits + [commit]
    && s'.audit == s.audit + [Event(AUDIT, EventId(AUDIT, id), id, h.artifactId, h.holdId, h.version + 1,
                                    OfExpiryResult(result), OfCommit(commit), now)]
    && s'.outbox == s.outbox + [Event(OUTBOX, EventId(OUTBOX, id), id, h.artifactId, h.holdId, h.version + 1,
                                      OfExpiryResult(result), OfCommit(commit), now)]
    && l' == l.(entries := l'.entries) && |l'.entries| == |l.entries|
    && forall i | 0 <= i < |l.entries| ::
         l'.entries[i] == if l.entries[i].candidate == c then Entry(c, Some(Consumption(id, now))) else l.entries[i]
  }

  lemma SpendMarksOne(s: Snapshot, r: ExpireRequest, now: int)
    requires ValidSnapshot(s) && s.hold.candidate.Some? && r.leaseId == s.hold.candidate.value.leaseId
    ensures var l, l', c := s.ledger, Spend(s.ledger, r, now), s.hold.candidate.value;
      && l' == l.(entries := l'.entries) && |l'.entries| == |l.entries|
      && forall i | 0 <= i < |l.entries| ::
           l'.entries[i] == if l.entries[i].candidate == c then Entry(c, Some(Consumption(r.expireOperationId, now)))
                            else l.entries[i]
  {
    hide ValidSnapshot;
    var k := HoldCandidateEntry(s);
    var l := s.ledger;
    SnapshotParts(s);
    forall i | 0 <= i < |l.entries| && l.entries[i].candidate == l.entries[k].candidate ensures i == k {
      OnlyUnderItsLease(l, i);
      OnlyUnderItsLease(l, k);
    }
  }

  lemma LockedExactly(h: Hold, now: int)
    ensures RetentionLockedAt(Expired(h), now) <==> StaysLocked(h, now)
  {
    if exists id :: id in h.activeHoldIds && id != h.holdId {
      var id :| id in h.activeHoldIds && id != h.holdId;
      assert id in Expired(h).activeHoldIds;
    }
    if Expired(h).activeHoldIds != {} {
      var id :| id in Expired(h).activeHoldIds;
      assert id in h.activeHoldIds && id != h.holdId;
    }
  }

  lemma ExpireNextWrites(r: ExpireRequest, s: Snapshot, ctx: Context, fence: int)
    requires ValidSnapshot(s) && s.hold.candidate.Some?
    requires RequestsExpiry(r, s.hold.candidate.value)
    requires ctx.principal == s.hold.candidate.value.ownerPrincipal && fence == s.hold.candidate.value.fence
    ensures ExpireWrites(r, s, ctx, fence, ExpireNext(s, r, s.hold.candidate.value, ctx.now), ResultFor(r, s.hold, ctx.now))
  {
    hide ValidSnapshot, Spend, StaysLocked, RetentionLockedAt;
    SnapshotParts(s);
    HoldOfCandidate(s.hold);
    LockedExactly(s.hold, ctx.now);
    SpendMarksOne(s, r, ctx.now);
  }

  lemma ExpireWritesExactly(r: ExpireRequest, s: Snapshot, ctx: Context, fence: int)
    requires ValidSnapshot(s)
    requires forall i | 0 <= i < |s.commits| :: s.commits[i].expireOperationId != r.expireOperationId
    requires ApplyExpire(r, s, ctx, fence).Ok?
    ensures var (s', result) := ApplyExpire(r, s, ctx, fence).value;
      ExpireWrites(r, s, ctx, fence, s', result)
  {
    hide ValidSnapshot, ApplyExpire, FromReaper, NothingNewer, HasNewer, ExpireNext, ExpireWrites, ExpirePassesGuards;
    hide RequestsExpiry;
    ExpireTermsExactly(r, s, ctx, fence);
    ExpireAcceptsExactly(r, s, ctx, fence);
    ExpireOutcome(r, s, ctx, fence);
    ExpireNextWrites(r, s, ctx, fence);
  }

  /******* REPLAY_CLAIM *******/

  /** The request to take over commit k, component by component. */
  ghost predicate RequestsTakeover(q: ClaimRequest, commit: Commit) {
    var operation := ExpireOperation(q.due);
    var id := ReplayOperation(operation, q.leaseId);
    && q == ClaimRequest(id, operation, OfCommit(commit), q.due, q.leaseId, q.token, id,
                         OfClaimRequest(id, operation, OfCommit(commit), q.due, q.leaseId, q.token, id))
    && q.leaseId != q.token
  }

  ghost predicate ClaimTerms(q: ClaimRequest, s: Snapshot, ctx: Context, leaseUntil: int, k: int)
    requires |s.ledger.claimRequests| == |s.ledger.claimResults|
  {
    var l := s.ledger;
    && FromReaper(ctx)
    && 0 <= k < |s.commits| && s.commits[k].expireOperationId == ExpireOperation(q.due)
    && RequestsTakeover(q, s.commits[k]) && ctx.principal == s.commits[k].principal
    && q.due.artifactId == s.hold.artifactId && q.due.holdId == s.hold.holdId
    && ctx.now < leaseUntil <= ctx.now + 300_000 && IsExact(leaseUntil) && IsExact(l.highWater + 1)
    && (forall j | 0 <= j < |l.claimRequests| && l.claimRequests[j].expireOperationId == q.expireOperationId ::
          l.claimResults[j].candidate.leaseUntil <= ctx.now)
    && IsNewBearer(l, q.leaseId) && IsNewBearer(l, q.token)
  }

  /** What no guard asks for: the ID is no scan's, and the first claim does not predate its commit. */
  ghost predicate ClaimFits(q: ClaimRequest, s: Snapshot, now: int, k: int)
    requires 0 <= k < |s.commits|
  {
    && (forall i | 0 <= i < |s.ledger.scanRequests| :: s.ledger.scanRequests[i].scanOperationId != q.replayOperationId)
    && (s.commits[k].committedAt <= now
        || exists j | 0 <= j < |s.ledger.claimRequests| :: s.ledger.claimRequests[j].expireOperationId == q.expireOperationId)
  }

  lemma TakeoverRequestExactly(q: ClaimRequest, commit: Commit)
    requires ValidDue(q.due)
    ensures RequestsTakeover(q, commit) <==> ValidClaimRequest(q) && q.baseCommitDigest == OfCommit(commit)
  {
  }

  /** The commit's operation fixes the due tuple of its tombstone, which is valid and repeated in the commit. */
  lemma CommitDue(s: Snapshot, k: nat) returns (e: nat)
    requires ValidSnapshot(s) && k < |s.commits|
    ensures FindTombstone(s.ledger, s.commits[k].expireOperationId) == Some(e) && e < |s.ledger.entries|
    ensures var d, commit := s.ledger.entries[e].candidate.due, s.commits[k];
      && ValidDue(d) && commit.expireOperationId == ExpireOperation(d)
      && commit.result.artifactId == d.artifactId && commit.result.holdId == d.holdId
      && commit.expectedHoldDigest == d.holdDigest && commit.previousVersion == d.version
    ensures Stable(s.commits[k].principal)
    ensures HoldReflects(s.hold, s.commits[k], s.ledger.entries[e].candidate)
  {
    hide ValidHold, ValidLedger, ValidHoldCandidate, ValidClaimEvidence, ValidCommits, ValidEvents, ValidTombstones;
    hide NothingNewer, HoldReflects, RetainedBy, ValidExpiryResult;
    e := CommittedTombstone(s, k);
  }

  /** A hold that a commit names is in the terminal state the commit left. */
  lemma CommittedHold(s: Snapshot, k: nat, d: Due)
    requires ValidSnapshot(s) && k < |s.commits| && s.commits[k].expireOperationId == ExpireOperation(d)
    requires d.artifactId == s.hold.artifactId && d.holdId == s.hold.holdId
    ensures s.hold.status == EXPIRED && s.hold.holdDigest == d.holdDigest && s.hold.expires == Some(d.expiresMs)
    ensures !s.hold.dueIndexed && s.hold.candidate.None? && s.commits[k].result.version <= s.hold.version
  {
    hide ValidSnapshot;
    var e := CommitDue(s, k);
  }

  lemma ClaimedCommitExactly(q: ClaimRequest, s: Snapshot, ctx: Context, k: nat)
    requires ValidSnapshot(s) && ValidClaimRequest(q) && FindCommit(s, q.expireOperationId) == Some(k) && k < |s.commits|
    ensures ClaimedCommit(q, s, ctx).Ok?
       <==> && q.baseCommitDigest == OfCommit(s.commits[k]) && ctx.principal == s.commits[k].principal
            && q.due.artifactId == s.hold.artifactId && q.due.holdId == s.hold.holdId
  {
    hide ValidSnapshot, ValidDue, HoldReflects;
    var e := CommitDue(s, k);
    if q.due.artifactId == s.hold.artifactId && q.due.holdId == s.hold.holdId {
      CommittedHold(s, k, q.due);
    }
  }

  lemma VacantExactly(s: Snapshot, k: nat, now: int)
    requires ValidSnapshot(s) && k < |s.commits| && |s.ledger.claimRequests| == |s.ledger.claimResults|
    ensures var l, operation := s.ledger, s.commits[k].expireOperationId;
      VacantAuthority(l, operation, now).Ok?
      <==> forall j | 0 <= j < |l.claimRequests| && l.claimRequests[j].expireOperationId == operation ::
             l.claimResults[j].candidate.leaseUntil <= now
  {
    hide ValidSnapshot, VacantAuthority, ValidClaims, LastRanked, ValidTakeovers;
    var l, operation := s.ledger, s.commits[k].expireOperationId;
    SnapshotTakeovers(s);
    VacantOutcome(s, k, now);
    forall j | 0 <= j < |l.claimRequests| && l.claimRequests[j].expireOperationId == operation
      ensures LastRanked(l, operation).Some?
      ensures l.claimResults[j].candidate.leaseUntil <= LastRanked(l, operation).value.result.candidate.leaseUntil
    {
      EarlierClaimsEnd(l, operation, j);
    }
    if LastRanked(l, operation).Some? {
      var j := LastIsStored(l, operation);
    }
  }

  lemma SnapshotTakeovers(s: Snapshot)
    requires ValidSnapshot(s)
    ensures ValidClaims(s.ledger) && ValidTakeovers(s.ledger) && |s.ledger.claimRequests| == |s.ledger.claimResults|
  {
  }

  lemma ClaimCandidateExactly(q: ClaimRequest, s: Snapshot, ctx: Context, leaseUntil: int)
    requires ValidClaimRequest(q) && ValidContext(ctx) && SafeInteger(0, s.ledger.highWater) && ctx.now < leaseUntil
    ensures ValidCandidate(ClaimCandidate(q, s.ledger, ctx, leaseUntil))
       <==> leaseUntil <= ctx.now + 300_000 && IsExact(leaseUntil) && IsExact(s.ledger.highWater + 1)
  {
    hide Stable;
  }

  lemma FoundCommit(s: Snapshot, k: nat)
    requires ValidSnapshot(s) && k < |s.commits|
    ensures FindCommit(s, s.commits[k].expireOperationId) == Some(k)
  {
    hide ValidSnapshot;
    var found := FindCommit(s, s.commits[k].expireOperationId);
    assert found.Some?;
    OnlyCommitOf(s, k, found.value);
  }

  /** The guards of a claim on commit k come to its terms. */
  lemma ClaimTermsExactly(q: ClaimRequest, s: Snapshot, ctx: Context, leaseUntil: int, k: nat)
    requires ValidSnapshot(s) && |s.ledger.claimRequests| == |s.ledger.claimResults|
    requires k < |s.commits| && s.commits[k].expireOperationId == q.expireOperationId
    requires forall j | 0 <= j < |s.ledger.claimRequests| :: s.ledger.claimRequests[j].replayOperationId != q.replayOperationId
    ensures ClaimTerms(q, s, ctx, leaseUntil, k) <==> ClaimPassesGuards(q, s, ctx, leaseUntil)
  {
    hide ValidSnapshot, FromReaper, ValidContext, OnReaperChannel, ValidCandidate, Unused, ValidDue, IsNewBearer;
    hide ClaimedCommit, VacantAuthority, RequestsTakeover, ValidClaimRequest, HoldReflects;
    FromReaperExactly(ctx);
    SnapshotParts(s);
    FoundCommit(s, k);
    assert FindClaim(s.ledger, q.replayOperationId).None?;
    var e := CommitDue(s, k);
    RequestsDue(q, s.commits[k]);
    if ExpireOperation(q.due) == q.expireOperationId {
      TakeoverRequestExactly(q, s.commits[k]);
      if ValidClaimRequest(q) {
        ClaimedCommitExactly(q, s, ctx, k);
        VacantExactly(s, k, ctx.now);
        NewBearersAreUnused(s.ledger, ClaimCandidate(q, s.ledger, ctx, leaseUntil));
        if ValidContext(ctx) && ctx.now < leaseUntil {
          ClaimCandidateExactly(q, s, ctx, leaseUntil);
        }
      }
    }
  }

  lemma RequestsDue(q: ClaimRequest, commit: Commit)
    ensures ValidClaimRequest(q) ==> q.expireOperationId == ExpireOperation(q.due)
    ensures RequestsTakeover(q, commit) ==> q.expireOperationId == ExpireOperation(q.due)
  {
  }

  /** Without a commit of its operation no claim passes its guards. */
  lemma UncommittedClaim(q: ClaimRequest, s: Snapshot, ctx: Context, leaseUntil: int)
    requires forall k | 0 <= k < |s.commits| :: s.commits[k].expireOperationId != q.expireOperationId
    ensures !ClaimPassesGuards(q, s, ctx, leaseUntil)
  {
    assert FindCommit(s, q.expireOperationId).None?;
  }

  lemma FitsExactly(q: ClaimRequest, s: Snapshot, now: int, k: nat)
    requires ValidSnapshot(s) && k < |s.commits| && s.commits[k].expireOperationId == q.expireOperationId
    ensures ClaimFits(q, s, now, k)
       <==> NotAScan(s.ledger, q.replayOperationId) && !PredatesCommit(s, q.expireOperationId, now)
  {
    hide ValidSnapshot;
    forall i | 0 <= i < |s.commits| && s.commits[i].expireOperationId == q.expireOperationId ensures i == k {
      OnlyCommitOf(s, k, i);
    }
  }

  /** A claim under a new ID is stored exactly on these terms, if it fits what is stored; if it does not, the
      terms lead to a rejection. */
  lemma ClaimAcceptsExactly(q: ClaimRequest, s: Snapshot, ctx: Context, leaseUntil: int)
    requires ValidSnapshot(s) && |s.ledger.claimRequests| == |s.ledger.claimResults|
    requires forall j | 0 <= j < |s.ledger.claimRequests| :: s.ledger.claimRequests[j].replayOperationId != q.replayOperationId
    ensures var r := ApplyClaim(q, s, ctx, leaseUntil);
      && (r.Ok? <==> exists k :: ClaimTerms(q, s, ctx, leaseUntil, k) && ClaimFits(q, s, ctx.now, k))
      && (r.Err? && r.error.Rejected? <==> exists k :: ClaimTerms(q, s, ctx, leaseUntil, k) && !ClaimFits(q, s, ctx.now, k))
  {
    hide ValidSnapshot, ApplyClaim, ClaimPassesGuards, ClaimFits, NotAScan, PredatesCommit, ClaimNext, FromReaper, IsNewBearer;
    ClaimOutcome(q, s, ctx, leaseUntil);
    assert FindClaim(s.ledger, q.replayOperationId).None?;
    if k :| 0 <= k < |s.commits| && s.commits[k].expireOperationId == q.expireOperationId {
      ClaimTermsExactly(q, s, ctx, leaseUntil, k);
      FitsExactly(q, s, ctx.now, k);
      forall i | 0 <= i < |s.commits| && s.commits[i].expireOperationId == q.expireOperationId ensures i == k {
        OnlyCommitOf(s, k, i);
      }
    } else {
      UncommittedClaim(q, s, ctx, leaseUntil);
    }
  }

  /** The lease that is stored, the records about it, and nothing else. An operation keeps one pointer, which is
      replaced and counts on, and those of other operations stay. */
  ghost predicate ClaimWrites(q: ClaimRequest, s: Snapshot, ctx: Context, leaseUntil: int, s': Snapshot, result: ClaimResult) {
    var l, l', operation, fence := s.ledger, s'.ledger, q.expireOperationId, s.ledger.highWater + 1;
    var c := Candidate(q.replayOperationId, q.leaseId, fence, q.token, ctx.principal, ctx.instance, ctx.now, leaseUntil, q.due);
    && result == ClaimResult(q.replayOperationId, operation, q.baseCommitDigest, q.requestDigest, c)
    && s' == Snapshot(s.hold, l', s.commits, s.audit, s.outbox)
    && l' == Ledger(fence, l.scanRequests, l.scanResults, l.entries + [Entry(c, None)], l.claimRequests + [q],
                    l.claimResults + [result], l'.pointers, l.seals, l.allocations)
    && (exists p | 0 <= p < |l'.pointers| ::
          && l'.pointers[p] == Pointer(operation, q.replayOperationId, q.baseCommitDigest, q.requestDigest, q.leaseId, q.token,
                                       OfCandidate(c), OfClaimResult(result), ctx.principal, ctx.instance, fence, ctx.now,
                                       leaseUntil, l'.pointers[p].revision)
          && IsNextRevision(l, operation, l'.pointers[p].revision))
    && forall other: Pointer | other.expireOperationId != operation :: other in l'.pointers <==> other in l.pointers
  }

  /** One more than the operation's pointer says, or 1 if it has none. */
  ghost predicate IsNextRevision(l: Ledger, operation: Digest, revision: int) {
    && (forall p | 0 <= p < |l.pointers| && l.pointers[p].expireOperationId == operation :: revision == l.pointers[p].revision + 1)
    && ((forall p | 0 <= p < |l.pointers| :: l.pointers[p].expireOperationId != operation) ==> revision == 1)
  }

  lemma PointersOf(l: Ledger, p: Pointer)
    requires forall i, j | 0 <= i < j < |l.pointers| :: l.pointers[i].expireOperationId != l.pointers[j].expireOperationId
    ensures p in WithPointer(l, p)
    ensures forall other: Pointer | other.expireOperationId != p.expireOperationId ::
              other in WithPointer(l, p) <==> other in l.pointers
    ensures IsNextRevision(l, p.expireOperationId, NextRevision(l, p.expireOperationId))
  {
    var pointers, found := WithPointer(l, p), FindPointer(l, p.expireOperationId);
    var at := if found.Some? then found.value else |l.pointers|;
    assert pointers[at] == p && forall i | 0 <= i < |l.pointers| && i != at :: pointers[i] == l.pointers[i];
    forall other: Pointer | other.expireOperationId != p.expireOperationId && other in l.pointers ensures other in pointers {
      var i :| 0 <= i < |l.pointers| && l.pointers[i] == other;
      assert pointers[i] == other;
    }
  }

  lemma DistinctPointers(s: Snapshot)
    requires ValidSnapshot(s)
    ensures forall i, j | 0 <= i < j < |s.ledger.pointers| ::
              s.ledger.pointers[i].expireOperationId != s.ledger.pointers[j].expireOperationId
  {
  }

  lemma ClaimWritesExactly(q: ClaimRequest, s: Snapshot, ctx: Context, leaseUntil: int)
    requires ValidSnapshot(s)
    requires forall j | 0 <= j < |s.ledger.claimRequests| :: s.ledger.claimRequests[j].replayOperationId != q.replayOperationId
    requires ApplyClaim(q, s, ctx, leaseUntil).Ok?
    ensures var (s', result) := ApplyClaim(q, s, ctx, leaseUntil).value;
      ClaimWrites(q, s, ctx, leaseUntil, s', result)
  {
    hide ValidSnapshot, ApplyClaim, ClaimPassesGuards, NotAScan, PredatesCommit, WithPointer, NextRevision, IsNextRevision;
    ClaimOutcome(q, s, ctx, leaseUntil);
    assert FindClaim(s.ledger, q.replayOperationId).None?;
    var c := ClaimCandidate(q, s.ledger, ctx, leaseUntil);
    var p := NextPointer(s.ledger, q, c);
    DistinctPointers(s);
    PointersOf(s.ledger, p);
    var (s', result) := ApplyClaim(q, s, ctx, leaseUntil).value;
    var i :| 0 <= i < |s'.ledger.pointers| && s'.ledger.pointers[i] == p;
  }

  /** A claim under a stored ID repeats the stored answer, for the same request from its owner, and changes nothing. */
  lemma ClaimRepeats(q: ClaimRequest, s: Snapshot, ctx: Context, leaseUntil: int, j: nat)
    requires ValidSnapshot(s)
    requires j < |s.ledger.claimRequests| == |s.ledger.claimResults|
    requires s.ledger.claimRequests[j].replayOperationId == q.replayOperationId
    ensures var r, c := ApplyClaim(q, s, ctx, leaseUntil), s.ledger.claimResults[j].candidate;
      if FromReaper(ctx) && IsExact(leaseUntil) && s.ledger.claimRequests[j] == q
         && c.ownerPrincipal == ctx.principal && c.ownerInstance == ctx.instance
      then r == Ok((s, s.ledger.claimResults[j])) else r.Err? && r.error.Refused?
  {
    hide ValidSnapshot, ApplyClaim, FreshClaim, ValidClaimRequest, FromReaper, ValidContext, OnReaperChannel;
    ClaimReduces(q, s, ctx, leaseUntil);
    FromReaperExactly(ctx);
    StoredClaimRequest(s, j);
    var found := FindClaim(s.ledger, q.replayOperationId);
    assert found.Some?;
    DistinctClaims(s, found.value, j);
  }

  lemma StoredClaimRequest(s: Snapshot, j: nat)
    requires ValidSnapshot(s) && j < |s.ledger.claimRequests|
    ensures ValidClaimRequest(s.ledger.claimRequests[j])
  {
    SnapshotClaims(s);
    assert ValidClaimResultFor(s.ledger.claimResults[j], s.ledger.claimRequests[j]);
  }

  lemma DistinctClaims(s: Snapshot, i: nat, j: nat)
    requires ValidSnapshot(s) && i < |s.ledger.claimRequests| && j < |s.ledger.claimRequests|
    requires s.ledger.claimRequests[i].replayOperationId == s.ledger.claimRequests[j].replayOperationId
    ensures i == j
  {
    SnapshotClaims(s);
  }

  /******* Any snapshot *******/

  /** No transition accepts a snapshot that `validate` does not, and none returns one. */
  lemma ScanKeepsValid(q: ScanRequest, s: Snapshot, ctx: Context, leaseId: Token, token: Token)
    requires leaseId != token && ApplyScan(q, s, ctx, leaseId, token).Ok?
    ensures ValidSnapshot(s) && ValidSnapshot(ApplyScan(q, s, ctx, leaseId, token).value.0)
  {
    hide ValidSnapshot, ValidScanRequest, ValidContext, OnReaperChannel, RecordScan, ValidCandidate, ValidScanResultFor;
  }

  lemma ClaimKeepsValid(q: ClaimRequest, s: Snapshot, ctx: Context, leaseUntil: int)
    requires ApplyClaim(q, s, ctx, leaseUntil).Ok?
    ensures ValidSnapshot(s) && ValidSnapshot(ApplyClaim(q, s, ctx, leaseUntil).value.0)
  {
    hide ValidSnapshot, ValidClaimRequest, ValidContext, OnReaperChannel, RecordClaim, ValidCandidate, ValidClaimResultFor;
    hide ClaimedCommit, VacantAuthority;
  }

  lemma ExpireKeepsValid(r: ExpireRequest, s: Snapshot, ctx: Context, fence: int)
    requires ApplyExpire(r, s, ctx, fence).Ok?
    ensures ValidSnapshot(s) && ValidSnapshot(ApplyExpire(r, s, ctx, fence).value.0)
  {
    hide ValidSnapshot, ValidExpireRequest, ValidContext, OnReaperChannel, ReplayAuthority, ResultAnswers, Project, Consume;
  }
}
