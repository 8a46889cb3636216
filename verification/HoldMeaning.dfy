/** What `validate` guarantees, read off the stored records themselves. */
module HoldMeaning {
  import opened Wrappers
  import opened Text
  import Utf8
  import opened HoldModel
  import opened HoldTransitions
  import opened HoldFacts
  import opened HoldExactExpire
  import opened HoldTerms
  import opened HoldReplayTerms

  /** An ACTIVE hold is in its own active set and, if it expires, indexed at its expiry; any other hold is
      neither. A candidate is on an ACTIVE hold and names it as it stands. */
  lemma HoldSays(h: Hold)
    requires ValidHold(h)
    ensures Stable(h.artifactId) && Stable(h.holdId) && forall id | id in h.activeHoldIds :: Stable(id)
    ensures 1 <= h.version <= 9_007_199_254_740_991 && IsExact(h.refCount)
    ensures h.expires.Some? ==> IsExact(h.expires.value)
    ensures h.minimumDeleteAt.Some? ==> IsExact(h.minimumDeleteAt.value)
    ensures h.holdId in h.activeHoldIds <==> h.status == ACTIVE
    ensures h.dueIndexed <==> h.status == ACTIVE && h.expires.Some?
    ensures h.dueScore == if h.dueIndexed then h.expires else None
    ensures h.candidate.Some? ==>
              && h.status == ACTIVE
              && h.candidate.value.due.artifactId == h.artifactId && h.candidate.value.due.holdId == h.holdId
              && h.candidate.value.due.holdDigest == h.holdDigest && h.candidate.value.due.version == h.version
              && h.expires == Some(h.candidate.value.due.expiresMs)
  {
  }

  /** An unconsumed scan candidate for the hold as it stands. */
  ghost predicate IsOpenFor(s: Snapshot, e: int) {
    && 0 <= e < |s.ledger.entries|
    && var entry, h := s.ledger.entries[e], s.hold;
    && entry.consumed.None?
    && (forall j | 0 <= j < |s.ledger.claimResults| :: s.ledger.claimResults[j].candidate != entry.candidate)
    && h.expires.Some? && entry.candidate.due == Due(h.artifactId, h.holdId, h.holdDigest, h.version, h.expires.value)
  }

  lemma OpenExactly(s: Snapshot, e: nat)
    requires e < |s.ledger.entries|
    ensures IsOpenFor(s, e) <==> Qualifies(s.ledger.entries[e], s.ledger.claimResults, s.hold)
  {
    if Qualifies(s.ledger.entries[e], s.ledger.claimResults, s.hold) {
      assert !IsReplayCandidate(s.ledger.entries[e].candidate, s.ledger.claimResults);
    }
  }

  /** The candidate on a hold is the open scan with the largest fence; a hold without one is not ACTIVE, or
      has no open scan. */
  lemma HoldCandidateSays(s: Snapshot)
    requires ValidSnapshot(s)
    ensures s.hold.candidate.Some? ==>
              exists e :: IsOpenFor(s, e) && s.ledger.entries[e].candidate == s.hold.candidate.value
    ensures forall e :: IsOpenFor(s, e) && s.hold.status == ACTIVE ==>
              s.hold.candidate.Some? && s.ledger.entries[e].candidate.fence <= s.hold.candidate.value.fence
  {
    hide ValidLedger, ValidCommits, ValidTombstones, ValidCommitEvidence, ValidEvents, ValidClaimEvidence, Qualifies, IsOpenFor;
    hide ValidCandidate;
    LatestIsLargest(s.ledger.entries, s.ledger.claimResults, s.hold);
    forall e | 0 <= e < |s.ledger.entries|
      ensures IsOpenFor(s, e) <==> Qualifies(s.ledger.entries[e], s.ledger.claimResults, s.hold)
    {
      OpenExactly(s, e);
    }
    OpenIsStored(s);
  }

  lemma OpenIsStored(s: Snapshot)
    ensures forall e | IsOpenFor(s, e) :: 0 <= e < |s.ledger.entries|
  {
  }

  /** A lease lasts at most five minutes, and its two bearers differ. */
  ghost predicate IsLease(c: Candidate) {
    && c.leaseId != c.token
    && 1 <= c.fence <= 9_007_199_254_740_991
    && IsExact(c.issuedAt) && IsExact(c.leaseUntil) && c.issuedAt < c.leaseUntil <= c.issuedAt + 300_000
    && Stable(c.ownerPrincipal) && Stable(c.ownerInstance)
    && Stable(c.due.artifactId) && Stable(c.due.holdId)
    && 1 <= c.due.version <= 9_007_199_254_740_991 && IsExact(c.due.expiresMs)
  }

  lemma LeaseExactly(c: Candidate)
    ensures ValidCandidate(c) <==> IsLease(c)
  {
  }

  /** Entries carry valid leases with increasing fences up to the high-water, and no bearer appears twice. */
  lemma EntriesSay(s: Snapshot, i: nat, j: nat)
    requires ValidSnapshot(s) && i < j < |s.ledger.entries|
    ensures var a, b := s.ledger.entries[i].candidate, s.ledger.entries[j].candidate;
      && IsLease(a) && IsLease(b)
      && a.fence < b.fence <= s.ledger.highWater
      && {a.leaseId, a.token} !! {b.leaseId, b.token}
  {
    hide ValidSnapshot, ValidCandidate, IsLease;
    SnapshotParts(s);
    LeaseExactly(s.ledger.entries[i].candidate);
    LeaseExactly(s.ledger.entries[j].candidate);
    assert ValidEntry(s.ledger.entries[i]) && ValidEntry(s.ledger.entries[j]);
    assert !SharesBearer(s.ledger.entries[i].candidate, s.ledger.entries[j].candidate);
  }

  /** The candidate has its seal, its allocation after the fence stored before it, and its entry. */
  ghost predicate IsIssued(l: Ledger, i: nat, c: Candidate)
    requires i < |l.scanRequests| == |l.scanResults|
  {
    && (exists m | 0 <= m < |l.seals| ::
          l.seals[m] == Seal(l.scanRequests[i].scanOperationId, c.leaseId, c.token, OfCandidate(c), OfScanResult(l.scanResults[i]),
                             c.ownerPrincipal, c.ownerInstance, c.fence, c.issuedAt, c.leaseUntil))
    && (exists a, e :: IsAllocated(l, i, c, a, e))
  }

  ghost predicate IsAllocated(l: Ledger, i: nat, c: Candidate, a: int, e: int)
    requires i < |l.scanRequests|
  {
    && 0 <= a < |l.allocations| && 0 <= e < |l.entries|
    && l.entries[e].candidate == c
    && l.allocations[a] == Allocation(l.scanRequests[i], c, if e == 0 then 0 else l.entries[e - 1].candidate.fence)
  }

  lemma {:induction false} EvidenceHas(requests: seq<ScanRequest>, results: seq<ScanResult>, i: nat, k: nat) returns (n: nat)
    requires |requests| == |results| && i < |results| && k < |results[i].candidates|
    ensures n < |EvidenceOf(requests, results)|
    ensures EvidenceOf(requests, results)[n] == Evidence(requests[i], results[i], results[i].candidates[k])
  {
    var last := |requests| - 1;
    var before := EvidenceOf(requests[..last], results[..last]);
    if i < last {
      n := EvidenceHas(requests[..last], results[..last], i, k);
    } else {
      n := |before| + k;
    }
  }

  lemma {:induction false} EvidenceFrom(requests: seq<ScanRequest>, results: seq<ScanResult>, n: nat) returns (i: nat, k: nat)
    requires |requests| == |results| && n < |EvidenceOf(requests, results)|
    ensures i < |results| && k < |results[i].candidates|
    ensures EvidenceOf(requests, results)[n] == Evidence(requests[i], results[i], results[i].candidates[k])
  {
    var last := |requests| - 1;
    var before := EvidenceOf(requests[..last], results[..last]);
    if n < |before| {
      i, k := EvidenceFrom(requests[..last], results[..last], n);
    } else {
      i, k := last, n - |before|;
    }
  }

  /** Every seal and every allocation is that of a scan candidate, and no two are of the same lease. */
  lemma SealSays(s: Snapshot, m: nat) returns (i: nat, k: nat)
    requires ValidSnapshot(s) && m < |s.ledger.seals|
    ensures i < |s.ledger.scanResults| && k < |s.ledger.scanResults[i].candidates|
    ensures s.ledger.seals[m].leaseId == s.ledger.scanResults[i].candidates[k].leaseId
    ensures forall j | 0 <= j < |s.ledger.seals| && j != m :: s.ledger.seals[j].leaseId != s.ledger.seals[m].leaseId
  {
    hide ValidSnapshot, ValidAllocations, ValidScans, ValidProvenance;
    SnapshotScans(s);
    var evidence := EvidenceOf(s.ledger.scanRequests, s.ledger.scanResults);
    assert s.ledger.seals[m].leaseId in SealedLeases(s.ledger.seals);
    var n :| 0 <= n < |evidence| && evidence[n].candidate.leaseId == s.ledger.seals[m].leaseId;
    i, k := EvidenceFrom(s.ledger.scanRequests, s.ledger.scanResults, n);
  }

  lemma AllocationSays(s: Snapshot, a: nat) returns (i: nat, k: nat)
    requires ValidSnapshot(s) && a < |s.ledger.allocations|
    ensures i < |s.ledger.scanResults| && k < |s.ledger.scanResults[i].candidates|
    ensures s.ledger.allocations[a].candidate == s.ledger.scanResults[i].candidates[k]
    ensures forall j | 0 <= j < |s.ledger.allocations| && j != a ::
              s.ledger.allocations[j].candidate.leaseId != s.ledger.allocations[a].candidate.leaseId
  {
    hide ValidSnapshot, ValidSeals, ValidScans, ValidProvenance, ValidAllocation;
    SnapshotScans(s);
    var evidence := EvidenceOf(s.ledger.scanRequests, s.ledger.scanResults);
    assert s.ledger.allocations[a].candidate.leaseId in AllocatedLeases(s.ledger.allocations);
    var n :| 0 <= n < |evidence| && evidence[n].candidate.leaseId == s.ledger.allocations[a].candidate.leaseId;
    i, k := EvidenceFrom(s.ledger.scanRequests, s.ledger.scanResults, n);
  }

  ghost predicate IsScanned(l: Ledger, c: Candidate) {
    exists i, k | 0 <= i < |l.scanResults| && 0 <= k < |l.scanResults[i].candidates| :: l.scanResults[i].candidates[k] == c
  }

  ghost predicate IsClaimed(l: Ledger, c: Candidate) {
    exists j | 0 <= j < |l.claimResults| :: l.claimResults[j].candidate == c
  }

  /** The candidate of an entry comes from a stored scan or from a stored claim, and never from both. */
  lemma EntryIsScannedOrClaimed(s: Snapshot, e: nat)
    requires ValidSnapshot(s) && e < |s.ledger.entries|
    ensures IsScanned(s.ledger, s.ledger.entries[e].candidate) <==> !IsClaimed(s.ledger, s.ledger.entries[e].candidate)
  {
    hide ValidSnapshot, PersistedCandidates;
    var l, c := s.ledger, s.ledger.entries[e].candidate;
    var n := EntryIsPersisted(s, e);
    PersistedFrom(l, n);
    SnapshotLengths(s);
    if IsScanned(l, c) && IsClaimed(l, c) {
      var i, k :| 0 <= i < |l.scanResults| && 0 <= k < |l.scanResults[i].candidates| && l.scanResults[i].candidates[k] == c;
      var j :| 0 <= j < |l.claimResults| && l.claimResults[j].candidate == c;
      OperationsDiffer(s, i, k, j);
    }
  }

  lemma PersistedFrom(l: Ledger, n: nat)
    requires |l.scanRequests| == |l.scanResults| && n < |PersistedCandidates(l)|
    ensures IsScanned(l, PersistedCandidates(l)[n]) || IsClaimed(l, PersistedCandidates(l)[n])
  {
    var evidence, c := EvidenceOf(l.scanRequests, l.scanResults), PersistedCandidates(l)[n];
    if n < |evidence| {
      var i, k := EvidenceFrom(l.scanRequests, l.scanResults, n);
      assert l.scanResults[i].candidates[k] == c;
    } else {
      assert l.claimResults[n - |evidence|].candidate == c;
    }
  }

  lemma SnapshotLengths(s: Snapshot)
    requires ValidSnapshot(s)
    ensures |s.ledger.scanRequests| == |s.ledger.scanResults| && |s.ledger.claimRequests| == |s.ledger.claimResults|
  {
  }

  lemma EntryIsPersisted(s: Snapshot, e: nat) returns (n: nat)
    requires ValidSnapshot(s) && e < |s.ledger.entries|
    ensures |s.ledger.scanRequests| == |s.ledger.scanResults|
    ensures n < |PersistedCandidates(s.ledger)| && PersistedCandidates(s.ledger)[n] == s.ledger.entries[e].candidate
  {
    hide ValidSnapshot, ValidProjection, PersistedCandidates;
    SnapshotProjection(s);
    PersistedAreEntries(s.ledger);
    assert EntryCandidates(s.ledger.entries)[e] == s.ledger.entries[e].candidate;
    assert s.ledger.entries[e].candidate in PersistedCandidates(s.ledger);
    n :| 0 <= n < |PersistedCandidates(s.ledger)| && PersistedCandidates(s.ledger)[n] == s.ledger.entries[e].candidate;
  }

  lemma OperationsDiffer(s: Snapshot, i: nat, k: nat, j: nat)
    requires ValidSnapshot(s) && i < |s.ledger.scanRequests| == |s.ledger.scanResults| && k < |s.ledger.scanResults[i].candidates|
    requires j < |s.ledger.claimRequests| == |s.ledger.claimResults|
    ensures s.ledger.scanResults[i].candidates[k] != s.ledger.claimResults[j].candidate
  {
    hide ValidSnapshot, ValidSeals, ValidAllocations, ValidProvenance, ValidCandidate;
    SnapshotScans(s);
    SnapshotClaims(s);
    assert ValidScanResultFor(s.ledger.scanResults[i], s.ledger.scanRequests[i]);
    assert ValidClaimResultFor(s.ledger.claimResults[j], s.ledger.claimRequests[j]);
  }

  lemma SealFor(seals: seq<Seal>, evidence: seq<Evidence>, n: nat) returns (m: nat)
    requires ValidSeals(seals, evidence) && n < |evidence|
    ensures m < |seals| && seals[m] == SealOf(evidence[n].request, evidence[n].result, evidence[n].candidate)
  {
    assert evidence[n].candidate.leaseId in EvidenceLeases(evidence);
    m :| 0 <= m < |seals| && seals[m].leaseId == evidence[n].candidate.leaseId;
  }

  lemma AllocationFor(allocations: seq<Allocation>, evidence: seq<Evidence>, n: nat) returns (a: nat)
    requires ValidAllocations(allocations, evidence) && n < |evidence|
    ensures a < |allocations|
    ensures allocations[a].request == evidence[n].request && allocations[a].candidate == evidence[n].candidate
  {
    assert evidence[n].candidate.leaseId in EvidenceLeases(evidence);
    a :| 0 <= a < |allocations| && allocations[a].candidate.leaseId == evidence[n].candidate.leaseId;
  }

  lemma SnapshotScans(s: Snapshot)
    requires ValidSnapshot(s)
    ensures ValidScans(s.ledger) && ValidProvenance(s.ledger) && |s.ledger.scanRequests| == |s.ledger.scanResults|
    ensures ValidSeals(s.ledger.seals, EvidenceOf(s.ledger.scanRequests, s.ledger.scanResults))
    ensures ValidAllocations(s.ledger.allocations, EvidenceOf(s.ledger.scanRequests, s.ledger.scanResults))
  {
  }

  lemma IssuedAt(l: Ledger, i: nat, c: Candidate, m: nat, a: nat, e: nat)
    requires i < |l.scanRequests| == |l.scanResults| && m < |l.seals| && a < |l.allocations| && e < |l.entries|
    requires l.seals[m] == SealOf(l.scanRequests[i], l.scanResults[i], c)
    requires l.allocations[a].request == l.scanRequests[i] && l.allocations[a].candidate == c
    requires AllocatedAt(l.entries, l.allocations[a], e)
    ensures IsIssued(l, i, c)
  {
    assert IsAllocated(l, i, c, a, e);
  }

  /** A stored scan: its request, its result, and what was written for each of its candidates. */
  lemma ScanSays(s: Snapshot, i: nat, k: nat)
    requires ValidSnapshot(s) && i < |s.ledger.scanRequests| == |s.ledger.scanResults|
    requires k < |s.ledger.scanResults[i].candidates|
    ensures var q, result := s.ledger.scanRequests[i], s.ledger.scanResults[i];
      && 1 <= q.maxCandidates <= 100 && |result.candidates| <= q.maxCandidates
      && q == ScanRequest(q.scanOperationId, q.maxCandidates, q.scanOperationId,
                          OfScanRequest(q.scanOperationId, q.maxCandidates, q.scanOperationId))
      && result.scanOperationId == q.scanOperationId && result.requestDigest == q.requestDigest
      && result.candidates[k].scanOperationId == q.scanOperationId && IsLease(result.candidates[k])
      && IsIssued(s.ledger, i, result.candidates[k])
  {
    hide ValidSnapshot, ValidSeals, ValidAllocations, ValidCandidate, IsLease;
    var l, c := s.ledger, s.ledger.scanResults[i].candidates[k];
    SnapshotScans(s);
    assert ValidScanResultFor(l.scanResults[i], l.scanRequests[i]);
    LeaseExactly(c);
    var evidence := EvidenceOf(l.scanRequests, l.scanResults);
    var n := EvidenceHas(l.scanRequests, l.scanResults, i, k);
    var m := SealFor(l.seals, evidence, n);
    var a := AllocationFor(l.allocations, evidence, n);
    assert HasProvenance(l.entries, l.allocations[a]);
    var e :| 0 <= e < |l.entries| && AllocatedAt(l.entries, l.allocations[a], e);
    IssuedAt(l, i, c, m, a, e);
  }

  /** By artifact, then by hold, each by its code points. */
  ghost predicate ComesBefore(a: Due, b: Due) {
    if a.artifactId != b.artifactId then Utf8.Before(a.artifactId, b.artifactId) else Utf8.Before(a.holdId, b.holdId)
  }

  lemma DueKeyExactly(a: Due, b: Due)
    ensures DueKeyLess(a, b) <==> ComesBefore(a, b)
  {
    hide Utf8.Encode, Utf8.Less, Utf8.Before;
    Utf8.EncodeExactly(a.artifactId, b.artifactId);
    Utf8.EncodeExactly(a.holdId, b.holdId);
  }

  lemma DueKeyTransitive(a: Due, b: Due, c: Due)
    requires DueKeyLess(a, b) && DueKeyLess(b, c)
    ensures DueKeyLess(a, c)
  {
    hide Utf8.Encode;
    forall x: seq<Utf8.byte>, y: seq<Utf8.byte>, z: seq<Utf8.byte> | Utf8.Less(x, y) && Utf8.Less(y, z) ensures Utf8.Less(x, z) {
      Utf8.LessTransitive(x, y, z);
    }
  }

  lemma {:induction false} NeighboursOrder(candidates: seq<Candidate>, k: nat, m: nat)
    requires forall i, j | 0 <= i < |candidates| && 0 <= j < |candidates| && j - i == 1 ::
               DueKeyLess(candidates[i].due, candidates[j].due)
    requires k < m < |candidates|
    ensures DueKeyLess(candidates[k].due, candidates[m].due)
  {
    hide DueKeyLess;
    if k < m - 1 {
      NeighboursOrder(candidates, k, m - 1);
      DueKeyTransitive(candidates[k].due, candidates[m - 1].due, candidates[m].due);
    }
  }

  /** The candidates of a stored scan are for holds in increasing order, and share no bearer and no fence. */
  lemma ScanOrderSays(s: Snapshot, i: nat, k: nat, m: nat)
    requires ValidSnapshot(s) && i < |s.ledger.scanRequests| == |s.ledger.scanResults|
    requires k < m < |s.ledger.scanResults[i].candidates|
    ensures var a, b := s.ledger.scanResults[i].candidates[k], s.ledger.scanResults[i].candidates[m];
      && ComesBefore(a.due, b.due)
      && a.fence != b.fence && {a.leaseId, a.token} !! {b.leaseId, b.token}
  {
    hide ValidSnapshot, ValidCandidate, DueKeyLess, ComesBefore;
    SnapshotScans(s);
    assert ValidScanResultFor(s.ledger.scanResults[i], s.ledger.scanRequests[i]);
    var candidates := s.ledger.scanResults[i].candidates;
    NeighboursOrder(candidates, k, m);
    DueKeyExactly(candidates[k].due, candidates[m].due);
    assert !SharesBearer(candidates[k], candidates[m]);
  }

  /** A stored claim: its request and result, its unconsumed entry, and the commit that it takes over. */
  lemma ClaimSays(s: Snapshot, j: nat) returns (k: nat, e: nat)
    requires ValidSnapshot(s) && j < |s.ledger.claimRequests| == |s.ledger.claimResults|
    ensures k < |s.commits| && e < |s.ledger.entries|
    ensures var q, result, c, commit := s.ledger.claimRequests[j], s.ledger.claimResults[j], s.ledger.claimResults[j].candidate, s.commits[k];
      && RequestsTakeover(q, commit)
      && result == ClaimResult(q.replayOperationId, q.expireOperationId, q.baseCommitDigest, q.requestDigest, c)
      && c.scanOperationId == q.replayOperationId && c.leaseId == q.leaseId && c.token == q.token && c.due == q.due && IsLease(c)
      && s.ledger.entries[e] == Entry(c, None)
      && commit.expireOperationId == q.expireOperationId
      && c.ownerPrincipal == commit.principal && commit.fence < c.fence && commit.committedAt <= c.issuedAt
      && c.due.artifactId == commit.result.artifactId && c.due.holdId == commit.result.holdId
      && c.due.holdDigest == commit.expectedHoldDigest && c.due.version == commit.previousVersion
      && s.hold.expires == Some(c.due.expiresMs) && s.hold.status == EXPIRED
    ensures forall i | 0 <= i < |s.ledger.scanRequests| :: s.ledger.scanRequests[i].scanOperationId != s.ledger.claimRequests[j].replayOperationId
    ensures forall i | 0 <= i < |s.ledger.claimRequests| && i != j ::
              s.ledger.claimRequests[i].replayOperationId != s.ledger.claimRequests[j].replayOperationId
  {
    hide ValidSnapshot, HoldReflects, IsLease;
    var l := s.ledger;
    SnapshotClaims(s);
    SnapshotClaimEvidence(s);
    assert ValidClaimResultFor(l.claimResults[j], l.claimRequests[j]);
    assert FollowsSomeCommit(l.claimRequests[j], l.claimResults[j], s.commits, s.hold);
    k :| 0 <= k < |s.commits| && s.commits[k].expireOperationId == l.claimRequests[j].expireOperationId
         && ClaimFollowsCommit(l.claimRequests[j], l.claimResults[j], s.commits[k], s.hold);
    LeaseExactly(l.claimResults[j].candidate);
    TakeoverRequestExactly(l.claimRequests[j], s.commits[k]);
    var committed := CommitDue(s, k);
    e := ClaimEntry(s, k, j, committed);
  }

  lemma SnapshotClaims(s: Snapshot)
    requires ValidSnapshot(s)
    ensures ValidClaims(s.ledger) && |s.ledger.claimRequests| == |s.ledger.claimResults|
  {
  }

  lemma SnapshotClaimEvidence(s: Snapshot)
    requires ValidSnapshot(s) && |s.ledger.claimRequests| == |s.ledger.claimResults|
    ensures ValidClaimEvidence(s)
  {
  }

  /** The retention that a commit records: other holds, references, or a minimum-delete time not yet reached. */
  ghost predicate RecordsLock(c: Commit) {
    c.remainingHolds >= 1 || c.refCount >= 1 || (c.minimumDeleteAt.Some? && c.minimumDeleteAt.value > c.committedAt)
  }

  /** A stored commit: the tombstone it consumed, inside its lease and when it was due; its result; and its
      one audit and one outbox record. */
  lemma CommitSays(s: Snapshot, k: nat) returns (e: nat)
    requires ValidSnapshot(s) && k < |s.commits|
    ensures e < |s.ledger.entries|
    ensures var commit, c := s.commits[k], s.ledger.entries[e].candidate;
      var id := ExpireOperation(c.due);
      && s.ledger.entries[e].consumed == Some(Consumption(id, commit.committedAt))
      && c.issuedAt <= commit.committedAt < c.leaseUntil && c.due.expiresMs <= commit.committedAt
      && commit == Commit(id, OfExpireRequest(id, c.due, id), c.due.holdDigest, OfCandidate(c), c.ownerPrincipal, c.fence,
                          c.due.version, commit.remainingHolds, commit.refCount, commit.minimumDeleteAt, commit.committedAt,
                          ExpiryResult(id, c.due.artifactId, c.due.holdId, commit.requestDigest, c.due.version + 1, RecordsLock(commit)))
      && multiset(s.audit)[Event(AUDIT, EventId(AUDIT, id), id, c.due.artifactId, c.due.holdId, c.due.version + 1,
                                 OfExpiryResult(commit.result), OfCommit(commit), commit.committedAt)] == 1
      && multiset(s.outbox)[Event(OUTBOX, EventId(OUTBOX, id), id, c.due.artifactId, c.due.holdId, c.due.version + 1,
                                  OfExpiryResult(commit.result), OfCommit(commit), commit.committedAt)] == 1
    ensures |s.audit| == |s.outbox| == |s.commits|
  {
    hide ValidHold, ValidLedger, ValidHoldCandidate, ValidClaimEvidence, ValidCommits, ValidTombstones, NothingNewer, HoldReflects;
    hide ValidCommit, ValidDue;
    e := CommittedTombstone(s, k);
  }

  /** The numbers that a commit records are in range, and no other commit is of its operation. */
  lemma CommitFieldsSay(s: Snapshot, k: nat)
    requires ValidSnapshot(s) && k < |s.commits|
    ensures var c := s.commits[k];
      && IsExact(c.remainingHolds) && IsExact(c.refCount) && (c.minimumDeleteAt.Some? ==> IsExact(c.minimumDeleteAt.value))
      && IsExact(c.committedAt) && 1 <= c.result.version <= 9_007_199_254_740_991
    ensures forall i | 0 <= i < |s.commits| && i != k :: s.commits[i].expireOperationId != s.commits[k].expireOperationId
  {
    hide ValidHold, ValidLedger, ValidHoldCandidate, ValidClaimEvidence, ValidTombstones, ValidCommitEvidence, ValidEvents;
    assert ValidCommit(s.commits[k]);
  }

  /** Every tombstone is that of a stored commit. */
  lemma TombstoneSays(s: Snapshot, e: nat) returns (k: nat)
    requires ValidSnapshot(s) && e < |s.ledger.entries| && s.ledger.entries[e].consumed.Some?
    ensures k < |s.commits|
    ensures s.ledger.entries[e].consumed == Some(Consumption(s.commits[k].expireOperationId, s.commits[k].committedAt))
    ensures s.commits[k].expireOperationId == ExpireOperation(s.ledger.entries[e].candidate.due)
    ensures forall i | 0 <= i < |s.ledger.entries| && s.ledger.entries[i].consumed.Some? && i != e ::
              s.ledger.entries[i].consumed.value.operation != s.ledger.entries[e].consumed.value.operation
  {
    hide ValidSnapshot;
    k := ConsumingCommit(s, e);
    forall i | 0 <= i < |s.ledger.entries| && s.ledger.entries[i].consumed.Some? && i != e
      ensures s.ledger.entries[i].consumed.value.operation != s.ledger.entries[e].consumed.value.operation
    {
      if s.ledger.entries[i].consumed.value.operation == s.ledger.entries[e].consumed.value.operation {
        OnlyTombstone(s, i, e);
      }
    }
    var f := CommitSays(s, k);
    if f != e {
      OnlyTombstone(s, e, f);
    }
  }

  /** A hold that a commit names is EXPIRED at that commit's version or a later one; while it is at that very
      version, the commit records its other holds, references, minimum-delete time and retention. */
  lemma CommittedHoldSays(s: Snapshot, k: nat)
    requires ValidSnapshot(s) && k < |s.commits|
    requires s.commits[k].result.artifactId == s.hold.artifactId && s.commits[k].result.holdId == s.hold.holdId
    ensures var h, commit := s.hold, s.commits[k];
      && h.status == EXPIRED && h.holdId !in h.activeHoldIds && h.holdDigest == commit.expectedHoldDigest
      && !h.dueIndexed && h.dueScore.None? && h.candidate.None?
      && commit.result.version <= h.version
      && (commit.result.version == h.version ==>
            && commit.remainingHolds == |h.activeHoldIds| && commit.refCount == h.refCount
            && commit.minimumDeleteAt == h.minimumDeleteAt
            && (commit.result.retentionLocked
                <==> h.activeHoldIds != {} || h.refCount >= 1
                     || (h.minimumDeleteAt.Some? && h.minimumDeleteAt.value > commit.committedAt)))
  {
    hide ValidSnapshot;
    var e := CommitDue(s, k);
  }

  /** The two readings of retention, from the hold and from the commit, agree on what a commit records. */
  lemma RetentionAgrees(h: Hold, c: Commit)
    requires c.remainingHolds == |h.activeHoldIds| && c.refCount == h.refCount && c.minimumDeleteAt == h.minimumDeleteAt
    ensures RetainedBy(c) <==> RetentionLockedAt(h, c.committedAt)
    ensures RetainedBy(c) <==> RecordsLock(c)
  {
  }

  /** An operation points to its claim with the largest fence. */
  lemma PointerSays(s: Snapshot, p: nat) returns (j: nat)
    requires ValidSnapshot(s) && p < |s.ledger.pointers|
    ensures j < |s.ledger.claimRequests| == |s.ledger.claimResults|
    ensures var l := s.ledger;
      var q, result, c, pointer := l.claimRequests[j], l.claimResults[j], l.claimResults[j].candidate, l.pointers[p];
      && pointer == Pointer(q.expireOperationId, q.replayOperationId, q.baseCommitDigest, q.requestDigest, c.leaseId, c.token,
                            OfCandidate(c), OfClaimResult(result), c.ownerPrincipal, c.ownerInstance, c.fence, c.issuedAt,
                            c.leaseUntil, pointer.revision)
      && (forall i | 0 <= i < |l.claimRequests| && l.claimRequests[i].expireOperationId == q.expireOperationId ::
            l.claimResults[i].candidate.fence <= c.fence)
      && pointer.revision == |ClaimsOn(l.claimRequests, l.claimResults, q.expireOperationId)|
  {
    hide ValidSnapshot, ValidTakeovers, ValidPointer, LastRanked;
    var l := s.ledger;
    SnapshotTakeovers(s);
    SnapshotPointers(s);
    var operation := l.pointers[p].expireOperationId;
    LastUnfolds(l, operation);
    j := LastIsStored(l, operation);
    forall i | 0 <= i < |l.claimRequests| && l.claimRequests[i].expireOperationId == operation
      ensures l.claimResults[i].candidate.fence <= l.claimResults[j].candidate.fence
    {
      EarlierClaimsEnd(l, operation, i);
    }
  }

  lemma SnapshotPointers(s: Snapshot)
    requires ValidSnapshot(s) && |s.ledger.claimRequests| == |s.ledger.claimResults|
    ensures ValidPointers(s.ledger)
  {
  }

  lemma LastUnfolds(l: Ledger, operation: Digest)
    requires |l.claimRequests| == |l.claimResults|
    ensures var ranked := RankedClaims(l, operation);
      LastRanked(l, operation) == if ranked == [] then None else Some(ranked[|ranked| - 1])
  {
  }
}
