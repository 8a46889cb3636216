/** The invariant that runs from the empty ledger keep, stronger than what `validate` checks:
    fences are exactly 1, 2, ..., high-water. It implies every check of the validator.

    In the proofs, `var slot := ScanSlot(l, i);` names one instance of a quantified fact, which brings
    what it says into scope. */
module HoldInvariant {
  import opened Wrappers
  import opened Text
  import opened HoldModel
  import opened HoldFacts
  import Sorting

  /******* The ledger *******/

  /** Entry i was issued by scan request i. */
  ghost predicate ScanSlot(l: Ledger, i: nat)
    requires i < |l.scanRequests| == |l.scanResults| == |l.seals| == |l.allocations| <= |l.entries|
  {
    var q, c := l.scanRequests[i], l.entries[i].candidate;
    && ValidScanRequest(q)
    && c.scanOperationId == q.scanOperationId
    && l.scanResults[i] == ScanResult(q.scanOperationId, q.requestDigest, [c])
    && l.seals[i] == SealOf(q, l.scanResults[i], c)
    && l.allocations[i] == Allocation(q, c, i)
  }

  ghost predicate Scans(l: Ledger) {
    && |l.scanRequests| == |l.scanResults| == |l.seals| == |l.allocations| <= |l.entries|
    && (forall i | 0 <= i < |l.scanRequests| :: ScanSlot(l, i))
    && (forall i, j | 0 <= i < j < |l.scanRequests| ::
          l.scanRequests[i].scanOperationId != l.scanRequests[j].scanOperationId)
  }

  /** After the scan entries, entry |scans| + j was issued by claim request j. */
  ghost predicate ClaimSlot(l: Ledger, j: nat)
    requires j < |l.claimRequests| == |l.claimResults|
    requires |l.entries| == |l.scanRequests| + |l.claimRequests|
  {
    var e := l.entries[|l.scanRequests| + j];
    && ValidClaimResultFor(l.claimResults[j], l.claimRequests[j])
    && l.claimResults[j].candidate == e.candidate
    && e.consumed.None?
  }

  ghost predicate Claims(l: Ledger) {
    && |l.claimRequests| == |l.claimResults|
    && |l.entries| == |l.scanRequests| + |l.claimRequests|
    && (forall j | 0 <= j < |l.claimRequests| ::
          ClaimSlot(l, j) && l.claimRequests[j].expireOperationId == l.claimRequests[0].expireOperationId)
    && (forall i, j | 0 <= i < j < |l.claimRequests| ::
          l.claimRequests[i].replayOperationId != l.claimRequests[j].replayOperationId)
    && (forall i, j | 0 <= i < |l.scanRequests| && 0 <= j < |l.claimRequests| ::
          l.scanRequests[i].scanOperationId != l.claimRequests[j].replayOperationId)
    && (forall i, j | 0 <= i < j < |l.claimResults| && j == i + 1 ::
          l.claimResults[i].candidate.leaseUntil <= l.claimResults[j].candidate.issuedAt)
    && l.pointers == CurrentPointers(l)
  }

  ghost function ClaimAt(l: Ledger, j: nat): Claim
    requires j < |l.claimRequests| == |l.claimResults|
  {
    Claim(l.claimRequests[j], l.claimResults[j])
  }

  /** One pointer, to the newest claim, with the number of claims as its revision. */
  ghost function CurrentPointers(l: Ledger): seq<Pointer>
    requires |l.claimRequests| == |l.claimResults|
  {
    var n := |l.claimRequests|;
    if n == 0 then [] else [PointerOf(ClaimAt(l, n - 1), n)]
  }

  ghost predicate Entries(l: Ledger) {
    && l.highWater == |l.entries| <= MAX_SAFE_INTEGER
    && (forall i | 0 <= i < |l.entries| :: ValidEntry(l.entries[i]) && l.entries[i].candidate.fence == i + 1)
    && (forall i, j | 0 <= i < j < |l.entries| :: !SharesBearer(l.entries[i].candidate, l.entries[j].candidate))
  }

  ghost predicate LedgerInv(l: Ledger) {
    Entries(l) && Scans(l) && Claims(l)
  }

  lemma {:induction false} EvidenceIsPerScan(requests: seq<ScanRequest>, results: seq<ScanResult>)
    requires |requests| == |results|
    requires forall i | 0 <= i < |results| :: |results[i].candidates| == 1
    ensures |EvidenceOf(requests, results)| == |requests|
    ensures forall i | 0 <= i < |requests| ::
              EvidenceOf(requests, results)[i] == Evidence(requests[i], results[i], results[i].candidates[0])
  {
    if requests != [] {
      var last := |requests| - 1;
      EvidenceIsPerScan(requests[..last], results[..last]);
    }
  }

  /** One piece of evidence per scan: its request, its result and its entry's candidate. */
  ghost predicate EvidencePerScan(l: Ledger) {
    && |l.scanRequests| == |l.scanResults| <= |l.entries|
    && var evidence := EvidenceOf(l.scanRequests, l.scanResults);
    && |evidence| == |l.scanRequests|
    && forall i | 0 <= i < |evidence| ::
         evidence[i] == Evidence(l.scanRequests[i], l.scanResults[i], l.entries[i].candidate)
  }

  lemma LedgerEvidence(l: Ledger)
    ensures Scans(l) ==> EvidencePerScan(l)
  {
    if Scans(l) {
      forall i | 0 <= i < |l.scanResults|
        ensures |l.scanResults[i].candidates| == 1 && l.scanResults[i].candidates[0] == l.entries[i].candidate
      {
        var slot := ScanSlot(l, i);
      }
      EvidenceIsPerScan(l.scanRequests, l.scanResults);
    }
  }

  lemma SlotIsValidScan(l: Ledger, i: nat)
    requires Entries(l) && Scans(l) && i < |l.scanRequests|
    ensures ValidScanResultFor(l.scanResults[i], l.scanRequests[i])
  {
    var slot := ScanSlot(l, i);
    var c := l.entries[i].candidate;
    assert l.scanResults[i].candidates == [c];
  }

  /** Distinct entries make the evidence of the scans distinct. */
  lemma EvidenceIsDistinct(l: Ledger)
    requires Entries(l) && EvidencePerScan(l)
    ensures var evidence := EvidenceOf(l.scanRequests, l.scanResults);
      forall i, j | 0 <= i < j < |evidence| :: evidence[i].candidate.leaseId != evidence[j].candidate.leaseId
  {
  }

  lemma ScansAreValid(l: Ledger)
    requires Entries(l) && Scans(l)
    ensures ValidScans(l)
  {
    LedgerEvidence(l);
    EvidenceIsDistinct(l);
    forall i | 0 <= i < |l.scanRequests| ensures ValidScanResultFor(l.scanResults[i], l.scanRequests[i]) {
      SlotIsValidScan(l, i);
    }
  }

  lemma SealOfSlot(l: Ledger, i: nat)
    requires Entries(l) && Scans(l) && i < |l.scanRequests|
    ensures ValidSeal(l.seals[i]) && l.seals[i].leaseId == l.entries[i].candidate.leaseId
    ensures l.seals[i] == SealOf(l.scanRequests[i], l.scanResults[i], l.entries[i].candidate)
  {
    var slot, entry := ScanSlot(l, i), l.entries[i];
  }

  lemma SealsMatch(seals: seq<Seal>, evidence: seq<Evidence>)
    requires |seals| == |evidence|
    requires forall i | 0 <= i < |evidence| ::
               && ValidSeal(seals[i])
               && seals[i] == SealOf(evidence[i].request, evidence[i].result, evidence[i].candidate)
    requires forall i, j | 0 <= i < j < |evidence| ::
               evidence[i].candidate.leaseId != evidence[j].candidate.leaseId
    ensures ValidSeals(seals, evidence)
  {
    assert forall i | 0 <= i < |evidence| :: seals[i].leaseId == evidence[i].candidate.leaseId;
    assert SealedLeases(seals) == EvidenceLeases(evidence);
  }

  lemma SealsAreValid(l: Ledger)
    requires Entries(l) && Scans(l)
    ensures ValidSeals(l.seals, EvidenceOf(l.scanRequests, l.scanResults))
  {
    LedgerEvidence(l);
    var evidence := EvidenceOf(l.scanRequests, l.scanResults);
    forall i | 0 <= i < |l.seals|
      ensures ValidSeal(l.seals[i])
      ensures l.seals[i] == SealOf(evidence[i].request, evidence[i].result, evidence[i].candidate)
    {
      SealOfSlot(l, i);
    }
    SealsMatch(l.seals, evidence);
  }

  lemma AllocationOfSlot(l: Ledger, i: nat)
    requires Entries(l) && Scans(l) && i < |l.scanRequests|
    ensures ValidAllocation(l.allocations[i])
    ensures l.allocations[i].candidate == l.entries[i].candidate
    ensures l.allocations[i].request == l.scanRequests[i]
  {
    var slot, entry := ScanSlot(l, i), l.entries[i];
  }

  lemma AllocationsMatch(allocations: seq<Allocation>, evidence: seq<Evidence>)
    requires |allocations| == |evidence|
    requires forall i | 0 <= i < |evidence| ::
               && ValidAllocation(allocations[i])
               && allocations[i].candidate == evidence[i].candidate
               && allocations[i].request == evidence[i].request
    requires forall i, j | 0 <= i < j < |evidence| ::
               evidence[i].candidate.leaseId != evidence[j].candidate.leaseId
    ensures ValidAllocations(allocations, evidence)
  {
    assert AllocatedLeases(allocations) == EvidenceLeases(evidence);
  }

  lemma AllocationsAreValid(l: Ledger)
    requires Entries(l) && Scans(l)
    ensures ValidAllocations(l.allocations, EvidenceOf(l.scanRequests, l.scanResults))
  {
    LedgerEvidence(l);
    var evidence := EvidenceOf(l.scanRequests, l.scanResults);
    forall i | 0 <= i < |l.allocations|
      ensures ValidAllocation(l.allocations[i])
      ensures l.allocations[i].candidate == evidence[i].candidate
      ensures l.allocations[i].request == evidence[i].request
    {
      AllocationOfSlot(l, i);
    }
    AllocationsMatch(l.allocations, evidence);
  }

  lemma ProvenanceIsValid(l: Ledger)
    requires Entries(l) && Scans(l)
    ensures ValidProvenance(l)
  {
    forall a | 0 <= a < |l.allocations|
      ensures HasProvenance(l.entries, l.allocations[a])
    {
      var slot := ScanSlot(l, a);
      assert a > 0 ==> l.entries[a - 1].candidate.fence == a;
      assert AllocatedAt(l.entries, l.allocations[a], a);
    }
  }

  lemma {:induction false} ClaimsOnAll(requests: seq<ClaimRequest>, results: seq<ClaimResult>, operation: Digest)
    requires |requests| == |results|
    requires forall j | 0 <= j < |requests| :: requests[j].expireOperationId == operation
    ensures ClaimsOn(requests, results, operation) == seq(|requests|, j requires 0 <= j < |requests| => Claim(requests[j], results[j]))
  {
    if requests != [] {
      var last := |requests| - 1;
      ClaimsOnAll(requests[..last], results[..last], operation);
    }
  }

  lemma {:induction false} ClaimsOnNone(requests: seq<ClaimRequest>, results: seq<ClaimResult>, operation: Digest)
    requires |requests| == |results|
    requires forall j | 0 <= j < |requests| :: requests[j].expireOperationId != operation
    ensures ClaimsOn(requests, results, operation) == []
  {
    if requests != [] {
      var last := |requests| - 1;
      ClaimsOnNone(requests[..last], results[..last], operation);
    }
  }

  lemma ClaimEntries(l: Ledger)
    ensures Claims(l) ==> ClaimsAreEntries(l)
  {
    if Claims(l) {
      forall j | 0 <= j < |l.claimResults|
        ensures l.claimResults[j].candidate == l.entries[|l.scanRequests| + j].candidate
      {
        var slot := ClaimSlot(l, j);
      }
    }
  }

  ghost predicate ClaimsAreEntries(l: Ledger) {
    && |l.entries| == |l.scanRequests| + |l.claimResults|
    && forall j | 0 <= j < |l.claimResults| :: l.claimResults[j].candidate == l.entries[|l.scanRequests| + j].candidate
  }

  lemma ClaimFences(l: Ledger)
    ensures Entries(l) && Claims(l) ==> FencedClaims(l)
  {
    ClaimEntries(l);
    if Entries(l) && ClaimsAreEntries(l) {
      forall j | 0 <= j < |l.claimResults| ensures l.claimResults[j].candidate.fence == |l.scanRequests| + j + 1 {
        var e := l.entries[|l.scanRequests| + j];
      }
    }
  }

  /** The claims are the entries after the scans, with the fences that follow. */
  ghost predicate FencedClaims(l: Ledger) {
    && ClaimsAreEntries(l)
    && forall j | 0 <= j < |l.claimResults| :: l.claimResults[j].candidate.fence == |l.scanRequests| + j + 1
  }

  lemma FencedAreRanked(l: Ledger, operation: Digest)
    requires FencedClaims(l) && |l.claimRequests| == |l.claimResults|
    requires forall j | 0 <= j < |l.claimRequests| :: l.claimRequests[j].expireOperationId == operation
    ensures ClaimsOn(l.claimRequests, l.claimResults, operation) == RankedClaims(l, operation)
    ensures RankedClaims(l, operation) == StoredClaims(l)
  {
    ClaimsOnAll(l.claimRequests, l.claimResults, operation);
    var claims := ClaimsOn(l.claimRequests, l.claimResults, operation);
    assert forall j | 0 <= j < |claims| :: ClaimFence(claims[j]) == |l.scanRequests| + j + 1;
    Sorting.OrderedIsFixed(Sorting.ByKey(ClaimFence), claims);
  }

  ghost function StoredClaims(l: Ledger): seq<Claim>
    requires |l.claimRequests| == |l.claimResults|
  {
    seq(|l.claimRequests|, j requires 0 <= j < |l.claimRequests| => ClaimAt(l, j))
  }

  /** All claims are on one operation, and are stored in fence order. */
  ghost predicate StoredInOrder(l: Ledger) {
    && |l.claimRequests| == |l.claimResults| > 0
    && (forall j | 0 <= j < |l.claimRequests| ::
          l.claimRequests[j].expireOperationId == l.claimRequests[0].expireOperationId)
    && RankedClaims(l, l.claimRequests[0].expireOperationId) == StoredClaims(l)
  }

  /** Under the invariant the claims are already in fence order. */
  lemma RankedIsStored(l: Ledger)
    ensures Entries(l) && Claims(l) && l.claimRequests != [] ==> StoredInOrder(l)
  {
    ClaimFences(l);
    if Entries(l) && Claims(l) && l.claimRequests != [] {
      FencedAreRanked(l, l.claimRequests[0].expireOperationId);
    }
  }

  lemma ClaimsAreValid(l: Ledger)
    requires Claims(l)
    ensures ValidClaims(l)
  {
    forall j | 0 <= j < |l.claimRequests| ensures ValidClaimResultFor(l.claimResults[j], l.claimRequests[j]) {
      var slot := ClaimSlot(l, j);
    }
  }

  lemma OrderedTakeovers(l: Ledger)
    requires StoredInOrder(l)
    requires forall i, j | 0 <= i < j < |l.claimResults| && j == i + 1 ::
               l.claimResults[i].candidate.leaseUntil <= l.claimResults[j].candidate.issuedAt
    ensures ValidTakeovers(l)
  {
  }

  lemma TakeoversAreValid(l: Ledger)
    requires Entries(l) && Claims(l)
    ensures ValidTakeovers(l)
  {
    RankedIsStored(l);
    if l.claimRequests != [] {
      OrderedTakeovers(l);
    }
  }

  lemma NewestPointerIsValid(l: Ledger)
    requires Entries(l) && Claims(l) && l.claimRequests != []
    ensures |l.pointers| == 1 && ValidPointer(l.pointers[0])
    ensures l.pointers[0].expireOperationId == l.claimRequests[0].expireOperationId
  {
    var n := |l.claimRequests|;
    var slot, entry := ClaimSlot(l, n - 1), l.entries[|l.scanRequests| + n - 1];
  }

  lemma PointsToNewest(l: Ledger, operation: Digest)
    requires |l.claimRequests| == |l.claimResults| > 0
    requires forall j | 0 <= j < |l.claimRequests| :: l.claimRequests[j].expireOperationId == operation
    requires |l.pointers| == 1 && ValidPointer(l.pointers[0]) && l.pointers[0].expireOperationId == operation
    requires var ranked := RankedClaims(l, operation);
      ranked != [] && l.pointers[0] == PointerOf(ranked[|ranked| - 1], |ranked|)
    ensures ValidPointers(l)
  {
    assert PointedOperations(l.pointers) == {operation};
    assert l.claimRequests[0].expireOperationId == operation;
    assert ClaimedOperations(l.claimRequests) == {operation};
  }

  lemma NewestIsRankedLast(l: Ledger)
    requires StoredInOrder(l) && l.pointers == CurrentPointers(l)
    ensures var ranked := RankedClaims(l, l.claimRequests[0].expireOperationId);
      ranked != [] && l.pointers[0] == PointerOf(ranked[|ranked| - 1], |ranked|)
  {
  }

  lemma NoPointers(l: Ledger)
    requires |l.claimRequests| == |l.claimResults| == |l.pointers| == 0
    ensures ValidPointers(l)
  {
    assert ClaimedOperations(l.claimRequests) == {};
  }

  lemma PointersAreValid(l: Ledger)
    requires Entries(l) && Claims(l)
    ensures ValidPointers(l)
  {
    if l.claimRequests == [] {
      NoPointers(l);
    } else {
      RankedIsStored(l);
      NewestIsRankedLast(l);
      NewestPointerIsValid(l);
      PointsToNewest(l, l.claimRequests[0].expireOperationId);
    }
  }

  lemma PersistedParts(l: Ledger)
    requires EvidencePerScan(l) && FencedClaims(l)
    ensures PersistedCandidates(l) == EntryCandidates(l.entries)
  {
  }

  lemma EntriesArePersisted(l: Ledger)
    ensures Entries(l) && Scans(l) && Claims(l) ==>
              |l.scanRequests| == |l.scanResults| && PersistedCandidates(l) == EntryCandidates(l.entries)
  {
    LedgerEvidence(l);
    ClaimFences(l);
    if Entries(l) && Scans(l) && Claims(l) {
      PersistedParts(l);
    }
  }

  lemma ProjectionIsValid(l: Ledger)
    requires Entries(l) && Scans(l) && Claims(l)
    ensures ValidProjection(l)
  {
    EntriesArePersisted(l);
    forall i | 0 <= i < |l.entries| ensures CandidateFence(EntryCandidates(l.entries)[i]) == i + 1 {
      assert l.entries[i].candidate.fence == i + 1;
    }
    Sorting.OrderedIsFixed(Sorting.ByKey(CandidateFence), EntryCandidates(l.entries));
  }

  lemma LedgerIsValid(l: Ledger)
    requires LedgerInv(l)
    ensures ValidLedger(l)
  {
    ScansAreValid(l);
    SealsAreValid(l);
    AllocationsAreValid(l);
    ProvenanceIsValid(l);
    ClaimsAreValid(l);
    TakeoversAreValid(l);
    PointersAreValid(l);
    ProjectionIsValid(l);
  }

  /******* The snapshot *******/

  /** Nothing is committed yet: only scans have been recorded, at versions up to the present one, and
      the candidate on the hold is the last entry or, after a version advance, nobody. */
  ghost predicate Open(s: Snapshot) {
    var l, h, n := s.ledger, s.hold, |s.ledger.entries|;
    && s.commits == [] && s.audit == [] && s.outbox == [] && l.claimRequests == []
    && (forall i | 0 <= i < n :: l.entries[i].consumed.None? && l.entries[i].candidate.due.version <= h.version)
    && (match h.candidate
        case Some(c) => n > 0 && c == l.entries[n - 1].candidate
        case None => forall i | 0 <= i < n :: l.entries[i].candidate.due.version < h.version)
  }

  /** The entry that the commit consumed: the last scan. */
  ghost function Tombstone(l: Ledger): (e: Entry)
    requires 0 < |l.scanRequests| <= |l.entries|
  {
    l.entries[|l.scanRequests| - 1]
  }

  /** Exactly one commit, with its tombstone, its two events and the claims that followed it. */
  ghost predicate Closed(s: Snapshot) {
    var l, h := s.ledger, s.hold;
    && |s.commits| == 1
    && 0 < |l.scanRequests| <= |l.entries|
    && |l.claimRequests| == |l.claimResults|
    && var commit, e := s.commits[0], Tombstone(l);
    && s.audit == [EventOf(AUDIT, commit)] && s.outbox == [EventOf(OUTBOX, commit)]
    && e.consumed == Some(Consumption(commit.expireOperationId, commit.committedAt))
    && (forall i | 0 <= i < |l.entries| && i != |l.scanRequests| - 1 :: l.entries[i].consumed.None?)
    && CommitMatchesEntry(commit, e)
    && commit.result.artifactId == h.artifactId && commit.result.holdId == h.holdId
    && HoldReflects(h, commit, e.candidate)
    && (forall j | 0 <= j < |l.claimRequests| ::
          && l.claimRequests[j].expireOperationId == commit.expireOperationId
          && ClaimFollowsCommit(l.claimRequests[j], l.claimResults[j], commit, h))
  }

  ghost predicate SnapshotInv(s: Snapshot) {
    ValidHold(s.hold) && LedgerInv(s.ledger) && (Open(s) || Closed(s))
  }

  lemma OpenHoldCandidate(s: Snapshot)
    requires ValidHold(s.hold) && LedgerInv(s.ledger) && Open(s)
    ensures ValidHoldCandidate(s.hold, s.ledger)
    ensures s.hold.status == ACTIVE ==> s.hold.candidate == Latest(s.ledger.entries, [], s.hold)
  {
    var l, h, n := s.ledger, s.hold, |s.ledger.entries|;
    if h.candidate.Some? {
      var entry := l.entries[n - 1];
      assert l.entries[n - 1] == Entry(h.candidate.value, None);
      assert Qualifies(l.entries[n - 1], l.claimResults, h);
      LatestIsLast(l.entries, l.claimResults, h);
    } else {
      LatestIsLargest(l.entries, l.claimResults, h);
    }
  }

  /** The conjunction of the snapshot's checks, gathered from its parts. */
  lemma Gather(s: Snapshot)
    requires ValidHold(s.hold) && ValidLedger(s.ledger) && ValidHoldCandidate(s.hold, s.ledger)
    requires ValidCommits(s.commits) && ValidClaimEvidence(s) && ValidTombstones(s.ledger.entries, s.commits)
    requires ValidCommitEvidence(s)
    requires ValidEvents(s.audit, AUDIT, s.commits) && ValidEvents(s.outbox, OUTBOX, s.commits)
    ensures ValidSnapshot(s)
  {
  }

  lemma OpenRest(s: Snapshot)
    requires Open(s) && |s.ledger.claimResults| == 0
    ensures ValidCommits(s.commits) && ValidClaimEvidence(s) && ValidTombstones(s.ledger.entries, s.commits)
    ensures ValidCommitEvidence(s)
    ensures ValidEvents(s.audit, AUDIT, s.commits) && ValidEvents(s.outbox, OUTBOX, s.commits)
  {
    assert ConsumedOperations(s.ledger.entries) == {};
  }

  lemma OpenIsValid(s: Snapshot)
    requires ValidHold(s.hold) && LedgerInv(s.ledger) && Open(s)
    ensures ValidSnapshot(s)
  {
    LedgerIsValid(s.ledger);
    OpenHoldCandidate(s);
    OpenRest(s);
    Gather(s);
  }

  /** The claim entries of a ledger are the replay candidates. */
  lemma ReplayCandidatesAreLater(l: Ledger, i: nat)
    requires LedgerInv(l) && i < |l.entries|
    ensures IsReplayCandidate(l.entries[i].candidate, l.claimResults) <==> |l.scanRequests| <= i
  {
    ClaimFences(l);
    LaterIsReplay(l, i);
  }

  lemma LaterIsReplay(l: Ledger, i: nat)
    requires FencedClaims(l) && i < |l.entries| && l.entries[i].candidate.fence == i + 1
    ensures IsReplayCandidate(l.entries[i].candidate, l.claimResults) <==> |l.scanRequests| <= i
  {
    if |l.scanRequests| <= i {
      assert l.claimResults[i - |l.scanRequests|].candidate == l.entries[i].candidate;
    }
  }

  lemma NothingIsNewer(s: Snapshot)
    requires LedgerInv(s.ledger) && Closed(s)
    ensures NothingNewer(Tombstone(s.ledger), s.ledger)
  {
    var l := s.ledger;
    forall i | 0 <= i < |l.entries|
      ensures i < |l.scanRequests| - 1 ==> l.entries[i].candidate.fence < Tombstone(l).candidate.fence
      ensures |l.scanRequests| <= i ==> IsReplayCandidate(l.entries[i].candidate, l.claimResults)
    {
      ReplayCandidatesAreLater(l, i);
      assert l.entries[i].candidate.fence == i + 1;
    }
  }

  lemma ClosedTombstones(s: Snapshot)
    requires Closed(s)
    ensures ValidTombstones(s.ledger.entries, s.commits)
  {
    var l := s.ledger;
    var k, operation := |l.scanRequests| - 1, s.commits[0].expireOperationId;
    assert ConsumedOperations(l.entries) == {operation} by {
      assert l.entries[k].consumed.value.operation == operation;
    }
    assert CommittedOperations(s.commits) == {operation} by {
      assert s.commits[0].expireOperationId == operation;
    }
  }

  lemma ClosedClaims(s: Snapshot)
    requires Closed(s)
    ensures ValidClaimEvidence(s)
  {
    forall j | 0 <= j < |s.ledger.claimRequests|
      ensures FollowsSomeCommit(s.ledger.claimRequests[j], s.ledger.claimResults[j], s.commits, s.hold)
    {
      var follows := ClaimFollowsCommit(s.ledger.claimRequests[j], s.ledger.claimResults[j], s.commits[0], s.hold);
    }
  }

  lemma ClosedEvents(s: Snapshot)
    requires Closed(s)
    ensures ValidEvents(s.audit, AUDIT, s.commits) && ValidEvents(s.outbox, OUTBOX, s.commits)
  {
    assert ValidCommit(s.commits[0]) && ValidExpiryResult(s.commits[0].result);
  }

  lemma ClosedCommits(s: Snapshot)
    requires Closed(s) && NothingNewer(Tombstone(s.ledger), s.ledger)
    ensures ValidCommits(s.commits) && ValidHoldCandidate(s.hold, s.ledger)
    ensures ValidCommitEvidence(s)
  {
    forall i, k | 0 <= i < |s.commits| && 0 <= k < |s.ledger.entries| && s.ledger.entries[k].consumed.Some?
      ensures s.commits[i] == s.commits[0] && s.ledger.entries[k] == Tombstone(s.ledger)
    {
    }
  }

  lemma ClosedIsValid(s: Snapshot)
    requires ValidHold(s.hold) && LedgerInv(s.ledger) && Closed(s)
    ensures ValidSnapshot(s)
  {
    LedgerIsValid(s.ledger);
    ClosedTombstones(s);
    ClosedClaims(s);
    ClosedEvents(s);
    NothingIsNewer(s);
    ClosedCommits(s);
    Gather(s);
  }

  /** The invariant implies everything that the closing validation checks. */
  lemma InvariantImpliesValid(s: Snapshot)
    requires SnapshotInv(s)
    ensures ValidSnapshot(s)
  {
    if Open(s) {
      OpenIsValid(s);
    } else {
      ClosedIsValid(s);
    }
  }
}
