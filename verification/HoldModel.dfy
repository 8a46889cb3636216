/** The persisted snapshot of the artifact-hold expiry protocol, and what its `validate`
    methods accept.

    A SHA-256 digest is ideal: it *is* the tuple it was computed from, so equal digests
    mean equal contents. `Foreign` stands for a digest the protocol did not compute, such
    as the scan operation ID that a caller picks. The digest a record carries of itself is
    left out, because `validate` fixes it to be a function of the other fields. */
module HoldModel {
  import opened Wrappers
  import opened Text
  import Utf8
  import Sorting

  const CANDIDATE_LEASE_MAX_MS: int := 300_000
  const REAPER_COMPONENT_TYPE := "artifact-hold-reaper"
  const REAPER_PRINCIPAL_ID := "component:artifact-hold-reaper"
  const EXPIRY_SUBJECT := "a2a.v1.state.artifact.hold.expire"

  /** A canonical 32-byte base64url bearer value. */
  datatype Token = Token(id: nat)

  /** The five fields that name one expiry of one hold incarnation. */
  datatype Due = Due(artifactId: string, holdId: string, holdDigest: Digest, version: int, expiresMs: int)

  datatype Sink = AUDIT | OUTBOX

  datatype Digest =
    | Foreign(id: nat)
    | ExpireOperation(due: Due)
    | ReplayOperation(expireOperation: Digest, leaseId: Token)
    | OfScanRequest(scanOperation: Digest, maxCandidates: int, scanKey: Digest)
    | OfExpireRequest(operation: Digest, requestDue: Due, expireKey: Digest)
    | OfClaimRequest(replayOperation: Digest, claimedOperation: Digest, base: Digest, claimedDue: Due,
                     claimLeaseId: Token, claimToken: Token, claimKey: Digest)
    | OfCandidate(candidate: Candidate)
    | OfScanResult(scanResult: ScanResult)
    | OfClaimResult(claimResult: ClaimResult)
    | OfExpiryResult(expiryResult: ExpiryResult)
    | OfCommit(commit: Commit)
    | EventId(sink: Sink, eventOperation: Digest)

  datatype ScanRequest = ScanRequest(
    scanOperationId: Digest, maxCandidates: int, idempotencyKey: Digest, requestDigest: Digest)

  /** A lease on one expiry: who may act, until when, and with which fence. */
  datatype Candidate = Candidate(
    scanOperationId: Digest, leaseId: Token, fence: int, token: Token,
    ownerPrincipal: string, ownerInstance: string, issuedAt: int, leaseUntil: int, due: Due)

  datatype ScanResult = ScanResult(scanOperationId: Digest, requestDigest: Digest, candidates: seq<Candidate>)

  /** The seal stored beside a scan candidate. */
  datatype Seal = Seal(
    scanOperationId: Digest, leaseId: Token, token: Token, candidateDigest: Digest, resultDigest: Digest,
    ownerPrincipal: string, ownerInstance: string, fence: int, issuedAt: int, leaseUntil: int)

  datatype Allocation = Allocation(request: ScanRequest, candidate: Candidate, previousHighWater: int)

  datatype ClaimRequest = ClaimRequest(
    replayOperationId: Digest, expireOperationId: Digest, baseCommitDigest: Digest, due: Due,
    leaseId: Token, token: Token, idempotencyKey: Digest, requestDigest: Digest)

  datatype ClaimResult = ClaimResult(
    replayOperationId: Digest, expireOperationId: Digest, baseCommitDigest: Digest, requestDigest: Digest,
    candidate: Candidate)

  datatype Claim = Claim(request: ClaimRequest, result: ClaimResult)

  /** The stored pointer to the claim that currently holds replay authority. */
  datatype Pointer = Pointer(
    expireOperationId: Digest, replayOperationId: Digest, baseCommitDigest: Digest, requestDigest: Digest,
    leaseId: Token, token: Token, candidateDigest: Digest, resultDigest: Digest,
    ownerPrincipal: string, ownerInstance: string, fence: int, issuedAt: int, leaseUntil: int, revision: int)

  datatype Consumption = Consumption(operation: Digest, atMs: int)

  datatype Entry = Entry(candidate: Candidate, consumed: Option<Consumption>)

  datatype Ledger = Ledger(
    highWater: int,
    scanRequests: seq<ScanRequest>, scanResults: seq<ScanResult>,
    entries: seq<Entry>,
    claimRequests: seq<ClaimRequest>, claimResults: seq<ClaimResult>,
    pointers: seq<Pointer>, seals: seq<Seal>, allocations: seq<Allocation>)

  const EMPTY_LEDGER := Ledger(0, [], [], [], [], [], [], [], [])

  datatype ExpireRequest = ExpireRequest(
    expireOperationId: Digest, due: Due, scanOperationId: Digest, leaseId: Token, fence: int, token: Token,
    idempotencyKey: Digest, requestDigest: Digest)

  datatype HoldStatus = ACTIVE | RELEASED | EXPIRED

  datatype Lifecycle = PENDING_UPLOAD | AVAILABLE | QUARANTINED | DELETING | DELETED | FAILED

  datatype Hold = Hold(
    artifactId: string, version: int, lifecycle: Lifecycle, holdId: string, holdDigest: Digest,
    status: HoldStatus, expires: Option<int>, activeHoldIds: set<string>, refCount: int,
    minimumDeleteAt: Option<int>, dueIndexed: bool, dueScore: Option<int>, candidate: Option<Candidate>)

  datatype ExpiryResult = ExpiryResult(
    expireOperationId: Digest, artifactId: string, holdId: string, requestDigest: Digest,
    version: int, retentionLocked: bool)

  datatype Commit = Commit(
    expireOperationId: Digest, requestDigest: Digest, expectedHoldDigest: Digest, candidateDigest: Digest,
    principal: string, fence: int, previousVersion: int, remainingHolds: int, refCount: int,
    minimumDeleteAt: Option<int>, committedAt: int, result: ExpiryResult)

  datatype Event = Event(
    sink: Sink, eventId: Digest, expireOperationId: Digest, artifactId: string, holdId: string, version: int,
    resultDigest: Digest, commitDigest: Digest, recordedAt: int)

  datatype Snapshot = Snapshot(
    hold: Hold, ledger: Ledger, commits: seq<Commit>, audit: seq<Event>, outbox: seq<Event>)

  /******* Records *******/

  predicate ValidDue(d: Due) {
    Stable(d.artifactId) && Stable(d.holdId) && SafeInteger(1, d.version) && SafeInteger(0, d.expiresMs)
  }

  predicate ValidScanRequest(r: ScanRequest) {
    && 1 <= r.maxCandidates <= 100
    && r.idempotencyKey == r.scanOperationId
    && r.requestDigest == OfScanRequest(r.scanOperationId, r.maxCandidates, r.idempotencyKey)
  }

  /** The checks that candidates, seals and pointers share. */
  predicate ValidLease(leaseId: Token, token: Token, fence: int, principal: string, instance: string,
                       issuedAt: int, leaseUntil: int)
  {
    && leaseId != token
    && SafeInteger(1, fence)
    && Stable(principal) && Stable(instance)
    && SafeInteger(0, issuedAt) && SafeInteger(0, leaseUntil)
    && issuedAt < leaseUntil <= issuedAt + CANDIDATE_LEASE_MAX_MS
  }

  predicate ValidCandidate(c: Candidate) {
    && ValidLease(c.leaseId, c.token, c.fence, c.ownerPrincipal, c.ownerInstance, c.issuedAt, c.leaseUntil)
    && ValidDue(c.due)
  }

  /** The order of scan results: by artifact, then by hold, as UTF-8 bytes. */
  predicate DueKeyLess(a: Due, b: Due) {
    || Utf8.Less(Utf8.Encode(a.artifactId), Utf8.Encode(b.artifactId))
    || (Utf8.Encode(a.artifactId) == Utf8.Encode(b.artifactId)
        && Utf8.Less(Utf8.Encode(a.holdId), Utf8.Encode(b.holdId)))
  }

  /** Leases and tokens live in one namespace. */
  predicate SharesBearer(a: Candidate, b: Candidate) {
    a.leaseId in {b.leaseId, b.token} || a.token in {b.leaseId, b.token}
  }

  predicate ValidScanResult(r: ScanResult) {
    && (forall i | 0 <= i < |r.candidates| ::
          ValidCandidate(r.candidates[i]) && r.candidates[i].scanOperationId == r.scanOperationId)
    && (forall i, j | 0 <= i < j < |r.candidates| ::
          !SharesBearer(r.candidates[i], r.candidates[j]) && r.candidates[i].fence != r.candidates[j].fence)
    && (forall i, j | 0 <= i < |r.candidates| && 0 <= j < |r.candidates| && j - i == 1 ::
          DueKeyLess(r.candidates[i].due, r.candidates[j].due))
  }

  predicate ValidScanResultFor(r: ScanResult, request: ScanRequest) {
    && ValidScanRequest(request)
    && ValidScanResult(r)
    && r.scanOperationId == request.scanOperationId
    && r.requestDigest == request.requestDigest
    && |r.candidates| <= request.maxCandidates
  }

  predicate ValidSeal(s: Seal) {
    ValidLease(s.leaseId, s.token, s.fence, s.ownerPrincipal, s.ownerInstance, s.issuedAt, s.leaseUntil)
  }

  function SealOf(request: ScanRequest, result: ScanResult, c: Candidate): Seal {
    Seal(request.scanOperationId, c.leaseId, c.token, OfCandidate(c), OfScanResult(result),
         c.ownerPrincipal, c.ownerInstance, c.fence, c.issuedAt, c.leaseUntil)
  }

  predicate ValidAllocation(a: Allocation) {
    && ValidScanRequest(a.request)
    && ValidCandidate(a.candidate)
    && SafeInteger(0, a.previousHighWater)
    && a.candidate.scanOperationId == a.request.scanOperationId
    && a.previousHighWater < a.candidate.fence
  }

  predicate ValidClaimRequest(r: ClaimRequest) {
    && ValidDue(r.due)
    && r.leaseId != r.token
    && r.idempotencyKey == r.replayOperationId
    && r.expireOperationId == ExpireOperation(r.due)
    && r.replayOperationId == ReplayOperation(r.expireOperationId, r.leaseId)
    && r.requestDigest == OfClaimRequest(r.replayOperationId, r.expireOperationId, r.baseCommitDigest,
                                         r.due, r.leaseId, r.token, r.idempotencyKey)
  }

  predicate ValidClaimResultFor(r: ClaimResult, request: ClaimRequest) {
    && ValidClaimRequest(request)
    && ValidCandidate(r.candidate)
    && r.candidate.scanOperationId == r.replayOperationId
    && r.replayOperationId == request.replayOperationId
    && r.expireOperationId == request.expireOperationId
    && r.baseCommitDigest == request.baseCommitDigest
    && r.requestDigest == request.requestDigest
    && r.candidate.leaseId == request.leaseId
    && r.candidate.token == request.token
    && r.candidate.due == request.due
  }

  predicate ValidPointer(p: Pointer) {
    && ValidLease(p.leaseId, p.token, p.fence, p.ownerPrincipal, p.ownerInstance, p.issuedAt, p.leaseUntil)
    && SafeInteger(1, p.revision)
  }

  function PointerOf(claim: Claim, revision: int): Pointer {
    var c := claim.result.candidate;
    Pointer(claim.request.expireOperationId, claim.request.replayOperationId, claim.request.baseCommitDigest,
            claim.request.requestDigest, c.leaseId, c.token, OfCandidate(c), OfClaimResult(claim.result),
            c.ownerPrincipal, c.ownerInstance, c.fence, c.issuedAt, c.leaseUntil, revision)
  }

  predicate ValidExpireRequest(r: ExpireRequest) {
    && ValidDue(r.due)
    && r.leaseId != r.token
    && SafeInteger(1, r.fence)
    && r.expireOperationId == ExpireOperation(r.due)
    && r.idempotencyKey == r.expireOperationId
    && r.requestDigest == OfExpireRequest(r.expireOperationId, r.due, r.idempotencyKey)
  }

  /** The request a lease holder sends for its candidate. */
  function ExpireRequestFor(c: Candidate): ExpireRequest {
    var id := ExpireOperation(c.due);
    ExpireRequest(id, c.due, c.scanOperationId, c.leaseId, c.fence, c.token, id, OfExpireRequest(id, c.due, id))
  }

  predicate Binds(r: ExpireRequest, c: Candidate) {
    && r.due == c.due
    && r.scanOperationId == c.scanOperationId
    && r.leaseId == c.leaseId
    && r.fence == c.fence
    && r.token == c.token
  }

  /******* The hold *******/

  predicate RetentionLockedAt(h: Hold, now: int) {
    || h.activeHoldIds != {}
    || h.refCount > 0
    || (h.minimumDeleteAt.Some? && now < h.minimumDeleteAt.value)
  }

  predicate ValidHold(h: Hold) {
    && Stable(h.artifactId) && SafeInteger(1, h.version) && Stable(h.holdId)
    && (h.expires.Some? ==> SafeInteger(0, h.expires.value))
    && (forall id | id in h.activeHoldIds :: Stable(id))
    && SafeInteger(0, h.refCount)
    && (h.minimumDeleteAt.Some? ==> SafeInteger(0, h.minimumDeleteAt.value))
    && (h.dueScore.Some? ==> SafeInteger(0, h.dueScore.value))
    && (h.status == ACTIVE <==> h.holdId in h.activeHoldIds)
    && (if h.status == ACTIVE && h.expires.Some?
        then h.dueIndexed && h.dueScore == h.expires
        else !h.dueIndexed && h.dueScore == None)
    && (h.candidate.Some? ==>
          && ValidCandidate(h.candidate.value)
          && h.status == ACTIVE
          && IsDueOf(h.candidate.value.due, h))
  }

  /** `d` is the due tuple of the hold as it stands. */
  predicate IsDueOf(d: Due, h: Hold) {
    && d.artifactId == h.artifactId && d.holdId == h.holdId && d.holdDigest == h.holdDigest
    && d.version == h.version && h.expires == Some(d.expiresMs)
  }

  /** The same hold incarnation, at whatever artifact version. */
  predicate SameHold(a: Due, b: Due) {
    a.artifactId == b.artifactId && a.holdId == b.holdId && a.holdDigest == b.holdDigest
    && a.expiresMs == b.expiresMs
  }

  /******* The candidate ledger *******/

  datatype Evidence = Evidence(request: ScanRequest, result: ScanResult, candidate: Candidate)

  function EvidenceIn(request: ScanRequest, result: ScanResult): seq<Evidence> {
    seq(|result.candidates|, k requires 0 <= k < |result.candidates| =>
          Evidence(request, result, result.candidates[k]))
  }

  function EvidenceOf(requests: seq<ScanRequest>, results: seq<ScanResult>): seq<Evidence>
    requires |requests| == |results|
  {
    if requests == [] then []
    else
      var last := |requests| - 1;
      EvidenceOf(requests[..last], results[..last]) + EvidenceIn(requests[last], results[last])
  }

  predicate ValidScans(l: Ledger) {
    && |l.scanRequests| == |l.scanResults|
    && (forall i | 0 <= i < |l.scanRequests| :: ValidScanResultFor(l.scanResults[i], l.scanRequests[i]))
    && (forall i, j | 0 <= i < j < |l.scanRequests| ::
          l.scanRequests[i].scanOperationId != l.scanRequests[j].scanOperationId)
    && var evidence := EvidenceOf(l.scanRequests, l.scanResults);
       forall i, j | 0 <= i < j < |evidence| :: evidence[i].candidate.leaseId != evidence[j].candidate.leaseId
  }

  function EvidenceLeases(evidence: seq<Evidence>): set<Token> {
    set i | 0 <= i < |evidence| :: evidence[i].candidate.leaseId
  }

  function SealedLeases(seals: seq<Seal>): set<Token> {
    set i | 0 <= i < |seals| :: seals[i].leaseId
  }

  function AllocatedLeases(allocations: seq<Allocation>): set<Token> {
    set i | 0 <= i < |allocations| :: allocations[i].candidate.leaseId
  }

  predicate ValidSeals(seals: seq<Seal>, evidence: seq<Evidence>) {
    && (forall i | 0 <= i < |seals| :: ValidSeal(seals[i]))
    && (forall i, j | 0 <= i < j < |seals| :: seals[i].leaseId != seals[j].leaseId)
    && SealedLeases(seals) == EvidenceLeases(evidence)
    && (forall i, k | 0 <= i < |seals| && 0 <= k < |evidence| ::
          seals[i].leaseId == evidence[k].candidate.leaseId ==>
            seals[i] == SealOf(evidence[k].request, evidence[k].result, evidence[k].candidate))
  }

  predicate ValidAllocations(allocations: seq<Allocation>, evidence: seq<Evidence>) {
    && (forall i | 0 <= i < |allocations| :: ValidAllocation(allocations[i]))
    && (forall i, j | 0 <= i < j < |allocations| ::
          allocations[i].candidate.leaseId != allocations[j].candidate.leaseId)
    && AllocatedLeases(allocations) == EvidenceLeases(evidence)
    && (forall i, k | 0 <= i < |allocations| && 0 <= k < |evidence| ::
          allocations[i].candidate.leaseId == evidence[k].candidate.leaseId ==>
            allocations[i].request == evidence[k].request && allocations[i].candidate == evidence[k].candidate)
  }

  predicate ValidClaims(l: Ledger) {
    && |l.claimRequests| == |l.claimResults|
    && (forall j | 0 <= j < |l.claimRequests| :: ValidClaimResultFor(l.claimResults[j], l.claimRequests[j]))
    && (forall i, j | 0 <= i < j < |l.claimRequests| ::
          l.claimRequests[i].replayOperationId != l.claimRequests[j].replayOperationId)
    && (forall i, j | 0 <= i < |l.scanRequests| && 0 <= j < |l.claimRequests| ::
          l.scanRequests[i].scanOperationId != l.claimRequests[j].replayOperationId)
  }

  /** The claims on one expiry, in the order they were stored. */
  function ClaimsOn(requests: seq<ClaimRequest>, results: seq<ClaimResult>, operation: Digest): seq<Claim>
    requires |requests| == |results|
  {
    if requests == [] then []
    else
      var last := |requests| - 1;
      ClaimsOn(requests[..last], results[..last], operation)
      + if requests[last].expireOperationId == operation then [Claim(requests[last], results[last])] else []
  }

  function ClaimFence(c: Claim): int {
    c.result.candidate.fence
  }

  function CandidateFence(c: Candidate): int {
    c.fence
  }

  function RankedClaims(l: Ledger, operation: Digest): seq<Claim>
    requires |l.claimRequests| == |l.claimResults|
  {
    Sorting.SortBy(ClaimFence, ClaimsOn(l.claimRequests, l.claimResults, operation))
  }

  /** Neighbours in fence order do not overlap in time. */
  predicate Adjacent(claims: seq<Claim>) {
    forall i, j | 0 <= i < |claims| && 0 <= j < |claims| && j - i == 1 ::
      claims[i].result.candidate.leaseUntil <= claims[j].result.candidate.issuedAt
  }

  predicate ValidTakeovers(l: Ledger)
    requires |l.claimRequests| == |l.claimResults|
  {
    forall j | 0 <= j < |l.claimRequests| :: Adjacent(RankedClaims(l, l.claimRequests[j].expireOperationId))
  }

  function PointedOperations(pointers: seq<Pointer>): set<Digest> {
    set i | 0 <= i < |pointers| :: pointers[i].expireOperationId
  }

  function ClaimedOperations(requests: seq<ClaimRequest>): set<Digest> {
    set j | 0 <= j < |requests| :: requests[j].expireOperationId
  }

  predicate ValidPointers(l: Ledger)
    requires |l.claimRequests| == |l.claimResults|
  {
    && (forall i | 0 <= i < |l.pointers| :: ValidPointer(l.pointers[i]))
    && (forall i, j | 0 <= i < j < |l.pointers| ::
          l.pointers[i].expireOperationId != l.pointers[j].expireOperationId)
    && PointedOperations(l.pointers) == ClaimedOperations(l.claimRequests)
    && (forall i | 0 <= i < |l.pointers| ::
          var ranked := RankedClaims(l, l.pointers[i].expireOperationId);
          ranked != [] && l.pointers[i] == PointerOf(ranked[|ranked| - 1], |ranked|))
  }

  predicate ValidEntry(e: Entry) {
    ValidCandidate(e.candidate) && (e.consumed.Some? ==> SafeInteger(0, e.consumed.value.atMs))
  }

  predicate ValidEntries(l: Ledger) {
    && (forall i | 0 <= i < |l.entries| ::
          ValidEntry(l.entries[i]) && l.entries[i].candidate.fence <= l.highWater)
    && (forall i, j | 0 <= i < j < |l.entries| ::
          && l.entries[i].candidate.fence < l.entries[j].candidate.fence
          && !SharesBearer(l.entries[i].candidate, l.entries[j].candidate))
  }

  /** Entry k holds the allocated candidate, and the allocation names the fence stored just before it. */
  predicate AllocatedAt(entries: seq<Entry>, a: Allocation, k: nat)
    requires k < |entries|
  {
    && entries[k].candidate == a.candidate
    && a.previousHighWater == if k == 0 then 0 else entries[k - 1].candidate.fence
  }

  predicate HasProvenance(entries: seq<Entry>, a: Allocation) {
    exists k | 0 <= k < |entries| :: AllocatedAt(entries, a, k)
  }

  predicate ValidProvenance(l: Ledger) {
    forall a | 0 <= a < |l.allocations| :: HasProvenance(l.entries, l.allocations[a])
  }

  function EntryCandidates(entries: seq<Entry>): seq<Candidate> {
    seq(|entries|, i requires 0 <= i < |entries| => entries[i].candidate)
  }

  function PersistedCandidates(l: Ledger): seq<Candidate>
    requires |l.scanRequests| == |l.scanResults|
  {
    var evidence := EvidenceOf(l.scanRequests, l.scanResults);
    seq(|evidence|, i requires 0 <= i < |evidence| => evidence[i].candidate)
    + seq(|l.claimResults|, j requires 0 <= j < |l.claimResults| => l.claimResults[j].candidate)
  }

  predicate ValidProjection(l: Ledger)
    requires |l.scanRequests| == |l.scanResults|
  {
    EntryCandidates(l.entries) == Sorting.SortBy(CandidateFence, PersistedCandidates(l))
  }

  predicate ValidLedger(l: Ledger) {
    && SafeInteger(0, l.highWater)
    && ValidScans(l)
    && ValidSeals(l.seals, EvidenceOf(l.scanRequests, l.scanResults))
    && ValidAllocations(l.allocations, EvidenceOf(l.scanRequests, l.scanResults))
    && ValidClaims(l)
    && ValidTakeovers(l)
    && ValidPointers(l)
    && ValidEntries(l)
    && ValidProvenance(l)
    && ValidProjection(l)
  }

  predicate IsReplayCandidate(c: Candidate, claims: seq<ClaimResult>) {
    exists j | 0 <= j < |claims| :: claims[j].candidate == c
  }

  /******* Commits and events *******/

  predicate ValidExpiryResult(r: ExpiryResult) {
    Stable(r.artifactId) && Stable(r.holdId) && SafeInteger(1, r.version)
  }

  predicate ValidCommit(c: Commit) {
    && Stable(c.principal) && SafeInteger(1, c.fence) && SafeInteger(1, c.previousVersion)
    && SafeInteger(0, c.remainingHolds) && SafeInteger(0, c.refCount)
    && (c.minimumDeleteAt.Some? ==> SafeInteger(0, c.minimumDeleteAt.value))
    && SafeInteger(0, c.committedAt)
    && ValidExpiryResult(c.result)
  }

  /** The retention that the evidence in a commit implies at its own commit time. */
  predicate RetainedBy(c: Commit) {
    || c.remainingHolds > 0
    || c.refCount > 0
    || (c.minimumDeleteAt.Some? && c.committedAt < c.minimumDeleteAt.value)
  }

  /** `_validate_result_for_request` past its context checks: `replay` is the ledger-verified
      candidate, if there is one. */
  predicate ResultAnswers(c: Commit, r: ExpireRequest, principal: string, fence: int, replay: Option<Candidate>) {
    && ValidExpireRequest(r)
    && ValidCommit(c)
    && c.expireOperationId == r.expireOperationId
    && c.requestDigest == r.requestDigest
    && c.expectedHoldDigest == r.due.holdDigest
    && c.previousVersion == r.due.version
    && (replay.Some? && replay.value.fence == c.fence ==> OfCandidate(replay.value) == c.candidateDigest)
    && principal == c.principal
    && c.fence <= fence
    && (c.fence < fence ==>
          && replay.Some?
          && Binds(r, replay.value)
          && replay.value.ownerPrincipal == principal
          && replay.value.fence == fence)
    && c.result.expireOperationId == r.expireOperationId
    && c.result.requestDigest == r.requestDigest
    && c.result.artifactId == r.due.artifactId
    && c.result.holdId == r.due.holdId
    && c.result.version == c.previousVersion + 1
    && c.result.retentionLocked == RetainedBy(c)
  }

  function EventOf(sink: Sink, c: Commit): Event {
    Event(sink, EventId(sink, c.expireOperationId), c.expireOperationId, c.result.artifactId, c.result.holdId,
          c.result.version, OfExpiryResult(c.result), OfCommit(c), c.committedAt)
  }

  predicate ValidEvent(e: Event) {
    && e.eventId == EventId(e.sink, e.expireOperationId)
    && Stable(e.artifactId) && Stable(e.holdId) && SafeInteger(1, e.version) && SafeInteger(0, e.recordedAt)
  }

  /******* The snapshot *******/

  predicate Qualifies(e: Entry, claims: seq<ClaimResult>, h: Hold) {
    e.consumed.None? && !IsReplayCandidate(e.candidate, claims) && IsDueOf(e.candidate.due, h)
  }

  /** Python's `max` over the qualifying candidates, by fence: the first of the largest. */
  function Latest(entries: seq<Entry>, claims: seq<ClaimResult>, h: Hold): Option<Candidate> {
    if entries == [] then None
    else
      var last := entries[|entries| - 1];
      var best := Latest(entries[..|entries| - 1], claims, h);
      if Qualifies(last, claims, h) && (best.None? || best.value.fence < last.candidate.fence)
      then Some(last.candidate) else best
  }

  predicate IsOpenScan(c: Candidate, l: Ledger) {
    && !IsReplayCandidate(c, l.claimResults)
    && exists i | 0 <= i < |l.entries| :: l.entries[i] == Entry(c, None)
  }

  predicate ValidHoldCandidate(h: Hold, l: Ledger) {
    && (h.status == ACTIVE ==> h.candidate == Latest(l.entries, l.claimResults, h))
    && (h.candidate.Some? ==> IsOpenScan(h.candidate.value, l))
  }

  predicate ValidCommits(commits: seq<Commit>) {
    && (forall i | 0 <= i < |commits| :: ValidCommit(commits[i]))
    && (forall i, j | 0 <= i < j < |commits| :: commits[i].expireOperationId != commits[j].expireOperationId)
  }

  predicate ClaimFollowsCommit(request: ClaimRequest, result: ClaimResult, commit: Commit, h: Hold) {
    var c := result.candidate;
    && request.baseCommitDigest == OfCommit(commit)
    && result.baseCommitDigest == OfCommit(commit)
    && c.ownerPrincipal == commit.principal
    && c.due.artifactId == commit.result.artifactId
    && c.due.holdId == commit.result.holdId
    && c.due.holdDigest == commit.expectedHoldDigest
    && c.due.version == commit.previousVersion
    && h.expires == Some(c.due.expiresMs)
    && commit.fence < c.fence
    && commit.committedAt <= c.issuedAt
    && h.status == EXPIRED && !h.dueIndexed && h.candidate.None?
  }

  predicate FollowsSomeCommit(request: ClaimRequest, result: ClaimResult, commits: seq<Commit>, h: Hold) {
    exists i | 0 <= i < |commits| ::
      && commits[i].expireOperationId == request.expireOperationId
      && ClaimFollowsCommit(request, result, commits[i], h)
  }

  predicate ValidClaimEvidence(s: Snapshot)
    requires |s.ledger.claimRequests| == |s.ledger.claimResults|
  {
    forall j | 0 <= j < |s.ledger.claimRequests| ::
      FollowsSomeCommit(s.ledger.claimRequests[j], s.ledger.claimResults[j], s.commits, s.hold)
  }

  function ConsumedOperations(entries: seq<Entry>): set<Digest> {
    set i | 0 <= i < |entries| && entries[i].consumed.Some? :: entries[i].consumed.value.operation
  }

  function CommittedOperations(commits: seq<Commit>): set<Digest> {
    set i | 0 <= i < |commits| :: commits[i].expireOperationId
  }

  /** Tombstones and commits name the same operations, each once. */
  predicate ValidTombstones(entries: seq<Entry>, commits: seq<Commit>) {
    && (forall i, j | 0 <= i < j < |entries| && entries[i].consumed.Some? && entries[j].consumed.Some? ::
          entries[i].consumed.value.operation != entries[j].consumed.value.operation)
    && ConsumedOperations(entries) == CommittedOperations(commits)
  }

  predicate CommitMatchesEntry(commit: Commit, e: Entry)
    requires e.consumed.Some?
  {
    var c := e.candidate;
    && e.consumed.value.atMs == commit.committedAt
    && commit.fence == c.fence
    && commit.candidateDigest == OfCandidate(c)
    && c.issuedAt <= commit.committedAt < c.leaseUntil
    && c.due.expiresMs <= commit.committedAt
    && ResultAnswers(commit, ExpireRequestFor(c), c.ownerPrincipal, c.fence, None)
  }

  /** No unconsumed scan candidate for the same hold was issued after the consumed one. */
  predicate NothingNewer(e: Entry, l: Ledger) {
    forall i | 0 <= i < |l.entries| ::
      var other := l.entries[i];
      !(other.consumed.None? && !IsReplayCandidate(other.candidate, l.claimResults)
        && SameHold(other.candidate.due, e.candidate.due)
        && e.candidate.fence < other.candidate.fence)
  }

  predicate HoldReflects(h: Hold, commit: Commit, c: Candidate) {
    (commit.result.artifactId == h.artifactId && commit.result.holdId == h.holdId) ==>
      && h.holdDigest == commit.expectedHoldDigest
      && h.expires == Some(c.due.expiresMs)
      && h.status == EXPIRED
      && h.holdId !in h.activeHoldIds
      && !h.dueIndexed && h.dueScore.None? && h.candidate.None?
      && commit.result.version <= h.version
      && (h.version == commit.result.version ==>
            && commit.remainingHolds == |h.activeHoldIds|
            && commit.refCount == h.refCount
            && commit.minimumDeleteAt == h.minimumDeleteAt
            && commit.result.retentionLocked == RetentionLockedAt(h, commit.committedAt))
  }

  predicate ValidCommitEvidence(s: Snapshot) {
    forall i, k | 0 <= i < |s.commits| && 0 <= k < |s.ledger.entries|
                  && s.ledger.entries[k].consumed.Some?
                  && s.ledger.entries[k].consumed.value.operation == s.commits[i].expireOperationId ::
      && CommitMatchesEntry(s.commits[i], s.ledger.entries[k])
      && NothingNewer(s.ledger.entries[k], s.ledger)
      && HoldReflects(s.hold, s.commits[i], s.ledger.entries[k].candidate)
  }

  predicate ValidEvents(events: seq<Event>, sink: Sink, commits: seq<Commit>) {
    && |events| == |commits|
    && (forall i | 0 <= i < |events| :: events[i].sink == sink && ValidEvent(events[i]))
    && (forall i | 0 <= i < |commits| :: multiset(events)[EventOf(sink, commits[i])] == 1)
  }

  predicate ValidSnapshot(s: Snapshot) {
    && ValidHold(s.hold)
    && ValidLedger(s.ledger)
    && ValidHoldCandidate(s.hold, s.ledger)
    && ValidCommits(s.commits)
    && ValidClaimEvidence(s)
    && ValidTombstones(s.ledger.entries, s.commits)
    && ValidCommitEvidence(s)
    && ValidEvents(s.audit, AUDIT, s.commits)
    && ValidEvents(s.outbox, OUTBOX, s.commits)
  }

  /** `ArtifactHoldExpiryCASState.create`. */
  function Create(h: Hold, l: Ledger): Result<Snapshot, ()> {
    var s := Snapshot(h, l, [], [], []);
    if ValidSnapshot(s) then Ok(s) else Err(())
  }
}
