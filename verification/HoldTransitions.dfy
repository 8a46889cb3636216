/** The three transitions of the expiry protocol, branch by branch. */
module HoldTransitions {
  import opened Wrappers
  import opened Text
  import opened HoldModel

  /** Why a caller is turned away: the message of the guard that raised. */
  datatype Reason =
    | MalformedRequest | MalformedContext | ForbiddenContext
    | IdReused | NotOwner | NotActive | NoDueIndex | TooEarly | OutOfRange | BearerReused
    | NoCommit | CommitMismatch | WrongPrincipal | NotTerminal | LeaseStillLive | LeaseNotLive
    | NoCandidate | AlreadyConsumed | NotCurrentCandidate | PredicateFailed
    | Superseded | NotBound | WrongFence | WrongInstance | NoClaim | WrongResource

  /** Which consistency check over persisted or freshly built records raised. */
  datatype Check =
    | EntrySnapshot | LedgerBefore | IssuedRecord | AllocationProof | LedgerAfter
    | TombstoneCount | PointerLookup | TransitionEvidence | CommitEvidence | ClosingSnapshot

  /** `Refused`: a guard of the transition said no, checks that a newly computed number is in range
      included. `Rejected`: a validator found the snapshot itself, or the records the transition had just
      built, to be inconsistent. */
  datatype Failure = Refused(reason: Reason) | Rejected(check: Check)

  datatype Context = Context(principal: string, instance: string, component: string, subject: string, now: int)

  predicate ValidContext(ctx: Context) {
    && SafeInteger(0, ctx.now)
    && Stable(ctx.principal) && Stable(ctx.instance) && Stable(ctx.component) && Stable(ctx.subject)
  }

  predicate OnReaperChannel(ctx: Context) {
    ctx.component == REAPER_COMPONENT_TYPE && ctx.subject == EXPIRY_SUBJECT
  }

  /** The first index at which `p` holds. */
  function First<T>(xs: seq<T>, p: T -> bool): (r: Option<nat>)
    ensures r.Some? ==> r.value < |xs| && p(xs[r.value]) && forall i | 0 <= i < r.value :: !p(xs[i])
    ensures r.None? ==> forall i | 0 <= i < |xs| :: !p(xs[i])
  {
    if xs == [] then None
    else if p(xs[0]) then Some(0)
    else
      match First(xs[1..], p)
      case None => assert xs == [xs[0]] + xs[1..]; None
      case Some(i) => Some(i + 1)
  }

  function FindScan(l: Ledger, id: Digest): (r: Option<nat>)
    ensures r.Some? ==> r.value < |l.scanRequests| && l.scanRequests[r.value].scanOperationId == id
    ensures r.None? ==> forall i | 0 <= i < |l.scanRequests| :: l.scanRequests[i].scanOperationId != id
  {
    First(l.scanRequests, (q: ScanRequest) => q.scanOperationId == id)
  }

  function FindClaim(l: Ledger, id: Digest): (r: Option<nat>)
    ensures r.Some? ==> r.value < |l.claimRequests| && l.claimRequests[r.value].replayOperationId == id
    ensures r.None? ==> forall i | 0 <= i < |l.claimRequests| :: l.claimRequests[i].replayOperationId != id
  {
    First(l.claimRequests, (q: ClaimRequest) => q.replayOperationId == id)
  }

  function FindPointer(l: Ledger, operation: Digest): (r: Option<nat>)
    ensures r.Some? ==> r.value < |l.pointers| && l.pointers[r.value].expireOperationId == operation
    ensures r.None? ==> forall i | 0 <= i < |l.pointers| :: l.pointers[i].expireOperationId != operation
  {
    First(l.pointers, (p: Pointer) => p.expireOperationId == operation)
  }

  function FindCommit(s: Snapshot, operation: Digest): (r: Option<nat>)
    ensures r.Some? ==> r.value < |s.commits| && s.commits[r.value].expireOperationId == operation
    ensures r.None? ==> forall i | 0 <= i < |s.commits| :: s.commits[i].expireOperationId != operation
  {
    First(s.commits, (c: Commit) => c.expireOperationId == operation)
  }

  function FindTombstone(l: Ledger, operation: Digest): (r: Option<nat>)
    ensures r.Some? ==> r.value < |l.entries| && ConsumedBy(l.entries[r.value], operation)
    ensures r.None? ==> forall i | 0 <= i < |l.entries| :: !ConsumedBy(l.entries[i], operation)
  {
    First(l.entries, (e: Entry) => ConsumedBy(e, operation))
  }

  predicate ConsumedBy(e: Entry, operation: Digest) {
    e.consumed.Some? && e.consumed.value.operation == operation
  }

  function FindEntry(l: Ledger, leaseId: Token): (r: Option<nat>)
    ensures r.Some? ==> r.value < |l.entries| && l.entries[r.value].candidate.leaseId == leaseId
    ensures r.None? ==> forall i | 0 <= i < |l.entries| :: l.entries[i].candidate.leaseId != leaseId
  {
    First(l.entries, (e: Entry) => e.candidate.leaseId == leaseId)
  }

  /******* SCAN *******/

  function PersistedAllocations(allocations: seq<Allocation>, candidates: seq<Candidate>): seq<Allocation> {
    if candidates == [] then []
    else AllocationsOf(allocations, candidates[0]) + PersistedAllocations(allocations, candidates[1..])
  }

  function AllocationsOf(allocations: seq<Allocation>, c: Candidate): seq<Allocation> {
    if allocations == [] then []
    else (if allocations[0].candidate == c then [allocations[0]] else []) + AllocationsOf(allocations[1..], c)
  }

  function HighWaterBefore(highWater: int, candidates: seq<Candidate>, i: nat): int
    requires i <= |candidates|
  {
    if i == 0 then highWater else candidates[i - 1].fence
  }

  /** Neither bearer of `c` has been issued before, in either role. */
  predicate Unused(c: Candidate, l: Ledger) {
    forall e | 0 <= e < |l.entries| :: !SharesBearer(c, l.entries[e].candidate)
  }

  /** The i-th new candidate follows the high-water so far and brings two unused bearers. */
  predicate Appendable(l: Ledger, candidates: seq<Candidate>, allocations: seq<Allocation>, i: nat)
    requires i < |candidates| == |allocations|
  {
    var before := HighWaterBefore(l.highWater, candidates, i);
    && allocations[i].previousHighWater == before
    && before < candidates[i].fence
    && candidates[i].leaseId != candidates[i].token
    && Unused(candidates[i], l)
    && (forall j | 0 <= j < i :: !SharesBearer(candidates[i], candidates[j]))
  }

  predicate AllAppendable(l: Ledger, candidates: seq<Candidate>, allocations: seq<Allocation>)
    requires |candidates| == |allocations|
  {
    forall i | 0 <= i < |candidates| :: Appendable(l, candidates, allocations, i)
  }

  /** One State-issued allocation for each candidate, in order. */
  predicate AllocatedTo(allocations: seq<Allocation>, request: ScanRequest, candidates: seq<Candidate>) {
    && |allocations| == |candidates|
    && forall i | 0 <= i < |candidates| ::
         ValidAllocation(allocations[i]) && allocations[i].request == request
         && allocations[i].candidate == candidates[i]
  }

  function NewEntries(candidates: seq<Candidate>): seq<Entry> {
    seq(|candidates|, i requires 0 <= i < |candidates| => Entry(candidates[i], None))
  }

  function NewSeals(request: ScanRequest, result: ScanResult, candidates: seq<Candidate>): seq<Seal> {
    seq(|candidates|, i requires 0 <= i < |candidates| => SealOf(request, result, candidates[i]))
  }

  function WithScan(l: Ledger, request: ScanRequest, result: ScanResult, allocations: seq<Allocation>): Ledger {
    var cs := result.candidates;
    l.(highWater := HighWaterBefore(l.highWater, cs, |cs|),
       scanRequests := l.scanRequests + [request],
       scanResults := l.scanResults + [result],
       entries := l.entries + NewEntries(cs),
       seals := l.seals + NewSeals(request, result, cs),
       allocations := l.allocations + allocations)
  }

  /** `_record_scan`. */
  function RecordScan(l: Ledger, request: ScanRequest, result: ScanResult, allocations: seq<Allocation>)
    : Result<Ledger, Failure>
  {
    if !ValidLedger(l) then Err(Rejected(LedgerBefore)) else
    :- Need(ValidScanResultFor(result, request), Rejected(IssuedRecord));
    var cs := result.candidates;
    :- Need(AllocatedTo(allocations, request, cs), Rejected(AllocationProof));
    match FindScan(l, request.scanOperationId)
    case Some(i) =>
      :- Need(l.scanRequests[i] == request && l.scanResults[i] == result
              && PersistedAllocations(l.allocations, cs) == allocations,
              Refused(IdReused));
      Ok(l)
    case None =>
      :- Need(AllAppendable(l, cs, allocations), Refused(BearerReused));
      var updated := WithScan(l, request, result, allocations);
      :- Need(ValidLedger(updated), Rejected(LedgerAfter));
      Ok(updated)
  }

  function DueOf(h: Hold): Due
    requires h.expires.Some?
  {
    Due(h.artifactId, h.holdId, h.holdDigest, h.version, h.expires.value)
  }

  /** `_allocate_scan_candidate`, with the two random bearers as parameters. */
  function IssueCandidate(request: ScanRequest, s: Snapshot, ctx: Context, leaseId: Token, token: Token): Candidate
    requires s.hold.expires.Some?
  {
    Candidate(request.scanOperationId, leaseId, s.ledger.highWater + 1, token, ctx.principal, ctx.instance,
              ctx.now, ctx.now + CANDIDATE_LEASE_MAX_MS, DueOf(s.hold))
  }

  /** A scan ID that is already stored: the same request from the same reaper gets the same answer. */
  function StoredScan(request: ScanRequest, s: Snapshot, ctx: Context, i: nat): Result<(Snapshot, ScanResult), Failure>
    requires i < |s.ledger.scanRequests| == |s.ledger.scanResults|
  {
    var stored := s.ledger.scanResults[i];
    :- Need(s.ledger.scanRequests[i] == request, Refused(IdReused));
    :- Need(forall k | 0 <= k < |stored.candidates| ::
              stored.candidates[k].ownerPrincipal == ctx.principal
              && stored.candidates[k].ownerInstance == ctx.instance,
            Refused(NotOwner));
    Ok((s, stored))
  }

  function FreshScan(request: ScanRequest, s: Snapshot, ctx: Context, leaseId: Token, token: Token)
    : Result<(Snapshot, ScanResult), Failure>
  {
    var h := s.hold;
    :- Need(h.status == ACTIVE, Refused(NotActive));
    :- Need(h.expires.Some? && h.dueIndexed && h.dueScore.Some?, Refused(NoDueIndex));
    :- Need(h.dueScore.value <= ctx.now, Refused(TooEarly));
    var c := IssueCandidate(request, s, ctx, leaseId, token);
    :- Need(ValidCandidate(c), Refused(OutOfRange));
    var result := ScanResult(request.scanOperationId, request.requestDigest, [c]);
    :- Need(ValidScanResultFor(result, request), Rejected(IssuedRecord));
    :- Need(c.due.expiresMs <= c.issuedAt && IsDueOf(c.due, h), Rejected(IssuedRecord));
    var ledger :- RecordScan(s.ledger, request, result, [Allocation(request, c, s.ledger.highWater)]);
    var updated := s.(hold := h.(candidate := Latest(ledger.entries, [], h)), ledger := ledger);
    :- Need(ValidSnapshot(updated), Rejected(ClosingSnapshot));
    Ok((updated, result))
  }

  /** `apply_artifact_hold_expiry_scan`. The two bearers are what the random source returned,
      after the loop that redraws until they differ. */
  function ApplyScan(request: ScanRequest, s: Snapshot, ctx: Context, leaseId: Token, token: Token)
    : Result<(Snapshot, ScanResult), Failure>
    requires leaseId != token
  {
    if !ValidScanRequest(request) then Err(Refused(MalformedRequest)) else
    :- Need(ValidSnapshot(s), Rejected(EntrySnapshot));
    :- Need(ValidContext(ctx), Refused(MalformedContext));
    :- Need(OnReaperChannel(ctx) && ctx.principal == REAPER_PRINCIPAL_ID, Refused(ForbiddenContext));
    match FindScan(s.ledger, request.scanOperationId)
    case Some(i) => StoredScan(request, s, ctx, i)
    case None => FreshScan(request, s, ctx, leaseId, token)
  }

  /******* REPLAY_CLAIM *******/

  function NextRevision(l: Ledger, operation: Digest): int {
    match FindPointer(l, operation)
    case None => 1
    case Some(p) => l.pointers[p].revision + 1
  }

  function WithPointer(l: Ledger, pointer: Pointer): seq<Pointer> {
    match FindPointer(l, pointer.expireOperationId)
    case None => l.pointers + [pointer]
    case Some(p) => l.pointers[p := pointer]
  }

  function WithClaim(l: Ledger, request: ClaimRequest, result: ClaimResult, pointer: Pointer): Ledger {
    l.(highWater := result.candidate.fence,
       claimRequests := l.claimRequests + [request],
       claimResults := l.claimResults + [result],
       entries := l.entries + [Entry(result.candidate, None)],
       pointers := WithPointer(l, pointer))
  }

  /** The part of `_record_replay_claim` that stores a claim under an ID not seen before. */
  function StoreClaim(l: Ledger, request: ClaimRequest, result: ClaimResult): Result<Ledger, Failure> {
    var c := result.candidate;
    :- Need(Unused(c, l) && c.leaseId != c.token && l.highWater < c.fence, Refused(BearerReused));
    var pointer := PointerOf(Claim(request, result), NextRevision(l, request.expireOperationId));
    :- Need(ValidPointer(pointer), Refused(OutOfRange));
    var updated := WithClaim(l, request, result, pointer);
    :- Need(ValidLedger(updated), Rejected(LedgerAfter));
    Ok(updated)
  }

  /** `_record_replay_claim`. */
  function RecordClaim(l: Ledger, request: ClaimRequest, result: ClaimResult): Result<Ledger, Failure> {
    if !ValidLedger(l) then Err(Rejected(LedgerBefore)) else
    :- Need(ValidClaimResultFor(result, request), Rejected(IssuedRecord));
    match FindClaim(l, request.replayOperationId)
    case Some(i) =>
      :- Need(l.claimRequests[i] == request && l.claimResults[i] == result, Refused(IdReused));
      Ok(l)
    case None => StoreClaim(l, request, result)
  }

  /** `current_replay_claim_for_expire_operation`. */
  function CurrentClaim(l: Ledger, operation: Digest): Result<Option<Claim>, Failure>
    requires |l.claimRequests| == |l.claimResults|
  {
    var claims := ClaimsOn(l.claimRequests, l.claimResults, operation);
    if claims == [] then Ok(None)
    else
      match FindPointer(l, operation)
      case None => Err(Rejected(PointerLookup))
      case Some(p) =>
        match First(claims, (c: Claim) => c.request.replayOperationId == l.pointers[p].replayOperationId)
        case None => Err(Rejected(PointerLookup))
        case Some(i) =>
          :- Need(l.pointers[p] == PointerOf(claims[i], l.pointers[p].revision), Rejected(PointerLookup));
          Ok(Some(claims[i]))
  }

  /** The hold is the terminal state that the commit left, possibly at a later version. */
  predicate TerminalFor(h: Hold, request: ClaimRequest, commit: Commit) {
    && h.status == EXPIRED
    && h.artifactId == request.due.artifactId
    && h.holdId == request.due.holdId
    && h.holdDigest == request.due.holdDigest
    && h.expires == Some(request.due.expiresMs)
    && !h.dueIndexed
    && h.candidate.None?
    && commit.result.version <= h.version
  }

  function ClaimCandidate(request: ClaimRequest, l: Ledger, ctx: Context, leaseUntil: int): Candidate {
    Candidate(request.replayOperationId, request.leaseId, l.highWater + 1, request.token, ctx.principal,
              ctx.instance, ctx.now, leaseUntil, request.due)
  }

  function ClaimResultFor(request: ClaimRequest, c: Candidate): ClaimResult {
    ClaimResult(request.replayOperationId, request.expireOperationId, request.baseCommitDigest,
                request.requestDigest, c)
  }

  /** The commit that a new claim takes over: the guards on commit, tombstone, principal and hold. */
  function ClaimedCommit(request: ClaimRequest, s: Snapshot, ctx: Context): Result<Commit, Failure> {
    match FindCommit(s, request.expireOperationId)
    case None => Err(Refused(NoCommit))
    case Some(k) =>
      var commit := s.commits[k];
      :- Need(request.baseCommitDigest == OfCommit(commit), Refused(CommitMismatch));
      match FindTombstone(s.ledger, request.expireOperationId)
      case None => Err(Rejected(TombstoneCount))
      case Some(e) =>
        var original := s.ledger.entries[e].candidate;
        :- Need(request.due == original.due
                && request.expireOperationId == ExpireOperation(original.due)
                && commit.result.artifactId == request.due.artifactId
                && commit.result.holdId == request.due.holdId,
                Refused(CommitMismatch));
        :- Need(ctx.principal == commit.principal, Refused(WrongPrincipal));
        :- Need(TerminalFor(s.hold, request, commit), Refused(NotTerminal));
        Ok(commit)
  }

  /** The current claim, if there is one, has run out. */
  function VacantAuthority(l: Ledger, operation: Digest, now: int): Result<(), Failure>
    requires |l.claimRequests| == |l.claimResults|
  {
    var current :- CurrentClaim(l, operation);
    :- Need(current.Some? ==> current.value.result.candidate.issuedAt <= now, Refused(TooEarly));
    :- Need(current.Some? ==> current.value.result.candidate.leaseUntil <= now, Refused(LeaseStillLive));
    Ok(())
  }

  function StoredClaim(request: ClaimRequest, s: Snapshot, ctx: Context, i: nat): Result<(Snapshot, ClaimResult), Failure>
    requires i < |s.ledger.claimRequests| == |s.ledger.claimResults|
  {
    if s.ledger.claimRequests[i] != request then Err(Refused(IdReused)) else
    var c := s.ledger.claimResults[i].candidate;
    :- Need(c.ownerPrincipal == ctx.principal && c.ownerInstance == ctx.instance, Refused(NotOwner));
    Ok((s, s.ledger.claimResults[i]))
  }

  function FreshClaim(request: ClaimRequest, s: Snapshot, ctx: Context, leaseUntil: int)
    : Result<(Snapshot, ClaimResult), Failure>
    requires |s.ledger.claimRequests| == |s.ledger.claimResults|
  {
    if leaseUntil <= ctx.now then Err(Refused(LeaseNotLive)) else
    var _ :- ClaimedCommit(request, s, ctx);
    var _ :- VacantAuthority(s.ledger, request.expireOperationId, ctx.now);
    var c := ClaimCandidate(request, s.ledger, ctx, leaseUntil);
    :- Need(ValidCandidate(c), Refused(OutOfRange));
    var result := ClaimResultFor(request, c);
    :- Need(ValidClaimResultFor(result, request), Rejected(IssuedRecord));
    var ledger :- RecordClaim(s.ledger, request, result);
    var updated := s.(ledger := ledger);
    :- Need(ValidSnapshot(updated), Rejected(ClosingSnapshot));
    Ok((updated, result))
  }

  /** `apply_artifact_hold_expiry_replay_claim`. */
  function ApplyClaim(request: ClaimRequest, s: Snapshot, ctx: Context, leaseUntil: int)
    : Result<(Snapshot, ClaimResult), Failure>
  {
    if !ValidClaimRequest(request) then Err(Refused(MalformedRequest)) else
    :- Need(ValidSnapshot(s), Rejected(EntrySnapshot));
    :- Need(ValidContext(ctx) && SafeInteger(0, leaseUntil), Refused(MalformedContext));
    :- Need(OnReaperChannel(ctx), Refused(ForbiddenContext));
    match FindClaim(s.ledger, request.replayOperationId)
    case Some(i) => StoredClaim(request, s, ctx, i)
    case None => FreshClaim(request, s, ctx, leaseUntil)
  }

  /******* EXPIRE *******/

  /** The request comes under the lease that committed. */
  function CommittedAuthority(request: ExpireRequest, committed: Candidate, current: Option<Claim>, ctx: Context, fence: int)
    : Result<Candidate, Failure>
  {
    if current.Some? then Err(Refused(Superseded)) else
    :- Need(Binds(request, committed), Refused(NotBound));
    :- Need(fence == committed.fence, Refused(WrongFence));
    :- Need(ctx.instance == committed.ownerInstance, Refused(WrongInstance));
    Ok(committed)
  }

  /** The request comes under another lease, which must be the current claim. */
  function ClaimedAuthority(l: Ledger, request: ExpireRequest, committed: Candidate, current: Option<Claim>, ctx: Context, fence: int)
    : Result<Candidate, Failure>
    requires |l.claimRequests| == |l.claimResults|
  {
    match FindEntry(l, request.leaseId)
    case None => Err(Refused(NoCandidate))
    case Some(i) =>
      var c := l.entries[i].candidate;
      :- Need(l.entries[i].consumed.None?, Refused(AlreadyConsumed));
      match First(l.claimResults, (r: ClaimResult) => r.candidate == c)
      case None => Err(Refused(NoClaim))
      case Some(j) =>
        var claim := l.claimResults[j];
        :- Need(ValidClaimResultFor(claim, l.claimRequests[j]), Rejected(IssuedRecord));
        :- Need(current.Some? && claim == current.value.result, Refused(Superseded));
        :- Need(claim.expireOperationId == request.expireOperationId && committed.fence < c.fence, Refused(NoClaim));
        :- Need(Binds(request, c), Refused(NotBound));
        :- Need(c.ownerPrincipal == ctx.principal && c.ownerInstance == ctx.instance && c.fence == fence,
                Refused(WrongInstance));
        :- Need(c.issuedAt <= ctx.now < c.leaseUntil, Refused(LeaseNotLive));
        Ok(c)
  }

  function AuthorityUnder(l: Ledger, request: ExpireRequest, committed: Candidate, current: Option<Claim>, ctx: Context, fence: int)
    : Result<Candidate, Failure>
    requires |l.claimRequests| == |l.claimResults|
  {
    if request.leaseId == committed.leaseId then CommittedAuthority(request, committed, current, ctx, fence)
    else ClaimedAuthority(l, request, committed, current, ctx, fence)
  }

  /** `require_replay_authority`: the candidate in whose name the request may replay. */
  function ReplayAuthority(l: Ledger, request: ExpireRequest, ctx: Context, fence: int): Result<Candidate, Failure> {
    if !ValidLedger(l) then Err(Rejected(LedgerBefore)) else
    match FindTombstone(l, request.expireOperationId)
    case None => Err(Rejected(TombstoneCount))
    case Some(e) =>
      var committed := l.entries[e].candidate;
      :- Need(request.due == committed.due, Refused(CommitMismatch));
      :- Need(ctx.principal == committed.ownerPrincipal, Refused(WrongPrincipal));
      var current :- CurrentClaim(l, request.expireOperationId);
      AuthorityUnder(l, request, committed, current, ctx, fence)
  }

  /** `_require_expiry_predicate`. */
  predicate ExpiryPredicate(r: ExpireRequest, h: Hold, c: Candidate, ctx: Context, fence: int) {
    && Binds(r, c)
    && h.lifecycle !in {DELETING, DELETED}
    && h.status == ACTIVE
    && h.holdId in h.activeHoldIds
    && h.expires.Some?
    && h.dueIndexed && h.dueScore == h.expires
    && r.due.expiresMs <= ctx.now
    && c.issuedAt <= ctx.now < c.leaseUntil
    && c.ownerPrincipal == ctx.principal
    && c.ownerInstance == ctx.instance
    && c.fence == fence
    && IsDueOf(r.due, h)
  }

  function Expired(h: Hold): Hold {
    h.(version := h.version + 1, status := EXPIRED, activeHoldIds := h.activeHoldIds - {h.holdId},
       dueIndexed := false, dueScore := None, candidate := None)
  }

  /** The evidence that `ArtifactHoldExpiryCommit.create` demands of a transition. */
  predicate OnlyExpires(before: Hold, after: Hold, c: Candidate, result: ExpiryResult, now: int) {
    && before.artifactId == after.artifactId && before.holdId == after.holdId
    && before.lifecycle !in {DELETING, DELETED} && after.lifecycle == before.lifecycle
    && before.status == ACTIVE && before.holdId in before.activeHoldIds
    && before.dueIndexed && before.dueScore == before.expires
    && before.expires.Some? && before.expires.value <= now
    && c.issuedAt <= now < c.leaseUntil
    && after.version == before.version + 1
    && after.holdDigest == before.holdDigest && after.expires == before.expires
    && after.refCount == before.refCount && after.minimumDeleteAt == before.minimumDeleteAt
    && after.activeHoldIds == before.activeHoldIds - {before.holdId}
    && result.version == after.version
    && after.status == EXPIRED && !after.dueIndexed && after.dueScore.None? && after.candidate.None?
  }

  function CommitFor(request: ExpireRequest, c: Candidate, result: ExpiryResult, before: Hold, after: Hold, now: int)
    : Commit
  {
    Commit(request.expireOperationId, request.requestDigest, request.due.holdDigest, OfCandidate(c),
           c.ownerPrincipal, c.fence, before.version, |after.activeHoldIds|, after.refCount,
           after.minimumDeleteAt, now, result)
  }

  /** `ArtifactHoldExpiryCommit.create`. */
  function CreateCommit(request: ExpireRequest, result: ExpiryResult, before: Hold, after: Hold, now: int)
    : Result<Commit, Failure>
  {
    if !ValidExpiryResult(result) || before.candidate.None? then Err(Rejected(TransitionEvidence)) else
    var c := before.candidate.value;
    :- Need(Binds(request, c), Rejected(TransitionEvidence));
    :- Need(result.expireOperationId == request.expireOperationId
            && result.requestDigest == request.requestDigest
            && result.artifactId == request.due.artifactId
            && result.holdId == request.due.holdId,
            Rejected(TransitionEvidence));
    :- Need(OnlyExpires(before, after, c, result, now), Rejected(TransitionEvidence));
    :- Need(result.retentionLocked == RetentionLockedAt(after, now), Rejected(TransitionEvidence));
    var commit := CommitFor(request, c, result, before, after, now);
    :- Need(ValidCommit(commit), Refused(OutOfRange));
    :- Need(ResultAnswers(commit, request, c.ownerPrincipal, c.fence, None), Rejected(CommitEvidence));
    Ok(commit)
  }

  function ResultFor(request: ExpireRequest, h: Hold, now: int): ExpiryResult {
    ExpiryResult(request.expireOperationId, h.artifactId, h.holdId, request.requestDigest, h.version + 1,
                 RetentionLockedAt(Expired(h), now))
  }

  /** `_project_artifact_hold_expiry`. */
  function Project(request: ExpireRequest, h: Hold, ctx: Context, fence: int): Result<Commit, Failure> {
    if !ValidHold(h) then Err(Rejected(EntrySnapshot)) else
    :- Need(h.candidate.Some?, Refused(NoCandidate));
    :- Need(ExpiryPredicate(request, h, h.candidate.value, ctx, fence), Refused(PredicateFailed));
    :- Need(ValidHold(Expired(h)), Refused(OutOfRange));
    CreateCommit(request, ResultFor(request, h, ctx.now), h, Expired(h), ctx.now)
  }

  /** `consume_candidate`. */
  function Consume(l: Ledger, request: ExpireRequest, now: int): Result<Ledger, Failure> {
    if !ValidLedger(l) then Err(Rejected(LedgerBefore)) else
    match FindEntry(l, request.leaseId)
    case None => Err(Refused(NoCandidate))
    case Some(i) =>
      :- Need(l.entries[i].consumed.None?, Refused(AlreadyConsumed));
      :- Need(Binds(request, l.entries[i].candidate), Refused(NotBound));
      var spent := Entry(l.entries[i].candidate, Some(Consumption(request.expireOperationId, now)));
      var updated := l.(entries := l.entries[i := spent]);
      :- Need(ValidLedger(updated), Rejected(LedgerAfter));
      Ok(updated)
  }

  /** A request for an operation that is already committed. */
  function Replay(request: ExpireRequest, s: Snapshot, commit: Commit, ctx: Context, fence: int)
    : Result<(Snapshot, ExpiryResult), Failure>
  {
    var c :- ReplayAuthority(s.ledger, request, ctx, fence);
    :- Need(ResultAnswers(commit, request, ctx.principal, fence, Some(c)), Rejected(CommitEvidence));
    :- Need(s.hold.artifactId == request.due.artifactId && s.hold.holdId == request.due.holdId
            && s.hold.holdDigest == commit.expectedHoldDigest
            && commit.result.version <= s.hold.version,
            Refused(WrongResource));
    Ok((s, commit.result))
  }

  function FreshExpire(request: ExpireRequest, s: Snapshot, ctx: Context, fence: int)
    : Result<(Snapshot, ExpiryResult), Failure>
  {
    match FindEntry(s.ledger, request.leaseId)
    case None => Err(Refused(NoCandidate))
    case Some(i) =>
      :- Need(s.ledger.entries[i].consumed.None?, Refused(AlreadyConsumed));
      :- Need(s.hold.candidate == Some(s.ledger.entries[i].candidate), Refused(NotCurrentCandidate));
      var commit :- Project(request, s.hold, ctx, fence);
      var ledger :- Consume(s.ledger, request, ctx.now);
      var updated := Snapshot(Expired(s.hold), ledger, s.commits + [commit],
                              s.audit + [EventOf(AUDIT, commit)], s.outbox + [EventOf(OUTBOX, commit)]);
      :- Need(ValidSnapshot(updated), Rejected(ClosingSnapshot));
      Ok((updated, commit.result))
  }

  /** `apply_artifact_hold_expiry`. */
  function ApplyExpire(request: ExpireRequest, s: Snapshot, ctx: Context, fence: int)
    : Result<(Snapshot, ExpiryResult), Failure>
  {
    if !ValidExpireRequest(request) then Err(Refused(MalformedRequest)) else
    :- Need(ValidContext(ctx) && SafeInteger(1, fence), Refused(MalformedContext));
    :- Need(OnReaperChannel(ctx), Refused(ForbiddenContext));
    :- Need(ValidSnapshot(s), Rejected(EntrySnapshot));
    match FindCommit(s, request.expireOperationId)
    case Some(k) => Replay(request, s, s.commits[k], ctx, fence)
    case None => FreshExpire(request, s, ctx, fence)
  }
}
