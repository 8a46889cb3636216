/** What the protocol guarantees over every run from the empty ledger. */
module HoldTheorems {
  import opened Wrappers
  import opened Text
  import opened HoldModel
  import opened HoldTransitions
  import opened HoldFacts
  import opened HoldInvariant
  import opened HoldExactScan
  import opened HoldExactExpire
  import opened HoldExactClaim
  import opened HoldScan
  import opened HoldClaim
  import opened HoldExpire
  import opened HoldRuns
  import Sorting

  /******* When the guards imply the validators *******/

  /** A validator, not a guard, stops the input. */
  predicate Rejects(s: Snapshot, input: Input) {
    match input
    case Scan(q, ctx, leaseId, token) => leaseId != token && WasRejected(ApplyScan(q, s, ctx, leaseId, token))
    case Expire(r, ctx, fence) => WasRejected(ApplyExpire(r, s, ctx, fence))
    case ReplayClaim(q, ctx, leaseUntil) => WasRejected(ApplyClaim(q, s, ctx, leaseUntil))
    case Advance(_) => false
  }

  predicate WasRejected<T>(r: Result<T, Failure>) {
    r.Err? && r.error.Rejected?
  }

  /** The input would change the snapshot, and every guard of its transition passes. */
  ghost predicate PassesGuards(s: Snapshot, input: Input) {
    match input
    case Scan(q, ctx, leaseId, token) => leaseId != token && ScanPassesGuards(q, s, ctx, leaseId, token)
    case Expire(r, ctx, fence) => ExpirePassesGuards(r, s, ctx, fence)
    case ReplayClaim(q, ctx, leaseUntil) => ClaimPassesGuards(q, s, ctx, leaseUntil)
    case Advance(_) => false
  }

  /** What no guard looks at. For SCAN: the high-water is ahead of the last fence. For EXPIRE: a scan of the
      same hold, at another version, has a later fence than the hold's candidate. For REPLAY_CLAIM: the ID
      is a scan's, or nobody claims the operation yet and the clock is before its commit. */
  ghost predicate Unprepared(s: Snapshot, input: Input) {
    match input
    case Scan(_, _, _, _) => s.ledger.highWater != LastFence(s.ledger.entries)
    case Expire(_, _, _) => s.hold.candidate.Some? && !NothingNewer(Entry(s.hold.candidate.value, None), s.ledger)
    case ReplayClaim(q, ctx, _) =>
      !NotAScan(s.ledger, q.replayOperationId) || PredatesCommit(s, q.expireOperationId, ctx.now)
    case Advance(_) => false
  }

  /** Over every snapshot that `validate` accepts, reachable or not: a validator rejects what a transition
      built exactly if its guards passed and the snapshot was unprepared for it. Nothing else is rejected,
      stored answers and replays included. */
  lemma RejectsExactly(s: Snapshot, input: Input)
    requires ValidSnapshot(s)
    ensures Rejects(s, input) <==> PassesGuards(s, input) && Unprepared(s, input)
  {
    hide ValidSnapshot, ApplyScan, ApplyExpire, ApplyClaim, ScanPassesGuards, ExpirePassesGuards, ClaimPassesGuards;
    hide NotAScan, PredatesCommit, NothingNewer, ScanNext, ExpireNext, ClaimNext;
    match input
    case Scan(q, ctx, leaseId, token) =>
      if leaseId != token {
        ScanOutcome(q, s, ctx, leaseId, token);
      }
    case Expire(r, ctx, fence) =>
      ExpireOutcome(r, s, ctx, fence);
      GuardedHasCandidate(r, s, ctx, fence);
    case ReplayClaim(q, ctx, leaseUntil) => ClaimOutcome(q, s, ctx, leaseUntil);
    case Advance(_) =>
  }

  lemma GuardedHasCandidate(r: ExpireRequest, s: Snapshot, ctx: Context, fence: int)
    ensures ExpirePassesGuards(r, s, ctx, fence) ==> s.hold.candidate.Some?
  {
  }

  /** Every reachable snapshot passes the full validation and is prepared for every scan and expiry. So no
      validator rejects what a transition builds once its guards pass, with one exception: a new replay
      claim whose operation ID was already spent on a scan, or which is the first and is stamped before the
      commit, always is. */
  lemma GuardsImplyValidation(h: Hold, inputs: seq<Input>, input: Input)
    requires Startable(h)
    ensures var s := Run(Initial(h), inputs);
      && ValidSnapshot(s)
      && (!input.ReplayClaim? ==> !Rejects(s, input))
      && (Rejects(s, input) <==> IsInconsistentClaim(s, input))
  {
    hide Rejects, PassesGuards, Unprepared, IsInconsistentClaim, ValidSnapshot, SnapshotInv;
    var s := Run(Initial(h), inputs);
    Reached(h, inputs);
    InvariantImpliesValid(s);
    RejectsExactly(s, input);
    PreparedInRuns(s, input);
    NoInconsistentOthers(s, input);
  }

  lemma NoInconsistentOthers(s: Snapshot, input: Input)
    ensures IsInconsistentClaim(s, input) ==> input.ReplayClaim?
  {
  }

  /** The exception: every guard of a new claim passes, but its ID is a scan's, or it predates the commit. */
  ghost predicate IsInconsistentClaim(s: Snapshot, input: Input) {
    && input.ReplayClaim?
    && TakeoverPassesGuards(input.claim, s, input.claimContext, input.leaseUntil)
    && (|| !NotAScan(s.ledger, input.claim.replayOperationId)
        || (s.ledger.claimRequests == [] && input.claimContext.now < s.commits[0].committedAt))
  }

  /** The invariant of runs leaves the snapshot unprepared only for the inconsistent claims. */
  lemma PreparedInRuns(s: Snapshot, input: Input)
    requires SnapshotInv(s)
    ensures PassesGuards(s, input) && Unprepared(s, input) <==> IsInconsistentClaim(s, input)
  {
    hide ScanPassesGuards, ExpirePassesGuards, NothingNewer, NotAScan, PredatesCommit, ValidHold, ClaimGuards;
    hide ValidClaimRequest, ValidContext;
    match input
    case Scan(_, _, _, _) => HighWaterIsLast(s.ledger);
    case Expire(_, _, _) =>
      if s.hold.candidate.Some? {
        OpenHasCandidate(s);
        CandidateIsNewest(s);
      }
    case ReplayClaim(q, ctx, leaseUntil) =>
      if ClaimAdmitted(q, ctx, leaseUntil) {
        GuardsOfTakeover(q, s, ctx, leaseUntil);
        if TakeoverGuards(q, s, ctx, leaseUntil) {
          ClaimConsistency(q, s, ctx);
        }
      }
    case Advance(_) =>
  }

  lemma OpenHasCandidate(s: Snapshot)
    requires SnapshotInv(s) && s.hold.candidate.Some?
    ensures Open(s)
  {
  }

  /******* Fences and bearers *******/

  /** Fences are exactly 1, 2, ..., high-water; no lease ID or token is ever used twice, in either
      role; and the entries are the candidates of all scans followed by those of all claims. */
  lemma FencesAndBearers(h: Hold, inputs: seq<Input>)
    requires Startable(h)
    ensures var l := Run(Initial(h), inputs).ledger;
      && l.highWater == |l.entries| && |l.scanRequests| == |l.scanResults|
      && (forall i | 0 <= i < |l.entries| :: l.entries[i].candidate.fence == i + 1)
      && (forall i, j | 0 <= i < j < |l.entries| ::
            {l.entries[i].candidate.leaseId, l.entries[i].candidate.token}
            !! {l.entries[j].candidate.leaseId, l.entries[j].candidate.token})
      && (forall i | 0 <= i < |l.entries| :: l.entries[i].candidate.leaseId != l.entries[i].candidate.token)
      && EntryCandidates(l.entries) == PersistedCandidates(l)
  {
    var l := Run(Initial(h), inputs).ledger;
    Reached(h, inputs);
    EntriesArePersisted(l);
    BearersDiffer(l);
  }

  lemma BearersDiffer(l: Ledger)
    requires Entries(l)
    ensures forall i, j | 0 <= i < j < |l.entries| ::
              {l.entries[i].candidate.leaseId, l.entries[i].candidate.token}
              !! {l.entries[j].candidate.leaseId, l.entries[j].candidate.token}
    ensures forall i | 0 <= i < |l.entries| ::
              l.entries[i].candidate.fence == i + 1
              && l.entries[i].candidate.leaseId != l.entries[i].candidate.token
  {
    forall i | 0 <= i < |l.entries|
      ensures l.entries[i].candidate.fence == i + 1
      ensures l.entries[i].candidate.leaseId != l.entries[i].candidate.token
    {
      assert l.entries[i].candidate.fence == i + 1;
    }
  }

  /******* Takeovers *******/

  /** From the adjacent check alone: in any ledger that validates, two claims on one operation are
      disjoint in time, the one with the lower fence first. */
  lemma TakeoversAreDisjoint(l: Ledger, i: nat, j: nat)
    requires ValidClaims(l) && ValidTakeovers(l) && i < |l.claimRequests| && j < |l.claimRequests|
    requires l.claimRequests[i].expireOperationId == l.claimRequests[j].expireOperationId
    requires l.claimResults[i].candidate.fence < l.claimResults[j].candidate.fence
    ensures l.claimResults[i].candidate.leaseUntil <= l.claimResults[j].candidate.issuedAt
  {
    var operation := l.claimRequests[i].expireOperationId;
    var ranked := RankedClaims(l, operation);
    var a := RankOf(l, i);
    var b := RankOf(l, j);
    RankedMembers(l, operation);
    RankedLeases(l, operation);
    assert ClaimFence(ranked[a]) < ClaimFence(ranked[b]);
    assert a < b;
    DisjointFrom(ranked, a, b);
  }

  /** The only pointer is to the newest claim, which has the highest fence, and its revision counts
      the claims, all of which are on its operation. */
  ghost predicate PointsToHighest(l: Ledger)
    requires |l.claimRequests| == |l.claimResults| > 0
  {
    var n := |l.claimRequests|;
    && l.pointers == [PointerOf(ClaimAt(l, n - 1), n)]
    && forall j | 0 <= j < n ::
         l.claimResults[j].candidate.fence <= l.pointers[0].fence
         && l.claimRequests[j].expireOperationId == l.pointers[0].expireOperationId
  }

  lemma PointerIsHighest(h: Hold, inputs: seq<Input>)
    requires Startable(h)
    ensures var l := Run(Initial(h), inputs).ledger;
      && |l.claimRequests| == |l.claimResults|
      && if l.claimRequests == [] then l.pointers == [] else PointsToHighest(l)
  {
    Reached(h, inputs);
    HighestPointer(Run(Initial(h), inputs).ledger);
  }

  lemma HighestPointer(l: Ledger)
    requires Entries(l) && Claims(l)
    ensures if l.claimRequests == [] then l.pointers == [] else PointsToHighest(l)
  {
    ClaimFences(l);
  }

  /******* Exactly once *******/

  /** A run commits at most once; the commit has exactly one tombstone, one audit record and one
      outbox record, and the hold it names is EXPIRED from then on. */
  lemma ExactlyOnce(h: Hold, inputs: seq<Input>)
    requires Startable(h)
    ensures var s := Run(Initial(h), inputs);
      && |s.commits| <= 1
      && (s.commits == [] ==>
            s.audit == [] && s.outbox == [] && forall i | 0 <= i < |s.ledger.entries| :: s.ledger.entries[i].consumed.None?)
      && (s.commits != [] ==>
            && s.audit == [EventOf(AUDIT, s.commits[0])] && s.outbox == [EventOf(OUTBOX, s.commits[0])]
            && HasOneTombstone(s.ledger.entries, s.commits[0])
            && s.hold.status == EXPIRED && s.hold.holdId !in s.hold.activeHoldIds
            && s.commits[0].result.version <= s.hold.version
            && s.commits[0].result.holdId == h.holdId && s.commits[0].result.artifactId == h.artifactId)
  {
    var s := Run(Initial(h), inputs);
    InitialInvariant(h);
    RunKeeps(Initial(h), inputs);
    if Closed(s) {
      OneTombstone(s);
    }
  }

  ghost predicate HasOneTombstone(entries: seq<Entry>, commit: Commit) {
    exists k | 0 <= k < |entries| ::
      && entries[k].consumed == Some(Consumption(commit.expireOperationId, commit.committedAt))
      && OfCandidate(entries[k].candidate) == commit.candidateDigest
      && forall i | 0 <= i < |entries| && i != k :: entries[i].consumed.None?
  }

  lemma OneTombstone(s: Snapshot)
    requires Closed(s)
    ensures HasOneTombstone(s.ledger.entries, s.commits[0])
  {
    var entries, k := s.ledger.entries, |s.ledger.scanRequests| - 1;
    assert entries[k].consumed == Some(Consumption(s.commits[0].expireOperationId, s.commits[0].committedAt));
  }

  /** Once committed, always the same commit: no later input of any kind changes it or revives the hold. */
  lemma CommittedForever(h: Hold, inputs: seq<Input>, more: seq<Input>)
    requires Startable(h) && Run(Initial(h), inputs).commits != []
    ensures var s, s' := Run(Initial(h), inputs), Run(Run(Initial(h), inputs), more);
      s'.commits == s.commits && s'.hold.status == EXPIRED && s'.audit == s.audit && s'.outbox == s.outbox
  {
    var s := Run(Initial(h), inputs);
    Reached(h, inputs);
    RunKeeps(s, more);
  }

  /** The delta of the committing step: the version rises by one, only the hold itself leaves the
      active set, and references, minimum-delete time and lifecycle stay; the recorded retention is
      the one of the new state at commit time. */
  lemma ExpiryDelta(h: Hold, inputs: seq<Input>, r: ExpireRequest, ctx: Context, fence: int)
    requires Startable(h)
    requires var s := Run(Initial(h), inputs); s.commits == [] && ApplyExpire(r, s, ctx, fence).Ok?
    ensures var s := Run(Initial(h), inputs);
      var (s', result) := ApplyExpire(r, s, ctx, fence).value;
      && s.hold.expires.Some? && s.hold.expires.value <= ctx.now
      && s'.hold == s.hold.(version := s.hold.version + 1, status := EXPIRED,
                            activeHoldIds := s.hold.activeHoldIds - {s.hold.holdId},
                            dueIndexed := false, dueScore := None, candidate := None)
      && |s'.commits| == 1 && s'.commits[0].result == result && s'.commits[0].committedAt == ctx.now
      && result.version == s'.hold.version
      && result.retentionLocked == RetentionLockedAt(s'.hold, ctx.now)
      && EntryCandidates(s'.ledger.entries) == EntryCandidates(s.ledger.entries)
  {
    hide ApplyExpire, SnapshotInv, Spend;
    Reached(h, inputs);
    RunIsOpen(Run(Initial(h), inputs));
    OpenExpiryDelta(Run(Initial(h), inputs), r, ctx, fence);
  }

  lemma RunIsOpen(s: Snapshot)
    requires SnapshotInv(s) && s.commits == []
    ensures Open(s)
  {
  }

  lemma OpenExpiryDelta(s: Snapshot, r: ExpireRequest, ctx: Context, fence: int)
    requires SnapshotInv(s) && Open(s) && ApplyExpire(r, s, ctx, fence).Ok?
    ensures s.hold.candidate.Some?
    ensures s.hold.expires.Some? && s.hold.expires.value <= ctx.now
    ensures ApplyExpire(r, s, ctx, fence)
         == Ok((ExpireNext(s, r, s.hold.candidate.value, ctx.now), ResultFor(r, s.hold, ctx.now)))
    ensures EntryCandidates(Spend(s.ledger, r, ctx.now).entries) == EntryCandidates(s.ledger.entries)
  {
    hide ApplyExpire, SnapshotInv, ExpireNext;
    ExpireFromOpen(r, s, ctx, fence);
    SpendKeepsCandidates(s.ledger, r, ctx.now);
  }

  /******* Replay authority *******/

  /** In a committed snapshot exactly one lease can replay: the consumed one while there is no claim,
      then only the newest claim inside its window. It gets the first result back and changes
      nothing; every other request, for this or any other operation, is refused by a guard. */
  lemma SingleReplayAuthority(h: Hold, inputs: seq<Input>, r: ExpireRequest, ctx: Context, fence: int)
    requires Startable(h) && Run(Initial(h), inputs).commits != []
    ensures var s := Run(Initial(h), inputs);
      && Closed(s)
      && (ReplayAccepted(r, s, ctx, fence) ==> ApplyExpire(r, s, ctx, fence) == Ok((s, s.commits[0].result)))
      && (!ReplayAccepted(r, s, ctx, fence) ==>
            ApplyExpire(r, s, ctx, fence).Err? && ApplyExpire(r, s, ctx, fence).error.Refused?)
  {
    Reached(h, inputs);
    ExpireFromClosed(r, Run(Initial(h), inputs), ctx, fence);
  }

  /** So two requests that are both answered come under the same lease, from the same instance. */
  lemma OneReplayLease(h: Hold, inputs: seq<Input>, r1: ExpireRequest, ctx1: Context, fence1: int,
                       r2: ExpireRequest, ctx2: Context, fence2: int)
    requires Startable(h) && Run(Initial(h), inputs).commits != []
    requires var s := Run(Initial(h), inputs);
      ApplyExpire(r1, s, ctx1, fence1).Ok? && ApplyExpire(r2, s, ctx2, fence2).Ok?
    ensures r1 == r2 && fence1 == fence2 && ctx1.principal == ctx2.principal && ctx1.instance == ctx2.instance
  {
    var s := Run(Initial(h), inputs);
    SingleReplayAuthority(h, inputs, r1, ctx1, fence1);
    SingleReplayAuthority(h, inputs, r2, ctx2, fence2);
    BoundRequest(r1, ReplayHolder(s));
    BoundRequest(r2, ReplayHolder(s));
  }

  /** A new claim in a committed snapshot is stored exactly under these conditions, and then its lease
      carries the next fence and becomes the current one. */
  lemma ClaimAcceptedExactly(h: Hold, inputs: seq<Input>, q: ClaimRequest, ctx: Context, leaseUntil: int)
    requires Startable(h) && Run(Initial(h), inputs).commits != []
    requires FindClaim(Run(Initial(h), inputs).ledger, q.replayOperationId).None?
    ensures var s := Run(Initial(h), inputs);
      var c := ClaimCandidate(q, s.ledger, ctx, leaseUntil);
      if TakeoverPassesGuards(q, s, ctx, leaseUntil) && ClaimIsConsistent(q, s, ctx)
      then ApplyClaim(q, s, ctx, leaseUntil) == Ok((ClaimNext(s, q, c), ClaimResultFor(q, c)))
      else ApplyClaim(q, s, ctx, leaseUntil).Err?
  {
    Reached(h, inputs);
    ClaimInRun(q, Run(Initial(h), inputs), ctx, leaseUntil);
  }

  /** A scan under a new ID is answered exactly when the hold is ACTIVE and due and the issued lease is
      in range and brings bearers nobody has seen; the lease carries the next fence and goes onto the hold. */
  lemma ScanAcceptedExactly(h: Hold, inputs: seq<Input>, q: ScanRequest, ctx: Context, leaseId: Token, token: Token)
    requires Startable(h) && leaseId != token
    requires FindScan(Run(Initial(h), inputs).ledger, q.scanOperationId).None?
    ensures var s := Run(Initial(h), inputs);
      if ScanPassesGuards(q, s, ctx, leaseId, token)
      then var c := IssueCandidate(q, s, ctx, leaseId, token);
           ApplyScan(q, s, ctx, leaseId, token) == Ok((ScanNext(s, q, c), ScanResultOf(q, c)))
      else ApplyScan(q, s, ctx, leaseId, token).Err?
  {
    hide ApplyScan, ScanPassesGuards, SnapshotInv, ValidSnapshot;
    var s := Run(Initial(h), inputs);
    Reached(h, inputs);
    InvariantImpliesValid(s);
    ScanOutcome(q, s, ctx, leaseId, token);
    if ScanPassesGuards(q, s, ctx, leaseId, token) {
      ScanInRun(q, s, ctx, leaseId, token);
    }
  }

  /** Before the commit an expiry is accepted exactly for the candidate on the hold, from its owner,
      inside its lease and not before the hold is due; it then commits. */
  lemma ExpireAcceptedExactly(h: Hold, inputs: seq<Input>, r: ExpireRequest, ctx: Context, fence: int)
    requires Startable(h) && Run(Initial(h), inputs).commits == []
    ensures var s := Run(Initial(h), inputs);
      && Open(s)
      && if ExpirePassesGuards(r, s, ctx, fence)
         then ApplyExpire(r, s, ctx, fence)
              == Ok((ExpireNext(s, r, s.hold.candidate.value, ctx.now), ResultFor(r, s.hold, ctx.now)))
         else ApplyExpire(r, s, ctx, fence).Err? && ApplyExpire(r, s, ctx, fence).error.Refused?
  {
    Reached(h, inputs);
    ExpireFromOpen(r, Run(Initial(h), inputs), ctx, fence);
  }

  /******* Stable answers *******/

  lemma ScanAnsweredLater(l: Ledger, l': Ledger, q: ScanRequest, result: ScanResult, ctx: Context, ctx': Context)
    requires ScanAnswered(l, q, result, ctx) && l.scanRequests <= l'.scanRequests && l.scanResults <= l'.scanResults
    requires |l'.scanRequests| == |l'.scanResults|
    requires ctx'.principal == ctx.principal && ctx'.instance == ctx.instance
    ensures ScanAnswered(l', q, result, ctx')
  {
    var i :| 0 <= i < |l.scanRequests| == |l.scanResults| && l.scanRequests[i] == q && l.scanResults[i] == result
      && forall k | 0 <= k < |result.candidates| ::
           result.candidates[k].ownerPrincipal == ctx.principal && result.candidates[k].ownerInstance == ctx.instance;
    assert l'.scanRequests[i] == q && l'.scanResults[i] == result;
  }

  lemma AnsweredScanIsReturned(q: ScanRequest, s: Snapshot, ctx: Context, result: ScanResult)
    requires |s.ledger.scanRequests| == |s.ledger.scanResults| && ScanAnswered(s.ledger, q, result, ctx)
    requires forall i, j | 0 <= i < j < |s.ledger.scanRequests| ::
               s.ledger.scanRequests[i].scanOperationId != s.ledger.scanRequests[j].scanOperationId
    ensures var i := FindScan(s.ledger, q.scanOperationId);
      i.Some? && StoredScan(q, s, ctx, i.value) == Ok((s, result))
  {
    var i :| 0 <= i < |s.ledger.scanRequests| && s.ledger.scanRequests[i] == q && s.ledger.scanResults[i] == result;
    var found := FindScan(s.ledger, q.scanOperationId);
    assert found == Some(i);
  }

  /** An answered scan is answered the same way ever after, whatever happened to the lease or the hold. */
  lemma ScanAnswersAreStable(h: Hold, inputs: seq<Input>, more: seq<Input>, q: ScanRequest, ctx: Context,
                             leaseId: Token, token: Token, ctx': Context, leaseId': Token, token': Token)
    requires Startable(h) && leaseId != token && leaseId' != token'
    requires ApplyScan(q, Run(Initial(h), inputs), ctx, leaseId, token).Ok?
    requires ValidContext(ctx') && OnReaperChannel(ctx')
    requires ctx'.principal == ctx.principal && ctx'.instance == ctx.instance
    ensures var (s, result) := ApplyScan(q, Run(Initial(h), inputs), ctx, leaseId, token).value;
      ApplyScan(q, Run(s, more), ctx', leaseId', token') == Ok((Run(s, more), result))
  {
    Reached(h, inputs);
    ScanStep(q, Run(Initial(h), inputs), ctx, leaseId, token);
    InvariantImpliesValid(Run(Initial(h), inputs));
    ScanReduces(q, Run(Initial(h), inputs), ctx, leaseId, token);
    var (s, result) := ApplyScan(q, Run(Initial(h), inputs), ctx, leaseId, token).value;
    RunKeeps(s, more);
    InvariantImpliesValid(Run(s, more));
    ScanReduces(q, Run(s, more), ctx', leaseId', token');
    ScanAnsweredLater(s.ledger, Run(s, more).ledger, q, result, ctx, ctx');
    AnsweredScanIsReturned(q, Run(s, more), ctx', result);
  }

  lemma ClaimAnsweredLater(l: Ledger, l': Ledger, q: ClaimRequest, result: ClaimResult, ctx: Context, ctx': Context)
    requires ClaimAnswered(l, q, result, ctx) && l.claimRequests <= l'.claimRequests && l.claimResults <= l'.claimResults
    requires |l'.claimRequests| == |l'.claimResults|
    requires ctx'.principal == ctx.principal && ctx'.instance == ctx.instance
    ensures ClaimAnswered(l', q, result, ctx')
  {
    var i :| 0 <= i < |l.claimRequests| == |l.claimResults| && l.claimRequests[i] == q && l.claimResults[i] == result;
    assert l'.claimRequests[i] == q && l'.claimResults[i] == result;
  }

  lemma AnsweredClaimIsReturned(q: ClaimRequest, s: Snapshot, ctx: Context, result: ClaimResult)
    requires |s.ledger.claimRequests| == |s.ledger.claimResults| && ClaimAnswered(s.ledger, q, result, ctx)
    requires forall i, j | 0 <= i < j < |s.ledger.claimRequests| ::
               s.ledger.claimRequests[i].replayOperationId != s.ledger.claimRequests[j].replayOperationId
    ensures var i := FindClaim(s.ledger, q.replayOperationId);
      i.Some? && StoredClaim(q, s, ctx, i.value) == Ok((s, result))
  {
    var i :| 0 <= i < |s.ledger.claimRequests| && s.ledger.claimRequests[i] == q && s.ledger.claimResults[i] == result;
    var found := FindClaim(s.ledger, q.replayOperationId);
    assert found == Some(i);
  }

  /** An answered replay claim is answered the same way ever after, even once its lease has run out or
      another claim has superseded it. */
  lemma ClaimAnswersAreStable(h: Hold, inputs: seq<Input>, more: seq<Input>, q: ClaimRequest, ctx: Context,
                              leaseUntil: int, ctx': Context, leaseUntil': int)
    requires Startable(h)
    requires ApplyClaim(q, Run(Initial(h), inputs), ctx, leaseUntil).Ok?
    requires ValidContext(ctx') && OnReaperChannel(ctx') && SafeInteger(0, leaseUntil')
    requires ctx'.principal == ctx.principal && ctx'.instance == ctx.instance
    ensures var (s, result) := ApplyClaim(q, Run(Initial(h), inputs), ctx, leaseUntil).value;
      ApplyClaim(q, Run(s, more), ctx', leaseUntil') == Ok((Run(s, more), result))
  {
    hide ValidSnapshot, ApplyClaim, FreshClaim, ValidClaimRequest, ValidHold, Open, Closed, Entries, Scans;
    Reached(h, inputs);
    ClaimStep(q, Run(Initial(h), inputs), ctx, leaseUntil);
    var (s, result) := ApplyClaim(q, Run(Initial(h), inputs), ctx, leaseUntil).value;
    RunKeeps(s, more);
    InvariantImpliesValid(Run(s, more));
    ClaimReduces(q, Run(s, more), ctx', leaseUntil');
    ClaimAnsweredLater(s.ledger, Run(s, more).ledger, q, result, ctx, ctx');
    AnsweredClaimIsReturned(q, Run(s, more), ctx', result);
  }

  /******* Progress *******/

  /** A hold that is due and may expire, with room left in every counter. */
  ghost predicate Expirable(s: Snapshot, now: int) {
    && s.hold.status == ACTIVE && s.hold.expires.Some? && s.hold.expires.value <= now
    && s.hold.lifecycle !in {DELETING, DELETED}
    && s.ledger.highWater < MAX_SAFE_INTEGER && now + CANDIDATE_LEASE_MAX_MS <= MAX_SAFE_INTEGER
    && ExpireInRange(s.hold)
  }

  /** A scan with a new ID and bearers nobody has seen. */
  ghost predicate FreshDraw(l: Ledger, q: ScanRequest, leaseId: Token, token: Token) {
    && FindScan(l, q.scanOperationId).None?
    && leaseId != token
    && forall i | 0 <= i < |l.entries| ::
         {leaseId, token} !! {l.entries[i].candidate.leaseId, l.entries[i].candidate.token}
  }

  lemma IssuedCandidateIsUsable(q: ScanRequest, s: Snapshot, ctx: Context, leaseId: Token, token: Token)
    requires ValidHold(s.hold) && Entries(s.ledger) && ScanAdmitted(q, ctx)
    requires Expirable(s, ctx.now) && FreshDraw(s.ledger, q, leaseId, token)
    ensures ScanRefusal(s, IssueCandidate(q, s, ctx, leaseId, token), ctx.now).None?
  {
    var c := IssueCandidate(q, s, ctx, leaseId, token);
    forall e | 0 <= e < |s.ledger.entries| ensures !SharesBearer(c, s.ledger.entries[e].candidate) {
      var other := s.ledger.entries[e].candidate;
      assert {leaseId, token} !! {other.leaseId, other.token};
      assert leaseId in {leaseId, token} && token in {leaseId, token};
    }
  }

  /** From every reachable due hold, a fresh scan followed by an expiry from the same reaper before the
      lease ends succeeds and commits. */
  lemma Progress(h: Hold, inputs: seq<Input>, q: ScanRequest, ctx: Context, leaseId: Token, token: Token, later: int)
    requires Startable(h) && ScanAdmitted(q, ctx)
    requires Expirable(Run(Initial(h), inputs), ctx.now)
    requires FreshDraw(Run(Initial(h), inputs).ledger, q, leaseId, token)
    requires ctx.now <= later < ctx.now + CANDIDATE_LEASE_MAX_MS
    ensures var s := Run(Initial(h), inputs);
      var c := IssueCandidate(q, s, ctx, leaseId, token);
      var r := ExpireRequestFor(c);
      && ApplyScan(q, s, ctx, leaseId, token) == Ok((ScanNext(s, q, c), ScanResultOf(q, c)))
      && ApplyExpire(r, ScanNext(s, q, c), ctx.(now := later), c.fence)
         == Ok((ExpireNext(ScanNext(s, q, c), r, c, later), ResultFor(r, ScanNext(s, q, c).hold, later)))
      && |ExpireNext(ScanNext(s, q, c), r, c, later).commits| == 1
      && SnapshotInv(ExpireNext(ScanNext(s, q, c), r, c, later))
  {
    var s := Run(Initial(h), inputs);
    Reached(h, inputs);
    IssuedCandidateIsUsable(q, s, ctx, leaseId, token);
    ScanInRun(q, s, ctx, leaseId, token);
    ExpiresAfterScan(q, s, ctx, leaseId, token, later);
  }

  lemma ExpiresAfterScan(q: ScanRequest, s: Snapshot, ctx: Context, leaseId: Token, token: Token, later: int)
    requires SnapshotInv(s) && s.commits == [] && ScanAdmitted(q, ctx) && Expirable(s, ctx.now)
    requires ctx.now <= later < ctx.now + CANDIDATE_LEASE_MAX_MS
    requires var c := IssueCandidate(q, s, ctx, leaseId, token);
      ValidCandidate(c) && SnapshotInv(ScanNext(s, q, c))
    ensures var c := IssueCandidate(q, s, ctx, leaseId, token);
      var s1, r := ScanNext(s, q, c), ExpireRequestFor(c);
      && ApplyExpire(r, s1, ctx.(now := later), c.fence)
         == Ok((ExpireNext(s1, r, c, later), ResultFor(r, s1.hold, later)))
      && SnapshotInv(ExpireNext(s1, r, c, later))
  {
    var c := IssueCandidate(q, s, ctx, leaseId, token);
    var s1, r, ctx1 := ScanNext(s, q, c), ExpireRequestFor(c), ctx.(now := later);
    assert ExpirePassesGuards(r, s1, ctx1, c.fence) by {
      assert ExpiryPredicate(r, s1.hold, c, ctx1, c.fence);
    }
    ExpireFromOpen(r, s1, ctx1, c.fence);
  }
}
