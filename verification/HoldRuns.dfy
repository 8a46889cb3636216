/** Runs of the protocol from the empty ledger, under any clock and any interleaving of the three
    transitions with an environment that advances the artifact. */
module HoldRuns {
  import opened Wrappers
  import opened Text
  import opened HoldModel
  import opened HoldTransitions
  import opened HoldFacts
  import opened HoldInvariant
  import opened HoldExactScan
  import opened HoldExactExpire
  import opened HoldExactClaim
  import opened HoldScan
  import opened HoldClaim
  import opened HoldExpire

  datatype Input =
    | Scan(scan: ScanRequest, scanContext: Context, leaseId: Token, token: Token)
    | Expire(expire: ExpireRequest, expireContext: Context, fence: int)
    | ReplayClaim(claim: ClaimRequest, claimContext: Context, leaseUntil: int)
    | Advance(hold: Hold)

  /** Other writers may move the artifact to a later version, with whatever lifecycle, other holds,
      references and minimum-delete time. Until the hold is EXPIRED, which only the protocol makes it, they
      may also release it, activate it again, or give it another digest or expiry. */
  predicate MayAdvance(h: Hold, h': Hold) {
    && ValidHold(h')
    && h'.artifactId == h.artifactId && h'.holdId == h.holdId
    && h.version < h'.version
    && h'.candidate.None?
    && (h'.status == EXPIRED <==> h.status == EXPIRED)
    && (h.status == EXPIRED ==> h'.holdDigest == h.holdDigest && h'.expires == h.expires)
  }

  /** A transition that raises leaves the snapshot as it was. */
  function Applied<T>(s: Snapshot, r: Result<(Snapshot, T), Failure>): Snapshot {
    if r.Ok? then r.value.0 else s
  }

  function After(s: Snapshot, input: Input): Snapshot {
    match input
    case Scan(q, ctx, leaseId, token) =>
      if leaseId == token then s else Applied(s, ApplyScan(q, s, ctx, leaseId, token))
    case Expire(r, ctx, fence) => Applied(s, ApplyExpire(r, s, ctx, fence))
    case ReplayClaim(q, ctx, leaseUntil) => Applied(s, ApplyClaim(q, s, ctx, leaseUntil))
    case Advance(h) => if MayAdvance(s.hold, h) then s.(hold := h) else s
  }

  function Run(s: Snapshot, inputs: seq<Input>): Snapshot
    decreases |inputs|
  {
    if inputs == [] then s else Run(After(s, inputs[0]), inputs[1..])
  }

  function Initial(h: Hold): Snapshot {
    Snapshot(h, EMPTY_LEDGER, [], [], [])
  }

  predicate Startable(h: Hold) {
    ValidHold(h) && h.candidate.None?
  }

  lemma InitialInvariant(h: Hold)
    requires Startable(h)
    ensures SnapshotInv(Initial(h))
  {
  }

  /** Exactly the valid holds without a candidate can start from an empty ledger. */
  lemma CreateFromEmpty(h: Hold)
    ensures Create(h, EMPTY_LEDGER) == if Startable(h) then Ok(Initial(h)) else Err(())
  {
    if Startable(h) {
      InitialInvariant(h);
      InvariantImpliesValid(Initial(h));
    } else if ValidHold(h) {
      assert !IsOpenScan(h.candidate.value, EMPTY_LEDGER);
    }
  }

  /******* One step *******/

  /** What later snapshots keep of earlier ones. */
  ghost predicate Extends(s: Snapshot, s': Snapshot) {
    && s.ledger.scanRequests <= s'.ledger.scanRequests
    && s.ledger.scanResults <= s'.ledger.scanResults
    && s.ledger.claimRequests <= s'.ledger.claimRequests
    && s.ledger.claimResults <= s'.ledger.claimResults
    && s.commits <= s'.commits
    && s.hold.version <= s'.hold.version
    && (s.hold.status == EXPIRED ==> s'.hold.status == EXPIRED && s'.hold.expires == s.hold.expires)
    && s'.hold.artifactId == s.hold.artifactId && s'.hold.holdId == s.hold.holdId
  }

  lemma ExtendsTransitive(a: Snapshot, b: Snapshot, c: Snapshot)
    requires Extends(a, b) && Extends(b, c)
    ensures Extends(a, c)
  {
  }

  /** The request is stored with this answer, and the caller owns it. */
  ghost predicate ScanAnswered(l: Ledger, q: ScanRequest, result: ScanResult, ctx: Context) {
    exists i | 0 <= i < |l.scanRequests| == |l.scanResults| ::
      l.scanRequests[i] == q && l.scanResults[i] == result
      && forall k | 0 <= k < |result.candidates| ::
           result.candidates[k].ownerPrincipal == ctx.principal && result.candidates[k].ownerInstance == ctx.instance
  }

  lemma StoredScanOutcome(q: ScanRequest, s: Snapshot, ctx: Context, i: nat)
    requires i < |s.ledger.scanRequests| == |s.ledger.scanResults|
    ensures var r := StoredScan(q, s, ctx, i);
      && (r.Err? ==> r.error.Refused?)
      && (r.Ok? ==> r.value.0 == s && ScanAnswered(s.ledger, q, r.value.1, ctx))
  {
  }

  lemma ScanNextExtends(s: Snapshot, q: ScanRequest, ctx: Context, leaseId: Token, token: Token)
    requires s.hold.expires.Some? && |s.ledger.scanRequests| == |s.ledger.scanResults|
    ensures var c := IssueCandidate(q, s, ctx, leaseId, token);
      Extends(s, ScanNext(s, q, c)) && ScanAnswered(ScanNext(s, q, c).ledger, q, ScanResultOf(q, c), ctx)
  {
    var c := IssueCandidate(q, s, ctx, leaseId, token);
    var l', i := ScanNext(s, q, c).ledger, |s.ledger.scanRequests|;
    assert l'.scanRequests[i] == q && l'.scanResults[i] == ScanResultOf(q, c);
  }

  lemma HighWaterIsLast(l: Ledger)
    requires Entries(l)
    ensures l.highWater == LastFence(l.entries)
  {
    if l.entries != [] {
      assert l.entries[|l.entries| - 1].candidate.fence == |l.entries|;
    }
  }

  /** In a run a scan under a new ID is answered as soon as its guards pass. */
  lemma ScanInRun(q: ScanRequest, s: Snapshot, ctx: Context, leaseId: Token, token: Token)
    requires SnapshotInv(s) && leaseId != token && ScanPassesGuards(q, s, ctx, leaseId, token)
    ensures var c := IssueCandidate(q, s, ctx, leaseId, token);
      && ApplyScan(q, s, ctx, leaseId, token) == Ok((ScanNext(s, q, c), ScanResultOf(q, c)))
      && SnapshotInv(ScanNext(s, q, c))
  {
    hide ApplyScan;
    InvariantImpliesValid(s);
    HighWaterIsLast(s.ledger);
    ScanOutcome(q, s, ctx, leaseId, token);
    IssuedIsNext(q, s, ctx, leaseId, token);
    ScanKeepsInvariant(s, q, IssueCandidate(q, s, ctx, leaseId, token));
  }

  /** A scan is refused by a guard, or keeps the invariant; no validator ever rejects it. */
  lemma ScanStep(q: ScanRequest, s: Snapshot, ctx: Context, leaseId: Token, token: Token)
    requires SnapshotInv(s) && leaseId != token
    ensures var r := ApplyScan(q, s, ctx, leaseId, token);
      && (r.Err? ==> r.error.Refused?)
      && (r.Ok? ==> SnapshotInv(r.value.0) && Extends(s, r.value.0)
                    && ScanAnswered(r.value.0.ledger, q, r.value.1, ctx))
  {
    hide ValidSnapshot, SnapshotInv, ApplyScan, StoredScan, FreshScan, ScanAdmitted, ScanRefusal, ScanAnswered, Extends, ScanNext;
    InvariantImpliesValid(s);
    ScanReduces(q, s, ctx, leaseId, token);
    ScanOutcome(q, s, ctx, leaseId, token);
    if ScanPassesGuards(q, s, ctx, leaseId, token) {
      ScanInRun(q, s, ctx, leaseId, token);
      ScanNextExtends(s, q, ctx, leaseId, token);
    } else if FindScan(s.ledger, q.scanOperationId).Some? {
      StoredScanOutcome(q, s, ctx, FindScan(s.ledger, q.scanOperationId).value);
      ExtendsItself(s);
    }
  }

  lemma ExtendsItself(s: Snapshot)
    ensures Extends(s, s)
  {
  }

  ghost predicate ReplayAccepted(r: ExpireRequest, s: Snapshot, ctx: Context, fence: int) {
    ExpireAdmitted(r, ctx, fence) && ReplayGuards(r, s, ctx, fence)
  }

  lemma ExpireFromOpen(r: ExpireRequest, s: Snapshot, ctx: Context, fence: int)
    requires SnapshotInv(s) && Open(s)
    ensures var a := ApplyExpire(r, s, ctx, fence);
      if ExpirePassesGuards(r, s, ctx, fence)
      then a == Ok((ExpireNext(s, r, s.hold.candidate.value, ctx.now), ResultFor(r, s.hold, ctx.now)))
           && SnapshotInv(ExpireNext(s, r, s.hold.candidate.value, ctx.now))
      else a.Err? && a.error.Refused?
  {
    hide ApplyExpire, ExpireNext, NothingNewer;
    InvariantImpliesValid(s);
    OpenLookup(s, r.expireOperationId);
    ExpireOutcome(r, s, ctx, fence);
    if ExpirePassesGuards(r, s, ctx, fence) {
      CandidateIsNewest(s);
      ExpireKeepsInvariant(s, r, ctx, fence);
    }
  }

  lemma ExpireFromClosed(r: ExpireRequest, s: Snapshot, ctx: Context, fence: int)
    requires SnapshotInv(s) && Closed(s)
    ensures var a := ApplyExpire(r, s, ctx, fence);
      if ReplayAccepted(r, s, ctx, fence) then a == Ok((s, s.commits[0].result)) else a.Err? && a.error.Refused?
  {
    hide ApplyExpire, FreshExpire, Replay;
    InvariantImpliesValid(s);
    ExpireReduces(r, s, ctx, fence);
    CommitLookup(s, r.expireOperationId);
    if ExpireAdmitted(r, ctx, fence) && r.expireOperationId == s.commits[0].expireOperationId {
      ReplayOutcome(r, s, ctx, fence);
    } else {
      ExpireOutcome(r, s, ctx, fence);
    }
  }

  lemma ExpireNextExtends(s: Snapshot, r: ExpireRequest, c: Candidate, now: int)
    requires s.hold.status != EXPIRED
    ensures Extends(s, ExpireNext(s, r, c, now))
  {
  }

  /** An expiry is refused by a guard, or keeps the invariant; no validator ever rejects it. */
  lemma ExpireStep(r: ExpireRequest, s: Snapshot, ctx: Context, fence: int)
    requires SnapshotInv(s)
    ensures var a := ApplyExpire(r, s, ctx, fence);
      && (a.Err? ==> a.error.Refused?)
      && (a.Ok? ==> SnapshotInv(a.value.0) && Extends(s, a.value.0))
  {
    hide ApplyExpire, ExpireNext, Extends, LedgerInv, ValidHold, Open, Closed, ReplayAccepted;
    ExtendsItself(s);
    if Open(s) {
      ExpireFromOpen(r, s, ctx, fence);
      if ExpirePassesGuards(r, s, ctx, fence) {
        ExpireNextExtends(s, r, s.hold.candidate.value, ctx.now);
      }
    } else {
      ExpireFromClosed(r, s, ctx, fence);
    }
  }

  ghost predicate ClaimAnswered(l: Ledger, q: ClaimRequest, result: ClaimResult, ctx: Context) {
    exists i | 0 <= i < |l.claimRequests| == |l.claimResults| ::
      l.claimRequests[i] == q && l.claimResults[i] == result
      && result.candidate.ownerPrincipal == ctx.principal && result.candidate.ownerInstance == ctx.instance
  }

  lemma StoredClaimOutcome(q: ClaimRequest, s: Snapshot, ctx: Context, i: nat)
    requires i < |s.ledger.claimRequests| == |s.ledger.claimResults|
    ensures var r := StoredClaim(q, s, ctx, i);
      && (r.Err? ==> r.error.Refused?)
      && (r.Ok? ==> r.value.0 == s && ClaimAnswered(s.ledger, q, r.value.1, ctx))
  {
  }

  /** A request for a claim that is not stored yet and passes every guard, in a run. */
  ghost predicate TakeoverPassesGuards(q: ClaimRequest, s: Snapshot, ctx: Context, leaseUntil: int) {
    && ClaimAdmitted(q, ctx, leaseUntil)
    && FindClaim(s.ledger, q.replayOperationId).None?
    && TakeoverGuards(q, s, ctx, leaseUntil)
  }

  /** In a run a claim under a new ID is stored, rejected or refused exactly so. */
  lemma ClaimInRun(q: ClaimRequest, s: Snapshot, ctx: Context, leaseUntil: int)
    requires SnapshotInv(s) && FindClaim(s.ledger, q.replayOperationId).None?
    ensures var c, r := ClaimCandidate(q, s.ledger, ctx, leaseUntil), ApplyClaim(q, s, ctx, leaseUntil);
      if !TakeoverPassesGuards(q, s, ctx, leaseUntil) then r.Err? && r.error.Refused?
      else if ClaimIsConsistent(q, s, ctx) then
        r == Ok((ClaimNext(s, q, c), ClaimResultFor(q, c))) && SnapshotInv(ClaimNext(s, q, c))
      else r.Err? && r.error.Rejected?
  {
    hide ValidSnapshot, ApplyClaim, ClaimNext, ClaimGuards, ValidClaimRequest, LedgerInv, ValidHold, PredatesCommit;
    InvariantImpliesValid(s);
    ClaimOutcome(q, s, ctx, leaseUntil);
    if ClaimAdmitted(q, ctx, leaseUntil) {
      GuardsOfTakeover(q, s, ctx, leaseUntil);
      if TakeoverGuards(q, s, ctx, leaseUntil) {
        ClaimConsistency(q, s, ctx);
        if ClaimIsConsistent(q, s, ctx) {
          ClaimKeepsInvariant(q, s, ctx, leaseUntil);
        }
      }
    }
  }

  lemma ClaimNextExtends(q: ClaimRequest, s: Snapshot, ctx: Context, leaseUntil: int)
    requires |s.ledger.claimRequests| == |s.ledger.claimResults|
    ensures var c := ClaimCandidate(q, s.ledger, ctx, leaseUntil);
      Extends(s, ClaimNext(s, q, c)) && ClaimAnswered(ClaimNext(s, q, c).ledger, q, ClaimResultFor(q, c), ctx)
  {
    var c := ClaimCandidate(q, s.ledger, ctx, leaseUntil);
    var l', i := ClaimNext(s, q, c).ledger, |s.ledger.claimRequests|;
    assert l'.claimRequests[i] == q && l'.claimResults[i] == ClaimResultFor(q, c);
  }

  /** A claim is refused by a guard, or keeps the invariant, unless it is new, passes every guard
      and is inconsistent all the same: exactly then a validator rejects it. */
  lemma ClaimStep(q: ClaimRequest, s: Snapshot, ctx: Context, leaseUntil: int)
    requires SnapshotInv(s)
    ensures var r := ApplyClaim(q, s, ctx, leaseUntil);
      && (r.Err? && r.error.Rejected? <==>
            TakeoverPassesGuards(q, s, ctx, leaseUntil) && !ClaimIsConsistent(q, s, ctx))
      && (r.Ok? ==> ClaimAdmitted(q, ctx, leaseUntil) && SnapshotInv(r.value.0) && Extends(s, r.value.0)
                    && ClaimAnswered(r.value.0.ledger, q, r.value.1, ctx))
  {
    hide ValidSnapshot, SnapshotInv, ApplyClaim, FreshClaim, StoredClaim, ClaimAdmitted, TakeoverGuards, ClaimNext;
    hide ClaimAnswered, Extends, ClaimIsConsistent;
    InvariantImpliesValid(s);
    ClaimReduces(q, s, ctx, leaseUntil);
    if FindClaim(s.ledger, q.replayOperationId).None? {
      ClaimInRun(q, s, ctx, leaseUntil);
      ClaimNextExtends(q, s, ctx, leaseUntil);
    } else if ClaimAdmitted(q, ctx, leaseUntil) {
      StoredClaimOutcome(q, s, ctx, FindClaim(s.ledger, q.replayOperationId).value);
      ExtendsItself(s);
    }
  }

  lemma AdvanceStep(s: Snapshot, h: Hold)
    requires SnapshotInv(s) && MayAdvance(s.hold, h)
    ensures SnapshotInv(s.(hold := h)) && Extends(s, s.(hold := h))
  {
    var s' := s.(hold := h);
    if Closed(s) {
      assert Tombstone(s'.ledger) == Tombstone(s.ledger);
      forall j | 0 <= j < |s.ledger.claimRequests|
        ensures ClaimFollowsCommit(s.ledger.claimRequests[j], s.ledger.claimResults[j], s.commits[0], h)
      {
        var follows := ClaimFollowsCommit(s.ledger.claimRequests[j], s.ledger.claimResults[j], s.commits[0], s.hold);
      }
      assert Closed(s');
    } else {
      assert Open(s');
    }
  }

  lemma Step(s: Snapshot, input: Input)
    requires SnapshotInv(s)
    ensures SnapshotInv(After(s, input)) && Extends(s, After(s, input))
  {
    hide SnapshotInv, ApplyScan, ApplyExpire, ApplyClaim, MayAdvance;
    match input
    case Scan(q, ctx, leaseId, token) =>
      if leaseId != token {
        ScanStep(q, s, ctx, leaseId, token);
      }
    case Expire(r, ctx, fence) => ExpireStep(r, s, ctx, fence);
    case ReplayClaim(q, ctx, leaseUntil) => ClaimStep(q, s, ctx, leaseUntil);
    case Advance(h) =>
      if MayAdvance(s.hold, h) {
        AdvanceStep(s, h);
      }
  }

  lemma {:induction false} RunKeeps(s: Snapshot, inputs: seq<Input>)
    requires SnapshotInv(s)
    ensures SnapshotInv(Run(s, inputs)) && Extends(s, Run(s, inputs))
    decreases |inputs|
  {
    if inputs != [] {
      var s' := After(s, inputs[0]);
      Step(s, inputs[0]);
      RunKeeps(s', inputs[1..]);
      ExtendsTransitive(s, s', Run(s', inputs[1..]));
    }
  }

  lemma Reached(h: Hold, inputs: seq<Input>)
    requires Startable(h)
    ensures SnapshotInv(Run(Initial(h), inputs))
  {
    InitialInvariant(h);
    RunKeeps(Initial(h), inputs);
  }
}
