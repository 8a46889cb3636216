/** Concrete runs in which a replay claim passes every guard and is rejected all the same, and valid
    snapshots outside every run of which a scan or an expiry is. */
module HoldWitnesses {
  import opened Wrappers
  import opened Text
  import opened HoldModel
  import opened HoldTransitions
  import opened HoldFacts
  import opened HoldInvariant
  import opened HoldExactScan
  import opened HoldExactExpire
  import opened HoldExactClaim
  import opened HoldScan
  import opened HoldClaim
  import opened HoldExpire
  import opened HoldRuns
  import opened HoldTerms
  import opened HoldTheorems

  const ARTIFACT := "artifact-01"
  const HOLD := "hold-01"
  const REAPER_INSTANCE := "hold-reaper-01"
  const DUE := Due(ARTIFACT, HOLD, Foreign(0), 4, 1000)

  function DueHold(): Hold {
    Hold(ARTIFACT, 4, AVAILABLE, HOLD, Foreign(0), ACTIVE, Some(1000), {HOLD}, 0, None, true, Some(1000), None)
  }

  function At(now: int): Context {
    Context(REAPER_PRINCIPAL_ID, REAPER_INSTANCE, REAPER_COMPONENT_TYPE, EXPIRY_SUBJECT, now)
  }

  function ScanNamed(id: Digest): ScanRequest {
    ScanRequest(id, 1, id, OfScanRequest(id, 1, id))
  }

  /** Scanned with bearers 1 and 2, at time 1000. */
  function ScannedCandidate(id: Digest): Candidate {
    Candidate(id, Token(1), 1, Token(2), REAPER_PRINCIPAL_ID, REAPER_INSTANCE, 1000, 301000, DUE)
  }

  /** One scan under `id`, and the expiry it authorises at time 1500. */
  function ScanThenExpire(id: Digest): seq<Input> {
    [Scan(ScanNamed(id), At(1000), Token(1), Token(2)),
     Expire(ExpireRequestFor(ScannedCandidate(id)), At(1500), 1)]
  }

  function ClaimWith(leaseId: Token, token: Token, base: Commit): ClaimRequest {
    var operation := ExpireOperation(DUE);
    var id := ReplayOperation(operation, leaseId);
    ClaimRequest(id, operation, OfCommit(base), DUE, leaseId, token, id,
                 OfClaimRequest(id, operation, OfCommit(base), DUE, leaseId, token, id))
  }

  lemma NamesAreStable()
    ensures Stable(ARTIFACT) && Stable(HOLD) && Stable(REAPER_INSTANCE)
  {
  }

  lemma WitnessStart()
    ensures Startable(DueHold()) && forall now | SafeInteger(0, now) :: ValidContext(At(now))
  {
    NamesAreStable();
    ChannelIsStable();
  }

  ghost function Committed(id: Digest): Snapshot {
    ExpireNext(ScanNext(Initial(DueHold()), ScanNamed(id), ScannedCandidate(id)),
               ExpireRequestFor(ScannedCandidate(id)), ScannedCandidate(id), 1500)
  }

  lemma RunTwo(s: Snapshot, x: Input, y: Input)
    ensures Run(s, [x, y]) == After(After(s, x), y)
  {
    assert [x, y][1..] == [y] && [y][1..] == [];
    assert Run(After(s, x), [y]) == Run(After(After(s, x), y), []);
  }

  lemma StartCanExpire(id: Digest)
    ensures var s := Initial(DueHold());
      && Expirable(s, 1000) && FreshDraw(s.ledger, ScanNamed(id), Token(1), Token(2))
      && IssueCandidate(ScanNamed(id), s, At(1000), Token(1), Token(2)) == ScannedCandidate(id)
      && At(1000).(now := 1500) == At(1500)
  {
    assert {HOLD} - {HOLD} == {};
  }

  /** The two inputs lead to the committed snapshot. */
  lemma CommitsAt1500(id: Digest)
    ensures Startable(DueHold()) && Run(Initial(DueHold()), ScanThenExpire(id)) == Committed(id)
    ensures SnapshotInv(Committed(id))
  {
    hide ApplyScan, ApplyExpire, ApplyClaim, SnapshotInv, MayAdvance, Expirable, FreshDraw, ExpireNext, ScanNext, ValidContext;
    WitnessStart();
    StartCanExpire(id);
    assert Run(Initial(DueHold()), []) == Initial(DueHold());
    Progress(DueHold(), [], ScanNamed(id), At(1000), Token(1), Token(2), 1500);
    RunTwo(Initial(DueHold()), ScanThenExpire(id)[0], ScanThenExpire(id)[1]);
  }

  lemma CommittedFacts(id: Digest)
    ensures var s := Committed(id);
      && |s.commits| == 1 && s.commits[0].expireOperationId == ExpireOperation(DUE)
      && s.commits[0].principal == REAPER_PRINCIPAL_ID && s.commits[0].committedAt == 1500
      && s.ledger.claimRequests == [] && s.ledger.claimResults == [] && s.ledger.highWater == 1
      && s.ledger.scanRequests == [ScanNamed(id)]
      && |s.ledger.entries| == 1 && s.ledger.entries[0].candidate == ScannedCandidate(id)
  {
  }

  lemma ClaimCandidateIsValid(id: Digest, now: int)
    requires 0 <= now <= 2000
    ensures var c := ClaimCandidate(ClaimWith(Token(7), Token(8), Committed(id).commits[0]), Committed(id).ledger, At(now), 3000);
      ValidCandidate(c) && Unused(c, Committed(id).ledger)
  {
    CommittedFacts(id);
    NamesAreStable();
    ChannelIsStable();
  }

  lemma ClaimIsAdmitted(base: Commit, now: int)
    requires 0 <= now <= 2000
    ensures ClaimAdmitted(ClaimWith(Token(7), Token(8), base), At(now), 3000)
  {
    WitnessStart();
    NamesAreStable();
  }

  lemma CommittedIsClosed(id: Digest)
    ensures Closed(Committed(id))
  {
    CommitsAt1500(id);
    assert |Committed(id).commits| == 1;
  }

  /** A claim under bearers 7 and 8 passes every guard, whatever its clock says. */
  lemma ClaimPasses(id: Digest, now: int)
    requires 0 <= now <= 2000
    ensures Closed(Committed(id))
    ensures TakeoverPassesGuards(ClaimWith(Token(7), Token(8), Committed(id).commits[0]), Committed(id), At(now), 3000)
  {
    CommittedIsClosed(id);
    CommittedFacts(id);
    ClaimCandidateIsValid(id, now);
    ClaimIsAdmitted(Committed(id).commits[0], now);
  }

  /** Being inconsistent, such a claim is rejected. */
  lemma InconsistentIsRejected(s: Snapshot, q: ClaimRequest, ctx: Context, leaseUntil: int)
    requires SnapshotInv(s) && |s.commits| == 1
    requires TakeoverPassesGuards(q, s, ctx, leaseUntil) && !ClaimIsConsistent(q, s, ctx)
    ensures Rejects(s, ReplayClaim(q, ctx, leaseUntil))
  {
    hide ApplyClaim, SnapshotInv, ClaimAdmitted, TakeoverGuards, ClaimIsConsistent;
    ClaimInRun(q, s, ctx, leaseUntil);
  }

  /** The scan took the operation ID that the later claim needs. */
  lemma SpentIdWitness()
    ensures var id := ReplayOperation(ExpireOperation(DUE), Token(7));
      var s := Run(Initial(DueHold()), ScanThenExpire(id));
      && s == Committed(id) && |s.commits| == 1
      && var q := ClaimWith(Token(7), Token(8), s.commits[0]);
      TakeoverPassesGuards(q, s, At(2000), 3000) && Rejects(s, ReplayClaim(q, At(2000), 3000))
  {
    hide ApplyClaim, SnapshotInv, TakeoverPassesGuards, Rejects, Run;
    var id := ReplayOperation(ExpireOperation(DUE), Token(7));
    CommitsAt1500(id);
    CommittedFacts(id);
    ClaimPasses(id, 2000);
    var q := ClaimWith(Token(7), Token(8), Committed(id).commits[0]);
    assert Committed(id).ledger.scanRequests[0].scanOperationId == q.replayOperationId;
    assert !NotAScan(Committed(id).ledger, q.replayOperationId);
    InconsistentIsRejected(Committed(id), q, At(2000), 3000);
  }

  /** The commit is at 1500, and the claim arrives with a clock that reads 1400. */
  lemma BackdatedWitness()
    ensures var id := Foreign(1);
      var s := Run(Initial(DueHold()), ScanThenExpire(id));
      && s == Committed(id) && |s.commits| == 1
      && var q := ClaimWith(Token(7), Token(8), s.commits[0]);
      TakeoverPassesGuards(q, s, At(1400), 3000) && Rejects(s, ReplayClaim(q, At(1400), 3000))
  {
    hide ApplyClaim, SnapshotInv, TakeoverPassesGuards, Rejects, Run;
    var id := Foreign(1);
    CommitsAt1500(id);
    CommittedFacts(id);
    ClaimPasses(id, 1400);
    var q := ClaimWith(Token(7), Token(8), Committed(id).commits[0]);
    InconsistentIsRejected(Committed(id), q, At(1400), 3000);
  }

  /******* The validator alone is no invariant *******/

  /** A ledger with no candidates, whose high-water is ahead of them. */
  const AHEAD := EMPTY_LEDGER.(highWater := 5)

  lemma AheadLedgerIsValid()
    ensures ValidLedger(AHEAD)
  {
    NoPointers(AHEAD);
    assert EvidenceOf([], []) == [];
    SealsMatch([], []);
    AllocationsMatch([], []);
    assert PersistedCandidates(AHEAD) == [] && EntryCandidates(AHEAD.entries) == [];
  }

  lemma AheadIsValid()
    ensures Create(DueHold(), AHEAD) == Ok(Snapshot(DueHold(), AHEAD, [], [], []))
  {
    hide ValidLedger;
    var s := Snapshot(DueHold(), AHEAD, [], [], []);
    AheadLedgerIsValid();
    WitnessStart();
    assert ConsumedOperations(AHEAD.entries) == {} && CommittedOperations(s.commits) == {};
    assert multiset(s.audit) == multiset{};
  }

  lemma AheadIssue(q: ScanRequest)
    ensures var s := Snapshot(DueHold(), AHEAD, [], [], []);
      var c := IssueCandidate(q, s, At(1000), Token(1), Token(2));
      c == Candidate(q.scanOperationId, Token(1), 6, Token(2), REAPER_PRINCIPAL_ID, REAPER_INSTANCE, 1000, 301000, DUE)
      && ValidCandidate(c)
  {
    NamesAreStable();
    ChannelIsStable();
  }

  /** `validate` accepts this snapshot, and a scan of it passes every guard and is then rejected: the
      allocation names fence 5, which no entry carries. */
  lemma AheadWitness()
    ensures var s := Snapshot(DueHold(), AHEAD, [], [], []);
      && Create(DueHold(), AHEAD) == Ok(s)
      && ScanPassesGuards(ScanNamed(Foreign(1)), s, At(1000), Token(1), Token(2))
      && Rejects(s, Scan(ScanNamed(Foreign(1)), At(1000), Token(1), Token(2)))
  {
    hide ValidSnapshot, Rejects;
    var q := ScanNamed(Foreign(1));
    var s := Snapshot(DueHold(), AHEAD, [], [], []);
    WitnessStart();
    AheadIsValid();
    AheadIssue(q);
    CreateIsValid(DueHold(), AHEAD);
    assert ScanPassesGuards(q, s, At(1000), Token(1), Token(2));
    RejectsExactly(s, Scan(q, At(1000), Token(1), Token(2)));
  }

  lemma CreateIsValid(h: Hold, l: Ledger)
    ensures Create(h, l).Ok? ==> ValidSnapshot(Snapshot(h, l, [], [], []))
  {
  }

  /** A candidate of the same hold at version 5, with the fence after the one at version 4. */
  function LaterCandidate(): Candidate {
    Candidate(Foreign(2), Token(3), 2, Token(4), REAPER_PRINCIPAL_ID, REAPER_INSTANCE, 1000, 301000, DUE.(version := 5))
  }

  function OneVersion(): Ledger {
    AppendScan(EMPTY_LEDGER, ScanNamed(Foreign(1)), ScannedCandidate(Foreign(1)))
  }

  /** Two scans: at version 4 and then at version 5. */
  function TwoVersions(): Ledger {
    AppendScan(OneVersion(), ScanNamed(Foreign(2)), LaterCandidate())
  }

  /** The hold is still at version 4, and carries the candidate of that version. */
  function StaleHold(): Hold {
    DueHold().(candidate := Some(ScannedCandidate(Foreign(1))))
  }

  lemma CandidatesAreValid()
    ensures ValidCandidate(ScannedCandidate(Foreign(1))) && ValidCandidate(LaterCandidate())
  {
    NamesAreStable();
    ChannelIsStable();
  }

  lemma FirstIsNext()
    ensures LedgerInv(EMPTY_LEDGER) && IsNextScan(EMPTY_LEDGER, ScanNamed(Foreign(1)), ScannedCandidate(Foreign(1)))
    ensures Unused(ScannedCandidate(Foreign(1)), EMPTY_LEDGER)
  {
    hide ValidCandidate;
    CandidatesAreValid();
  }

  lemma SecondIsNext()
    ensures IsNextScan(OneVersion(), ScanNamed(Foreign(2)), LaterCandidate()) && Unused(LaterCandidate(), OneVersion())
  {
    hide ValidCandidate;
    CandidatesAreValid();
    assert OneVersion().entries == [Entry(ScannedCandidate(Foreign(1)), None)];
    assert OneVersion().scanRequests == [ScanNamed(Foreign(1))];
  }

  lemma TwoVersionsAreValid()
    ensures ValidLedger(TwoVersions())
  {
    hide LedgerInv, IsNextScan, Unused, ValidLedger, AppendScan;
    FirstIsNext();
    SecondIsNext();
    AppendScanKeepsLedger(EMPTY_LEDGER, ScanNamed(Foreign(1)), ScannedCandidate(Foreign(1)));
    AppendScanKeepsLedger(OneVersion(), ScanNamed(Foreign(2)), LaterCandidate());
    LedgerIsValid(TwoVersions());
  }

  /** Only the first candidate is for the hold's version. */
  lemma StaleProjection()
    ensures ValidHoldCandidate(StaleHold(), TwoVersions())
  {
    var entries, h := TwoVersions().entries, StaleHold();
    assert entries == [Entry(ScannedCandidate(Foreign(1)), None), Entry(LaterCandidate(), None)];
    assert Qualifies(entries[0], [], h) && !Qualifies(entries[1], [], h);
    assert entries[..1] == [entries[0]] && entries[..1][..0] == [];
    assert Latest(entries[..1], [], h) == Some(ScannedCandidate(Foreign(1)));
  }

  lemma StaleIsValid()
    ensures Create(StaleHold(), TwoVersions()) == Ok(Snapshot(StaleHold(), TwoVersions(), [], [], []))
  {
    hide ValidLedger, ValidHoldCandidate, ValidCandidate, TwoVersions;
    var s := Snapshot(StaleHold(), TwoVersions(), [], [], []);
    WitnessStart();
    CandidatesAreValid();
    TwoVersionsAreValid();
    StaleProjection();
    TwoVersionsFacts();
    assert ConsumedOperations(s.ledger.entries) == {} && CommittedOperations(s.commits) == {};
    assert multiset(s.audit) == multiset{};
  }

  lemma TwoVersionsFacts()
    ensures var l := TwoVersions();
      && l.entries == [Entry(ScannedCandidate(Foreign(1)), None), Entry(LaterCandidate(), None)]
      && l.claimRequests == [] && l.claimResults == []
  {
  }

  lemma StalePassesGuards()
    ensures var r, s := ExpireRequestFor(ScannedCandidate(Foreign(1))), Snapshot(StaleHold(), TwoVersions(), [], [], []);
      ExpirePassesGuards(r, s, At(1500), 1)
  {
    WitnessStart();
    NamesAreStable();
    assert {HOLD} - {HOLD} == {};
  }

  /** `validate` accepts this snapshot too, and the expiry under the hold's own candidate passes every
      guard and is then rejected: the terminal hold would leave a newer candidate behind. */
  lemma StaleWitness()
    ensures var r, s := ExpireRequestFor(ScannedCandidate(Foreign(1))), Snapshot(StaleHold(), TwoVersions(), [], [], []);
      && Create(StaleHold(), TwoVersions()) == Ok(s)
      && ExpirePassesGuards(r, s, At(1500), 1) && Rejects(s, Expire(r, At(1500), 1))
  {
    hide ValidSnapshot, Rejects, ExpirePassesGuards, TwoVersions;
    var r, s := ExpireRequestFor(ScannedCandidate(Foreign(1))), Snapshot(StaleHold(), TwoVersions(), [], [], []);
    StaleIsValid();
    StalePassesGuards();
    CreateIsValid(StaleHold(), TwoVersions());
    TwoVersionsFacts();
    assert s.ledger.entries[1] == Entry(LaterCandidate(), None);
    RejectsExactly(s, Expire(r, At(1500), 1));
  }
}
