/** SCAN of any snapshot that `validate` accepts: exactly when it is answered, refused by a guard, or
    rejected by the validation of what it built. */
module HoldExactScan {
  import opened Wrappers
  import opened Text
  import opened HoldModel
  import opened HoldTransitions
  import opened HoldFacts

  function ScanResultOf(q: ScanRequest, c: Candidate): ScanResult {
    ScanResult(q.scanOperationId, q.requestDigest, [c])
  }

  /** The ledger with one more scan. */
  function AppendScan(l: Ledger, q: ScanRequest, c: Candidate): Ledger {
    l.(highWater := c.fence,
       scanRequests := l.scanRequests + [q],
       scanResults := l.scanResults + [ScanResultOf(q, c)],
       entries := l.entries + [Entry(c, None)],
       seals := l.seals + [SealOf(q, ScanResultOf(q, c), c)],
       allocations := l.allocations + [Allocation(q, c, l.highWater)])
  }

  function ScanNext(s: Snapshot, q: ScanRequest, c: Candidate): Snapshot {
    s.(hold := s.hold.(candidate := Some(c)), ledger := AppendScan(s.ledger, q, c))
  }

  /******* The grown ledger *******/

  /** A candidate that SCAN may append: the next fence, a new operation ID and unused bearers. */
  ghost predicate IsNextScan(l: Ledger, q: ScanRequest, c: Candidate) {
    && l.claimRequests == [] && l.claimResults == []
    && ValidScanRequest(q) && ValidCandidate(c)
    && c.scanOperationId == q.scanOperationId
    && c.fence == l.highWater + 1
    && FindScan(l, q.scanOperationId).None?
  }

  lemma NextScanResult(l: Ledger, q: ScanRequest, c: Candidate)
    requires IsNextScan(l, q, c)
    ensures ValidScanResultFor(ScanResultOf(q, c), q)
  {
  }

  lemma OneMoreEvidence(l: Ledger, q: ScanRequest, c: Candidate)
    requires |l.scanRequests| == |l.scanResults|
    ensures var l' := AppendScan(l, q, c);
      EvidenceOf(l'.scanRequests, l'.scanResults)
      == EvidenceOf(l.scanRequests, l.scanResults) + [Evidence(q, ScanResultOf(q, c), c)]
  {
    var l' := AppendScan(l, q, c);
    assert l'.scanRequests[..|l.scanRequests|] == l.scanRequests && l'.scanResults[..|l.scanResults|] == l.scanResults;
    assert EvidenceIn(q, ScanResultOf(q, c)) == [Evidence(q, ScanResultOf(q, c), c)];
  }

  lemma NewEvidenceLease(l: Ledger, c: Candidate)
    requires |l.scanRequests| == |l.scanResults| && ValidProjection(l) && Unused(c, l)
    ensures forall e | e in EvidenceOf(l.scanRequests, l.scanResults) :: e.candidate.leaseId != c.leaseId
    ensures c.leaseId !in EvidenceLeases(EvidenceOf(l.scanRequests, l.scanResults))
  {
    var evidence := EvidenceOf(l.scanRequests, l.scanResults);
    UnusedIsUnpersisted(l, c);
    forall i | 0 <= i < |evidence| ensures evidence[i].candidate.leaseId != c.leaseId {
      assert PersistedCandidates(l)[i] == evidence[i].candidate;
      assert !SharesBearer(c, PersistedCandidates(l)[i]);
    }
  }

  lemma GrownScans(l: Ledger, q: ScanRequest, c: Candidate)
    requires ValidScans(l) && ValidProjection(l) && IsNextScan(l, q, c) && Unused(c, l)
    ensures ValidScans(AppendScan(l, q, c))
  {
    hide ValidProjection, ValidScanResultFor;
    OneMoreEvidence(l, q, c);
    NewEvidenceLease(l, c);
    NextScanResult(l, q, c);
  }

  lemma OneMoreSealed(seals: seq<Seal>, s: Seal)
    ensures SealedLeases(seals + [s]) == SealedLeases(seals) + {s.leaseId}
  {
    assert (seals + [s])[|seals|] == s && forall i | 0 <= i < |seals| :: (seals + [s])[i] == seals[i];
    forall t | t in SealedLeases(seals) ensures t in SealedLeases(seals + [s]) {
      var i :| 0 <= i < |seals| && seals[i].leaseId == t;
      assert (seals + [s])[i].leaseId == t;
    }
  }

  lemma OneMoreEvidenced(evidence: seq<Evidence>, e: Evidence)
    ensures EvidenceLeases(evidence + [e]) == EvidenceLeases(evidence) + {e.candidate.leaseId}
  {
    assert (evidence + [e])[|evidence|] == e && forall i | 0 <= i < |evidence| :: (evidence + [e])[i] == evidence[i];
    forall t | t in EvidenceLeases(evidence) ensures t in EvidenceLeases(evidence + [e]) {
      var i :| 0 <= i < |evidence| && evidence[i].candidate.leaseId == t;
      assert (evidence + [e])[i].candidate.leaseId == t;
    }
  }

  lemma OneMoreAllocated(allocations: seq<Allocation>, a: Allocation)
    ensures AllocatedLeases(allocations + [a]) == AllocatedLeases(allocations) + {a.candidate.leaseId}
  {
    assert (allocations + [a])[|allocations|] == a;
    assert forall i | 0 <= i < |allocations| :: (allocations + [a])[i] == allocations[i];
    forall t | t in AllocatedLeases(allocations) ensures t in AllocatedLeases(allocations + [a]) {
      var i :| 0 <= i < |allocations| && allocations[i].candidate.leaseId == t;
      assert (allocations + [a])[i].candidate.leaseId == t;
    }
  }

  lemma MembersAreSealed(seals: seq<Seal>)
    ensures forall i | 0 <= i < |seals| :: seals[i].leaseId in SealedLeases(seals)
  {
  }

  lemma MembersAreEvidenced(evidence: seq<Evidence>)
    ensures forall i | 0 <= i < |evidence| :: evidence[i].candidate.leaseId in EvidenceLeases(evidence)
  {
  }

  lemma MembersAreAllocated(allocations: seq<Allocation>)
    ensures forall i | 0 <= i < |allocations| :: allocations[i].candidate.leaseId in AllocatedLeases(allocations)
  {
  }

  lemma SealIsValid(q: ScanRequest, c: Candidate)
    requires ValidCandidate(c)
    ensures ValidSeal(SealOf(q, ScanResultOf(q, c), c))
  {
  }

  lemma GrownSeals(seals: seq<Seal>, evidence: seq<Evidence>, q: ScanRequest, c: Candidate)
    requires ValidSeals(seals, evidence) && ValidCandidate(c) && c.leaseId !in EvidenceLeases(evidence)
    requires c.scanOperationId == q.scanOperationId
    ensures ValidSeals(seals + [SealOf(q, ScanResultOf(q, c), c)], evidence + [Evidence(q, ScanResultOf(q, c), c)])
  {
    hide ValidSeal, EvidenceLeases, SealedLeases;
    SealIsValid(q, c);
    var seals' := seals + [SealOf(q, ScanResultOf(q, c), c)];
    var evidence' := evidence + [Evidence(q, ScanResultOf(q, c), c)];
    MembersAreSealed(seals);
    MembersAreEvidenced(evidence);
    assert seals'[|seals|].leaseId == c.leaseId && evidence'[|evidence|].candidate.leaseId == c.leaseId;
    OneMoreSealed(seals, SealOf(q, ScanResultOf(q, c), c));
    OneMoreEvidenced(evidence, Evidence(q, ScanResultOf(q, c), c));
  }

  lemma GrownAllocations(allocations: seq<Allocation>, evidence: seq<Evidence>, a: Allocation, result: ScanResult)
    requires ValidAllocations(allocations, evidence) && ValidAllocation(a)
    requires a.candidate.leaseId !in EvidenceLeases(evidence)
    ensures ValidAllocations(allocations + [a], evidence + [Evidence(a.request, result, a.candidate)])
  {
    hide ValidAllocation, EvidenceLeases, AllocatedLeases;
    var allocations', evidence' := allocations + [a], evidence + [Evidence(a.request, result, a.candidate)];
    MembersAreAllocated(allocations);
    MembersAreEvidenced(evidence);
    assert allocations'[|allocations|] == a && evidence'[|evidence|].candidate == a.candidate;
    OneMoreAllocated(allocations, a);
    OneMoreEvidenced(evidence, Evidence(a.request, result, a.candidate));
  }

  lemma GrownPersisted(l: Ledger, q: ScanRequest, c: Candidate)
    requires |l.scanRequests| == |l.scanResults| && l.claimResults == []
    ensures PersistedCandidates(AppendScan(l, q, c)) == PersistedCandidates(l) + [c]
  {
    OneMoreEvidence(l, q, c);
  }

  /** The new allocation names the high-water, and only the new entry carries its candidate. */
  lemma NewProvenance(l: Ledger, q: ScanRequest, c: Candidate)
    requires ValidEntries(l) && l.highWater < c.fence
    ensures HasProvenance(AppendScan(l, q, c).entries, Allocation(q, c, l.highWater))
       <==> l.highWater == LastFence(l.entries)
  {
    var entries, a, n := AppendScan(l, q, c).entries, Allocation(q, c, l.highWater), |l.entries|;
    assert forall k | 0 <= k < n :: entries[k] == l.entries[k] && entries[k].candidate != c;
    assert entries[n].candidate == c;
    assert AllocatedAt(entries, a, n) <==> l.highWater == LastFence(l.entries);
  }

  lemma ScanProvenance(l: Ledger, q: ScanRequest, c: Candidate)
    requires ValidEntries(l) && ValidProvenance(l) && l.highWater < c.fence
    ensures ValidProvenance(AppendScan(l, q, c)) <==> l.highWater == LastFence(l.entries)
  {
    hide HasProvenance, ValidEntries;
    var l' := AppendScan(l, q, c);
    NewProvenance(l, q, c);
    assert l'.allocations[|l.allocations|] == Allocation(q, c, l.highWater);
    forall a | 0 <= a < |l.allocations| ensures HasProvenance(l'.entries, l'.allocations[a]) {
      GrownProvenance(l.entries, Entry(c, None), l.allocations[a]);
    }
  }

  /** Without claims their checks are vacuous. */
  lemma ClaimlessIsKept(l: Ledger, l': Ledger)
    requires ValidClaims(l) && ValidTakeovers(l) && ValidPointers(l) && l.claimRequests == []
    requires l'.claimRequests == [] && l'.claimResults == [] && l'.pointers == l.pointers
    ensures ValidClaims(l') && ValidTakeovers(l') && ValidPointers(l')
  {
  }

  /** What grew with the scan: all checks but provenance pass. */
  lemma GrownByScan(l: Ledger, q: ScanRequest, c: Candidate)
    requires ValidLedger(l) && IsNextScan(l, q, c) && Unused(c, l)
    ensures var l' := AppendScan(l, q, c);
      && ValidScans(l') && ValidEntries(l') && ValidProjection(l') && SafeInteger(0, l'.highWater)
      && ValidSeals(l'.seals, EvidenceOf(l'.scanRequests, l'.scanResults))
      && ValidAllocations(l'.allocations, EvidenceOf(l'.scanRequests, l'.scanResults))
  {
    hide ValidSeals, ValidAllocations, ValidEntries, ValidProjection, ValidProvenance;
    hide ValidClaims, ValidTakeovers, ValidPointers;
    var l', evidence := AppendScan(l, q, c), EvidenceOf(l.scanRequests, l.scanResults);
    GrownScans(l, q, c);
    OneMoreEvidence(l, q, c);
    NewEvidenceLease(l, c);
    GrownSeals(l.seals, evidence, q, c);
    GrownAllocations(l.allocations, evidence, Allocation(q, c, l.highWater), ScanResultOf(q, c));
    GrownEntries(l, l', c);
    GrownPersisted(l, q, c);
    GrownProjection(l, l', c);
  }

  /** The ledger with one more scan is valid exactly if the high-water is the last fence. */
  lemma AppendedScanIsValid(l: Ledger, q: ScanRequest, c: Candidate)
    requires ValidLedger(l) && IsNextScan(l, q, c) && Unused(c, l)
    ensures ValidLedger(AppendScan(l, q, c)) <==> l.highWater == LastFence(l.entries)
  {
    GrownByScan(l, q, c);
    ScanProvenance(l, q, c);
    ClaimlessIsKept(l, AppendScan(l, q, c));
  }

  /******* The grown snapshot *******/

  /** The new candidate is for the ACTIVE hold, so it is not newer than what another hold consumed. */
  lemma ScanIsNotNewer(l: Ledger, h: Hold, q: ScanRequest, c: Candidate, e: Entry)
    requires NothingNewer(e, l) && IsDueOf(c.due, h)
    requires !(e.candidate.due.artifactId == h.artifactId && e.candidate.due.holdId == h.holdId)
    ensures NothingNewer(e, AppendScan(l, q, c))
  {
  }

  lemma ScanKeepsEvidence(s: Snapshot, q: ScanRequest, c: Candidate)
    requires ValidSnapshot(s) && s.hold.status == ACTIVE && IsDueOf(c.due, s.hold)
    ensures ValidCommitEvidence(ScanNext(s, q, c))
  {
    hide ValidLedger, ValidHold, ValidHoldCandidate, ValidClaimEvidence, ValidTombstones, ValidCommits, ValidEvents;
    hide CommitMatchesEntry, NothingNewer;
    var s', n := ScanNext(s, q, c), |s.ledger.entries|;
    forall i, k | 0 <= i < |s.commits| && 0 <= k < |s'.ledger.entries| && s'.ledger.entries[k].consumed.Some?
                  && s'.ledger.entries[k].consumed.value.operation == s.commits[i].expireOperationId
      ensures CommitMatchesEntry(s.commits[i], s'.ledger.entries[k])
      ensures NothingNewer(s'.ledger.entries[k], s'.ledger)
      ensures HoldReflects(s'.hold, s.commits[i], s'.ledger.entries[k].candidate)
    {
      assert k < n && s'.ledger.entries[k] == s.ledger.entries[k];
      ActiveIsUnconsumed(s, k);
      ScanIsNotNewer(s.ledger, s.hold, q, c, s.ledger.entries[k]);
    }
  }

  lemma ScanProjects(s: Snapshot, q: ScanRequest, c: Candidate)
    requires ValidEntries(AppendScan(s.ledger, q, c)) && IsDueOf(c.due, s.hold) && s.ledger.claimResults == []
    ensures Latest(AppendScan(s.ledger, q, c).entries, [], s.hold) == Some(c)
    ensures ValidHoldCandidate(ScanNext(s, q, c).hold, ScanNext(s, q, c).ledger)
  {
    var s' := ScanNext(s, q, c);
    var entries, n := s'.ledger.entries, |s.ledger.entries|;
    assert entries[n] == Entry(c, None) && Qualifies(entries[n], [], s.hold);
    LatestIsLast(entries, [], s.hold);
    LatestIsLast(entries, [], s'.hold);
  }

  lemma ScanNextIsValid(s: Snapshot, q: ScanRequest, c: Candidate)
    requires ValidSnapshot(s) && s.hold.status == ACTIVE && IsDueOf(c.due, s.hold)
    requires ValidLedger(AppendScan(s.ledger, q, c)) && ValidCandidate(c)
    ensures ValidSnapshot(ScanNext(s, q, c))
    ensures Latest(AppendScan(s.ledger, q, c).entries, [], s.hold) == Some(c)
  {
    hide ValidLedger, ValidTombstones, ValidCommitEvidence, ValidCommits, ValidEvents, ValidHoldCandidate, Latest;
    ActiveHasNoClaims(s);
    ScanKeepsEvidence(s, q, c);
    ValidLedgerEntries(AppendScan(s.ledger, q, c));
    ScanProjects(s, q, c);
    UnconsumedTombstones(s.ledger.entries, Entry(c, None), s.commits);
  }

  lemma ValidLedgerEntries(l: Ledger)
    requires ValidLedger(l)
    ensures ValidEntries(l)
  {
  }

  /******* The transition *******/

  lemma WithOneScan(l: Ledger, q: ScanRequest, c: Candidate)
    ensures WithScan(l, q, ScanResultOf(q, c), [Allocation(q, c, l.highWater)]) == AppendScan(l, q, c)
  {
    var cs := [c];
    assert seq(|cs|, i requires 0 <= i < |cs| => Entry(cs[i], None)) == [Entry(c, None)];
    assert seq(|cs|, i requires 0 <= i < |cs| => SealOf(q, ScanResultOf(q, c), cs[i]))
        == [SealOf(q, ScanResultOf(q, c), c)];
  }

  lemma NextAllocation(l: Ledger, q: ScanRequest, c: Candidate)
    requires IsNextScan(l, q, c) && SafeInteger(0, l.highWater)
    ensures AllocatedTo([Allocation(q, c, l.highWater)], q, [c])
    ensures AllAppendable(l, [c], [Allocation(q, c, l.highWater)]) <==> Unused(c, l)
  {
    var allocations := [Allocation(q, c, l.highWater)];
    assert AllAppendable(l, [c], allocations) <==> Appendable(l, [c], allocations, 0);
  }

  lemma EvaluateRecordScan(l: Ledger, q: ScanRequest, c: Candidate)
    requires ValidLedger(l) && FindScan(l, q.scanOperationId).None?
    requires AllocatedTo([Allocation(q, c, l.highWater)], q, [c]) && ValidScanResultFor(ScanResultOf(q, c), q)
    ensures var allocations := [Allocation(q, c, l.highWater)];
      var l' := WithScan(l, q, ScanResultOf(q, c), allocations);
      RecordScan(l, q, ScanResultOf(q, c), allocations)
      == if !AllAppendable(l, [c], allocations) then Err(Refused(BearerReused))
         else if !ValidLedger(l') then Err(Rejected(LedgerAfter))
         else Ok(l')
  {
    hide ValidLedger, AllocatedTo, AllAppendable, ValidScanResultFor, WithScan;
  }

  /** `_record_scan` of the next scan. */
  lemma RecordScanOutcome(l: Ledger, q: ScanRequest, c: Candidate)
    requires ValidLedger(l) && IsNextScan(l, q, c)
    ensures RecordScan(l, q, ScanResultOf(q, c), [Allocation(q, c, l.highWater)])
         == if !Unused(c, l) then Err(Refused(BearerReused))
            else if l.highWater != LastFence(l.entries) then Err(Rejected(LedgerAfter))
            else Ok(AppendScan(l, q, c))
  {
    hide AllocatedTo, AllAppendable, ValidScanResultFor, WithScan, RecordScan, Unused;
    NextScanResult(l, q, c);
    NextAllocation(l, q, c);
    WithOneScan(l, q, c);
    EvaluateRecordScan(l, q, c);
    if Unused(c, l) {
      AppendedScanIsValid(l, q, c);
    }
  }

  /** What a scan of an ACTIVE hold may still run into, once its operation ID is new. */
  ghost function ScanRefusal(s: Snapshot, c: Candidate, now: int): Option<Reason>
    requires s.hold.expires.Some?
  {
    if now < s.hold.expires.value then Some(TooEarly)
    else if !ValidCandidate(c) then Some(OutOfRange)
    else if !Unused(c, s.ledger) then Some(BearerReused)
    else None
  }

  lemma EvaluateFreshScan(q: ScanRequest, s: Snapshot, ctx: Context, leaseId: Token, token: Token)
    requires s.hold.status == ACTIVE && s.hold.expires.Some? && s.hold.dueIndexed && s.hold.dueScore == s.hold.expires
    requires var c := IssueCandidate(q, s, ctx, leaseId, token);
      var record := RecordScan(s.ledger, q, ScanResultOf(q, c), [Allocation(q, c, s.ledger.highWater)]);
      ValidCandidate(c) ==>
        && ValidScanResultFor(ScanResultOf(q, c), q)
        && (record.Ok? ==>
              && record.value == AppendScan(s.ledger, q, c)
              && Latest(AppendScan(s.ledger, q, c).entries, [], s.hold) == Some(c)
              && (s.hold.expires.value <= ctx.now ==> ValidSnapshot(ScanNext(s, q, c))))
    ensures var c := IssueCandidate(q, s, ctx, leaseId, token);
      var record := RecordScan(s.ledger, q, ScanResultOf(q, c), [Allocation(q, c, s.ledger.highWater)]);
      FreshScan(q, s, ctx, leaseId, token)
      == if ctx.now < s.hold.expires.value then Err(Refused(TooEarly))
         else if !ValidCandidate(c) then Err(Refused(OutOfRange))
         else if record.Err? then Err(record.error)
         else Ok((ScanNext(s, q, c), ScanResultOf(q, c)))
  {
    hide ValidCandidate, ValidScanResultFor, RecordScan, Latest, ValidSnapshot;
  }

  lemma IssuedIsNext(q: ScanRequest, s: Snapshot, ctx: Context, leaseId: Token, token: Token)
    requires ValidSnapshot(s) && s.hold.status == ACTIVE && s.hold.expires.Some?
    requires ValidScanRequest(q) && FindScan(s.ledger, q.scanOperationId).None?
    ensures var c := IssueCandidate(q, s, ctx, leaseId, token);
      IsDueOf(c.due, s.hold) && (ValidCandidate(c) ==> IsNextScan(s.ledger, q, c))
  {
    ActiveHasNoClaims(s);
  }

  /** A scan of a valid ACTIVE snapshot under a new ID: refused by a guard, rejected exactly if the
      high-water is not the last entry's fence, and otherwise answered. */
  lemma FreshScanOutcome(q: ScanRequest, s: Snapshot, ctx: Context, leaseId: Token, token: Token)
    requires ValidSnapshot(s) && s.hold.status == ACTIVE && s.hold.expires.Some?
    requires ValidScanRequest(q) && FindScan(s.ledger, q.scanOperationId).None?
    ensures var c := IssueCandidate(q, s, ctx, leaseId, token);
      FreshScan(q, s, ctx, leaseId, token)
      == if ScanRefusal(s, c, ctx.now).Some? then Err(Refused(ScanRefusal(s, c, ctx.now).value))
         else if s.ledger.highWater != LastFence(s.ledger.entries) then Err(Rejected(LedgerAfter))
         else Ok((ScanNext(s, q, c), ScanResultOf(q, c)))
  {
    hide ValidLedger, RecordScan, Latest, ValidCandidate, ValidScanResultFor, IsNextScan, AppendScan, FreshScan, Unused;
    var c := IssueCandidate(q, s, ctx, leaseId, token);
    IssuedIsNext(q, s, ctx, leaseId, token);
    if ValidCandidate(c) {
      NextScanResult(s.ledger, q, c);
      RecordScanOutcome(s.ledger, q, c);
      if Unused(c, s.ledger) && s.ledger.highWater == LastFence(s.ledger.entries) {
        AppendedScanIsValid(s.ledger, q, c);
        ScanNextIsValid(s, q, c);
      }
    }
    EvaluateFreshScan(q, s, ctx, leaseId, token);
  }

  ghost predicate ScanAdmitted(q: ScanRequest, ctx: Context) {
    ValidScanRequest(q) && ValidContext(ctx) && OnReaperChannel(ctx) && ctx.principal == REAPER_PRINCIPAL_ID
  }

  /** Every guard of a scan under a new ID passes. */
  ghost predicate ScanPassesGuards(q: ScanRequest, s: Snapshot, ctx: Context, leaseId: Token, token: Token) {
    && ScanAdmitted(q, ctx)
    && FindScan(s.ledger, q.scanOperationId).None?
    && s.hold.status == ACTIVE && s.hold.expires.Some?
    && ScanRefusal(s, IssueCandidate(q, s, ctx, leaseId, token), ctx.now).None?
  }

  lemma ScanReduces(q: ScanRequest, s: Snapshot, ctx: Context, leaseId: Token, token: Token)
    requires ValidSnapshot(s) && leaseId != token
    ensures |s.ledger.scanRequests| == |s.ledger.scanResults|
    ensures var r := ApplyScan(q, s, ctx, leaseId, token);
      && (!ScanAdmitted(q, ctx) ==> r.Err? && r.error.Refused?)
      && (ScanAdmitted(q, ctx) ==>
            match FindScan(s.ledger, q.scanOperationId)
            case Some(i) => r == StoredScan(q, s, ctx, i)
            case None => r == FreshScan(q, s, ctx, leaseId, token))
  {
    hide ValidScanRequest, FreshScan, StoredScan;
  }

  lemma UndatedScanIsRefused(q: ScanRequest, s: Snapshot, ctx: Context, leaseId: Token, token: Token)
    requires s.hold.status != ACTIVE || s.hold.expires.None?
    ensures var r := FreshScan(q, s, ctx, leaseId, token); r.Err? && r.error.Refused?
  {
  }

  lemma AdmittedIsValid(q: ScanRequest, ctx: Context)
    ensures ScanAdmitted(q, ctx) ==> ValidScanRequest(q)
  {
  }

  /** SCAN of any valid snapshot under a new ID. */
  lemma ScanOutcome(q: ScanRequest, s: Snapshot, ctx: Context, leaseId: Token, token: Token)
    requires ValidSnapshot(s) && leaseId != token
    ensures var r := ApplyScan(q, s, ctx, leaseId, token);
      if ScanPassesGuards(q, s, ctx, leaseId, token) then
        var c := IssueCandidate(q, s, ctx, leaseId, token);
        r == if s.ledger.highWater == LastFence(s.ledger.entries) then Ok((ScanNext(s, q, c), ScanResultOf(q, c)))
             else Err(Rejected(LedgerAfter))
      else (r.Err? ==> r.error.Refused?) && (r.Ok? ==> FindScan(s.ledger, q.scanOperationId).Some?)
  {
    hide ValidSnapshot, ScanAdmitted, FreshScan, ScanRefusal, ScanNext, ApplyScan;
    ScanReduces(q, s, ctx, leaseId, token);
    AdmittedIsValid(q, ctx);
    if ScanAdmitted(q, ctx) && FindScan(s.ledger, q.scanOperationId).None? {
      if s.hold.status == ACTIVE && s.hold.expires.Some? {
        FreshScanOutcome(q, s, ctx, leaseId, token);
      } else {
        UndatedScanIsRefused(q, s, ctx, leaseId, token);
      }
    }
  }
}
