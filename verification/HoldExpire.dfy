/** EXPIRE: the first one commits and keeps the invariant; later ones replay its answer. */
module HoldExpire {
  import opened Wrappers
  import opened Text
  import opened HoldModel
  import opened HoldTransitions
  import opened HoldInvariant
  import opened HoldExactExpire
  import opened HoldClaim

  /******* The first expiry *******/

  lemma SpendKeepsCandidates(l: Ledger, r: ExpireRequest, now: int)
    ensures var l' := Spend(l, r, now);
      && |l'.entries| == |l.entries|
      && (forall i | 0 <= i < |l.entries| :: l'.entries[i].candidate == l.entries[i].candidate)
      && EntryCandidates(l'.entries) == EntryCandidates(l.entries)
  {
  }

  lemma SpendKeepsEntries(l: Ledger, r: ExpireRequest, now: int)
    requires Entries(l) && SafeInteger(0, now)
    ensures Entries(Spend(l, r, now))
  {
    var l' := Spend(l, r, now);
    forall i | 0 <= i < |l'.entries|
      ensures ValidEntry(l'.entries[i]) && l'.entries[i].candidate.fence == i + 1
    {
      var entry := l.entries[i];
    }
    forall i, j | 0 <= i < j < |l'.entries| ensures !SharesBearer(l'.entries[i].candidate, l'.entries[j].candidate) {
      assert !SharesBearer(l.entries[i].candidate, l.entries[j].candidate);
    }
  }

  lemma SpendKeepsScans(l: Ledger, r: ExpireRequest, now: int)
    requires Scans(l)
    ensures Scans(Spend(l, r, now))
  {
    var l' := Spend(l, r, now);
    SpendKeepsCandidates(l, r, now);
    forall i | 0 <= i < |l'.scanRequests| ensures ScanSlot(l', i) {
      var slot := ScanSlot(l, i);
    }
  }

  lemma SpendKeepsLedger(l: Ledger, r: ExpireRequest, now: int)
    requires LedgerInv(l) && l.claimRequests == [] && SafeInteger(0, now)
    ensures LedgerInv(Spend(l, r, now))
  {
    SpendKeepsEntries(l, r, now);
    SpendKeepsScans(l, r, now);
  }

  lemma LastEntryLookup(l: Ledger, leaseId: Token)
    requires Entries(l) && l.entries != [] && l.entries[|l.entries| - 1].candidate.leaseId == leaseId
    ensures FindEntry(l, leaseId) == Some(|l.entries| - 1)
  {
  }

  lemma ExpireNextIsClosed(s: Snapshot, r: ExpireRequest, ctx: Context, fence: int)
    requires SnapshotInv(s) && Open(s) && ValidExpireRequest(r) && ValidContext(ctx)
    requires ExpireGuards(r, s, ctx, fence)
    ensures Closed(ExpireNext(s, r, s.hold.candidate.value, ctx.now))
  {
    var c := s.hold.candidate.value;
    LastEntryLookup(s.ledger, c.leaseId);
    NewCommitMatches(r, s.hold, c, ctx, fence);
    var s' := ExpireNext(s, r, c, ctx.now);
    assert Tombstone(s'.ledger) == Entry(c, Some(Consumption(r.expireOperationId, ctx.now)));
  }

  lemma ExpireKeepsInvariant(s: Snapshot, r: ExpireRequest, ctx: Context, fence: int)
    requires SnapshotInv(s) && Open(s) && ValidExpireRequest(r) && ValidContext(ctx)
    requires ExpireGuards(r, s, ctx, fence)
    ensures SnapshotInv(ExpireNext(s, r, s.hold.candidate.value, ctx.now))
  {
    SpendKeepsLedger(s.ledger, r, ctx.now);
    ExpireNextIsClosed(s, r, ctx, fence);
    ExpiredHoldRange(s.hold);
  }

  /** The candidate on an open hold is the last entry, so nothing is newer. */
  lemma CandidateIsNewest(s: Snapshot)
    requires LedgerInv(s.ledger) && Open(s) && s.hold.candidate.Some?
    ensures NothingNewer(Entry(s.hold.candidate.value, None), s.ledger)
  {
    forall i | 0 <= i < |s.ledger.entries|
      ensures s.ledger.entries[i].candidate.fence <= s.hold.candidate.value.fence
    {
      assert s.ledger.entries[i].candidate.fence == i + 1;
    }
  }

  /******* Replays *******/

  /** The one lease that may replay: the consumed one until it is taken over, then the newest claim. */
  ghost function ReplayHolder(s: Snapshot): Candidate
    requires Closed(s)
  {
    if s.ledger.claimRequests == [] then Tombstone(s.ledger).candidate
    else NewestClaim(s.ledger).value.result.candidate
  }

  ghost predicate ReplayGuards(r: ExpireRequest, s: Snapshot, ctx: Context, fence: int) {
    && Closed(s)
    && r.expireOperationId == s.commits[0].expireOperationId
    && var c := ReplayHolder(s);
    && Binds(r, c)
    && ctx.principal == c.ownerPrincipal && ctx.instance == c.ownerInstance && fence == c.fence
    && (s.ledger.claimRequests != [] ==> c.issuedAt <= ctx.now < c.leaseUntil)
  }

  /** The newest claim is the last entry, and shares no bearer with the tombstone. */
  lemma NewestClaimEntry(l: Ledger)
    requires LedgerInv(l) && l.claimRequests != [] && 0 < |l.scanRequests|
    ensures var claim := NewestClaim(l).value;
      && claim.result.candidate == l.entries[|l.entries| - 1].candidate
      && claim.result.expireOperationId == claim.request.expireOperationId
      && claim.result.candidate.leaseId != Tombstone(l).candidate.leaseId
  {
    var j := |l.claimRequests| - 1;
    var slot := ClaimSlot(l, j);
    var last := l.entries[|l.scanRequests| + j];
  }

  lemma NewestClaimFollows(s: Snapshot)
    requires Closed(s) && s.ledger.claimRequests != []
    ensures var l, claim := s.ledger, NewestClaim(s.ledger).value;
      && claim.request.expireOperationId == s.commits[0].expireOperationId
      && claim.result.candidate.ownerPrincipal == s.commits[0].principal
      && s.commits[0].fence == Tombstone(l).candidate.fence < claim.result.candidate.fence
  {
    var l, j := s.ledger, |s.ledger.claimRequests| - 1;
    var follows := ClaimFollowsCommit(l.claimRequests[j], l.claimResults[j], s.commits[0], s.hold);
  }

  /** Facts about the newest claim of a committed snapshot. */
  lemma NewestClaimFacts(s: Snapshot)
    requires LedgerInv(s.ledger) && Closed(s) && s.ledger.claimRequests != []
    ensures var l, claim := s.ledger, NewestClaim(s.ledger).value;
      && claim.result.candidate == l.entries[|l.entries| - 1].candidate
      && claim.result.expireOperationId == s.commits[0].expireOperationId
      && claim.result.candidate.ownerPrincipal == s.commits[0].principal
      && s.commits[0].fence == Tombstone(l).candidate.fence < claim.result.candidate.fence
      && claim.result.candidate.leaseId != Tombstone(l).candidate.leaseId
  {
    hide LedgerInv, CommitMatchesEntry, HoldReflects, ClaimFollowsCommit;
    NewestClaimEntry(s.ledger);
    NewestClaimFollows(s);
  }

  lemma EvaluateReplayAuthority(r: ExpireRequest, l: Ledger, ctx: Context, fence: int, e: nat, current: Option<Claim>)
    requires LedgerInv(l)
    requires FindTombstone(l, r.expireOperationId) == Some(e) && e < |l.entries|
    requires r.due == l.entries[e].candidate.due
    requires CurrentClaim(l, r.expireOperationId) == Ok(current)
    ensures var committed := l.entries[e].candidate;
      ReplayAuthority(l, r, ctx, fence)
      == if ctx.principal != committed.ownerPrincipal then Err(Refused(WrongPrincipal))
         else AuthorityUnder(l, r, committed, current, ctx, fence)
  {
    hide ValidLedger, CurrentClaim, AuthorityUnder;
    LedgerIsValid(l);
  }

  lemma RequestNamesTombstone(r: ExpireRequest, s: Snapshot)
    requires Closed(s) && ValidExpireRequest(r) && r.expireOperationId == s.commits[0].expireOperationId
    ensures var k := |s.ledger.scanRequests| - 1;
      && FindTombstone(s.ledger, r.expireOperationId) == Some(k)
      && r.due == s.ledger.entries[k].candidate.due
  {
    CommitLookup(s, r.expireOperationId);
    CommittedDue(s);
  }

  /** The lookups of `require_replay_authority` all succeed. */
  lemma ReplayAuthorityReduces(r: ExpireRequest, s: Snapshot, ctx: Context, fence: int)
    requires LedgerInv(s.ledger) && Closed(s) && ValidExpireRequest(r)
    requires r.expireOperationId == s.commits[0].expireOperationId
    ensures var l, committed := s.ledger, Tombstone(s.ledger).candidate;
      ReplayAuthority(l, r, ctx, fence)
      == if ctx.principal != committed.ownerPrincipal then Err(Refused(WrongPrincipal))
         else AuthorityUnder(l, r, committed, NewestClaim(l), ctx, fence)
  {
    RequestNamesTombstone(r, s);
    CurrentClaimIsNewest(s);
    EvaluateReplayAuthority(r, s.ledger, ctx, fence, |s.ledger.scanRequests| - 1, NewestClaim(s.ledger));
  }

  lemma AuthorityOfCommitted(r: ExpireRequest, s: Snapshot, ctx: Context, fence: int)
    requires LedgerInv(s.ledger) && Closed(s)
    requires r.expireOperationId == s.commits[0].expireOperationId
    requires ctx.principal == Tombstone(s.ledger).candidate.ownerPrincipal
    requires r.leaseId == Tombstone(s.ledger).candidate.leaseId
    ensures var a := CommittedAuthority(r, Tombstone(s.ledger).candidate, NewestClaim(s.ledger), ctx, fence);
      if ReplayGuards(r, s, ctx, fence) then a == Ok(ReplayHolder(s)) else a.Err? && a.error.Refused?
  {
    if s.ledger.claimRequests != [] {
      NewestClaimFacts(s);
    }
  }

  lemma NewestEntryLookup(s: Snapshot)
    requires LedgerInv(s.ledger) && Closed(s) && s.ledger.claimRequests != []
    ensures var l := s.ledger;
      && FindEntry(l, NewestClaim(l).value.result.candidate.leaseId) == Some(|l.entries| - 1)
      && l.entries[|l.entries| - 1] == Entry(NewestClaim(l).value.result.candidate, None)
  {
    hide ValidEntry, CommitMatchesEntry, HoldReflects, ClaimFollowsCommit;
    NewestClaimFacts(s);
    LastEntryLookup(s.ledger, NewestClaim(s.ledger).value.result.candidate.leaseId);
    var slot := ClaimSlot(s.ledger, |s.ledger.claimRequests| - 1);
  }

  /** Only the newest claim carries the newest candidate. */
  lemma NewestResultLookup(l: Ledger, c: Candidate)
    requires Entries(l) && Claims(l) && l.claimRequests != [] && c == NewestClaim(l).value.result.candidate
    ensures First(l.claimResults, (q: ClaimResult) => q.candidate == c) == Some(|l.claimRequests| - 1)
  {
    ClaimFences(l);
  }

  lemma EvaluateClaimedAuthority(r: ExpireRequest, l: Ledger, ctx: Context, fence: int, i: nat, committed: Candidate, claim: Claim)
    requires Entries(l) && Claims(l) && l.claimRequests != [] && claim == NewestClaim(l).value
    requires FindEntry(l, r.leaseId) == Some(i) && i < |l.entries| && l.entries[i] == Entry(claim.result.candidate, None)
    requires claim.result.expireOperationId == r.expireOperationId && committed.fence < claim.result.candidate.fence
    ensures var c, a := claim.result.candidate, ClaimedAuthority(l, r, committed, Some(claim), ctx, fence);
      if Binds(r, c) && ctx.principal == c.ownerPrincipal && ctx.instance == c.ownerInstance && fence == c.fence
         && c.issuedAt <= ctx.now < c.leaseUntil
      then a == Ok(c) else a.Err? && a.error.Refused?
  {
    NewestResultLookup(l, claim.result.candidate);
    var slot := ClaimSlot(l, |l.claimRequests| - 1);
  }

  lemma NewestAuthority(r: ExpireRequest, s: Snapshot, ctx: Context, fence: int)
    requires LedgerInv(s.ledger) && Closed(s) && s.ledger.claimRequests != []
    requires r.expireOperationId == s.commits[0].expireOperationId
    requires r.leaseId == NewestClaim(s.ledger).value.result.candidate.leaseId
    ensures var c := NewestClaim(s.ledger).value.result.candidate;
      var a := ClaimedAuthority(s.ledger, r, Tombstone(s.ledger).candidate, NewestClaim(s.ledger), ctx, fence);
      if Binds(r, c) && ctx.principal == c.ownerPrincipal && ctx.instance == c.ownerInstance && fence == c.fence
         && c.issuedAt <= ctx.now < c.leaseUntil
      then a == Ok(c) else a.Err? && a.error.Refused?
  {
    hide ClaimedAuthority, ValidEntry, CommitMatchesEntry, HoldReflects, ClaimFollowsCommit;
    var l := s.ledger;
    NewestClaimFacts(s);
    NewestEntryLookup(s);
    EvaluateClaimedAuthority(r, l, ctx, fence, |l.entries| - 1, Tombstone(l).candidate, NewestClaim(l).value);
  }

  lemma AuthorityOfNewest(r: ExpireRequest, s: Snapshot, ctx: Context, fence: int)
    requires LedgerInv(s.ledger) && Closed(s) && s.ledger.claimRequests != []
    requires r.expireOperationId == s.commits[0].expireOperationId
    requires r.leaseId == NewestClaim(s.ledger).value.result.candidate.leaseId
    ensures var a := ClaimedAuthority(s.ledger, r, Tombstone(s.ledger).candidate, NewestClaim(s.ledger), ctx, fence);
      if ReplayGuards(r, s, ctx, fence) then a == Ok(ReplayHolder(s)) else a.Err? && a.error.Refused?
  {
    hide ClaimedAuthority, LedgerInv, CommitMatchesEntry, HoldReflects, ClaimFollowsCommit;
    NewestAuthority(r, s, ctx, fence);
  }

  lemma ClaimsMatchRequests(l: Ledger)
    requires Claims(l)
    ensures forall j | 0 <= j < |l.claimRequests| :: ValidClaimResultFor(l.claimResults[j], l.claimRequests[j])
  {
    forall j | 0 <= j < |l.claimRequests| ensures ValidClaimResultFor(l.claimResults[j], l.claimRequests[j]) {
      var slot := ClaimSlot(l, j);
    }
  }

  lemma EvaluateOtherAuthority(r: ExpireRequest, l: Ledger, ctx: Context, fence: int, committed: Candidate, current: Option<Claim>)
    requires |l.claimRequests| == |l.claimResults|
    requires forall j | 0 <= j < |l.claimRequests| :: ValidClaimResultFor(l.claimResults[j], l.claimRequests[j])
    requires current.Some? ==> current.value.result.candidate.leaseId != r.leaseId
    ensures var a := ClaimedAuthority(l, r, committed, current, ctx, fence); a.Err? && a.error.Refused?
  {
  }

  lemma ReplayAuthorityOutcome(r: ExpireRequest, s: Snapshot, ctx: Context, fence: int)
    requires LedgerInv(s.ledger) && Closed(s) && ValidExpireRequest(r)
    requires r.expireOperationId == s.commits[0].expireOperationId
    ensures var a := ReplayAuthority(s.ledger, r, ctx, fence);
      if ReplayGuards(r, s, ctx, fence) then a == Ok(ReplayHolder(s)) else a.Err? && a.error.Refused?
  {
    var l := s.ledger;
    ReplayAuthorityReduces(r, s, ctx, fence);
    HolderPrincipal(s);
    if ctx.principal != Tombstone(l).candidate.ownerPrincipal {
    } else if r.leaseId == Tombstone(l).candidate.leaseId {
      AuthorityOfCommitted(r, s, ctx, fence);
    } else if r.leaseId == ReplayHolder(s).leaseId {
      AuthorityOfNewest(r, s, ctx, fence);
    } else {
      ClaimsMatchRequests(l);
      EvaluateOtherAuthority(r, l, ctx, fence, Tombstone(l).candidate, NewestClaim(l));
    }
  }

  lemma HolderPrincipal(s: Snapshot)
    requires LedgerInv(s.ledger) && Closed(s)
    ensures ReplayHolder(s).ownerPrincipal == s.commits[0].principal == Tombstone(s.ledger).candidate.ownerPrincipal
  {
    CommittedDue(s);
    if s.ledger.claimRequests != [] {
      NewestClaimFacts(s);
    }
  }

  lemma CommitAnswersHolder(r: ExpireRequest, s: Snapshot, ctx: Context, fence: int)
    requires LedgerInv(s.ledger) && ValidExpireRequest(r) && ReplayGuards(r, s, ctx, fence)
    ensures ResultAnswers(s.commits[0], r, ctx.principal, fence, Some(ReplayHolder(s)))
    ensures s.hold.artifactId == r.due.artifactId && s.hold.holdId == r.due.holdId
    ensures s.hold.holdDigest == s.commits[0].expectedHoldDigest && s.commits[0].result.version <= s.hold.version
  {
    CommittedDue(s);
    if s.ledger.claimRequests != [] {
      NewestClaimFacts(s);
    }
  }

  /** A request for the committed operation: answered with the first result, or refused. */
  lemma ReplayOutcome(r: ExpireRequest, s: Snapshot, ctx: Context, fence: int)
    requires LedgerInv(s.ledger) && Closed(s) && ValidExpireRequest(r)
    requires r.expireOperationId == s.commits[0].expireOperationId
    ensures var a := Replay(r, s, s.commits[0], ctx, fence);
      if ReplayGuards(r, s, ctx, fence) then a == Ok((s, s.commits[0].result)) else a.Err? && a.error.Refused?
  {
    ReplayAuthorityOutcome(r, s, ctx, fence);
    if ReplayGuards(r, s, ctx, fence) {
      CommitAnswersHolder(r, s, ctx, fence);
    }
  }
}
