/** EXPIRE of any snapshot that `validate` accepts: exactly when it commits, replays, is refused by a
    guard, or is rejected by the validation of what it built. */
module HoldExactExpire {
  import opened Wrappers
  import opened Text
  import opened HoldModel
  import opened HoldTransitions
  import opened HoldFacts
  import Sorting

  /** The new version and the count of remaining holds stay exact integers. */
  ghost predicate ExpireInRange(h: Hold) {
    h.version < MAX_SAFE_INTEGER && |h.activeHoldIds - {h.holdId}| <= MAX_SAFE_INTEGER
  }

  ghost function NewCommit(r: ExpireRequest, h: Hold, c: Candidate, now: int): Commit {
    CommitFor(r, c, ResultFor(r, h, now), h, Expired(h), now)
  }

  /** The entry under the request's lease becomes the tombstone. */
  ghost function Spend(l: Ledger, r: ExpireRequest, now: int): Ledger {
    match FindEntry(l, r.leaseId)
    case None => l
    case Some(i) =>
      l.(entries := l.entries[i := Entry(l.entries[i].candidate, Some(Consumption(r.expireOperationId, now)))])
  }

  ghost function ExpireNext(s: Snapshot, r: ExpireRequest, c: Candidate, now: int): Snapshot {
    var commit := NewCommit(r, s.hold, c, now);
    Snapshot(Expired(s.hold), Spend(s.ledger, r, now), s.commits + [commit],
             s.audit + [EventOf(AUDIT, commit)], s.outbox + [EventOf(OUTBOX, commit)])
  }

  /******* The commit *******/

  lemma BoundRequest(r: ExpireRequest, c: Candidate)
    requires ValidExpireRequest(r) && Binds(r, c)
    ensures r == ExpireRequestFor(c)
  {
  }

  lemma ExpiredHoldRange(h: Hold)
    requires ValidHold(h) && h.status == ACTIVE
    ensures ValidHold(Expired(h)) <==> h.version < MAX_SAFE_INTEGER
  {
  }

  lemma NewCommitIsEvident(r: ExpireRequest, h: Hold, c: Candidate, ctx: Context, fence: int)
    requires ValidHold(h) && ValidCandidate(c) && ValidExpireRequest(r) && SafeInteger(0, ctx.now)
    requires ExpiryPredicate(r, h, c, ctx, fence) && ExpireInRange(h)
    ensures ValidCommit(NewCommit(r, h, c, ctx.now))
    ensures ResultAnswers(NewCommit(r, h, c, ctx.now), r, c.ownerPrincipal, c.fence, None)
    ensures OnlyExpires(h, Expired(h), c, ResultFor(r, h, ctx.now), ctx.now)
  {
  }

  lemma NewCommitMatches(r: ExpireRequest, h: Hold, c: Candidate, ctx: Context, fence: int)
    requires ValidHold(h) && ValidCandidate(c) && ValidExpireRequest(r) && SafeInteger(0, ctx.now)
    requires ExpiryPredicate(r, h, c, ctx, fence) && ExpireInRange(h)
    ensures CommitMatchesEntry(NewCommit(r, h, c, ctx.now), Entry(c, Some(Consumption(r.expireOperationId, ctx.now))))
    ensures HoldReflects(Expired(h), NewCommit(r, h, c, ctx.now), c)
  {
    BoundRequest(r, c);
    NewCommitIsEvident(r, h, c, ctx, fence);
  }

  lemma ProjectOutcome(r: ExpireRequest, h: Hold, ctx: Context, fence: int)
    requires ValidHold(h) && ValidExpireRequest(r) && ValidContext(ctx)
    ensures var ok := h.candidate.Some? && ExpiryPredicate(r, h, h.candidate.value, ctx, fence) && ExpireInRange(h);
      && (ok ==> Project(r, h, ctx, fence) == Ok(NewCommit(r, h, h.candidate.value, ctx.now)))
      && (!ok ==> Project(r, h, ctx, fence).Err? && Project(r, h, ctx, fence).error.Refused?)
  {
    if h.candidate.Some? && ExpiryPredicate(r, h, h.candidate.value, ctx, fence) {
      ExpiredHoldRange(h);
      if ExpireInRange(h) {
        NewCommitIsEvident(r, h, h.candidate.value, ctx, fence);
      }
    }
  }

  /******* The spent ledger *******/

  lemma SpentProvenance(entries: seq<Entry>, i: nat, e: Entry, a: Allocation)
    requires HasProvenance(entries, a) && i < |entries| && e.candidate == entries[i].candidate
    ensures HasProvenance(entries[i := e], a)
  {
    var k :| 0 <= k < |entries| && AllocatedAt(entries, a, k);
    assert AllocatedAt(entries[i := e], a, k);
  }

  lemma SpentEntries(l: Ledger, r: ExpireRequest, now: int)
    requires ValidEntries(l) && FindEntry(l, r.leaseId).Some? && SafeInteger(0, now)
    ensures ValidEntries(Spend(l, r, now))
  {
    var l' := Spend(l, r, now);
    forall k | 0 <= k < |l'.entries|
      ensures l'.entries[k].candidate == l.entries[k].candidate && ValidEntry(l'.entries[k])
      ensures l'.entries[k].candidate.fence <= l'.highWater
    {
      assert ValidEntry(l.entries[k]);
    }
  }

  lemma SpentIsValid(l: Ledger, r: ExpireRequest, now: int)
    requires ValidLedger(l) && FindEntry(l, r.leaseId).Some? && SafeInteger(0, now)
    ensures ValidLedger(Spend(l, r, now))
  {
    hide ValidEntries, HasProvenance, ValidSeals, ValidAllocations, ValidScans, ValidClaims, ValidTakeovers, ValidPointers;
    var l', i := Spend(l, r, now), FindEntry(l, r.leaseId).value;
    SameScans(l, l');
    SameClaims(l, l');
    SpentEntries(l, r, now);
    forall a | 0 <= a < |l'.allocations| ensures HasProvenance(l'.entries, l'.allocations[a]) {
      SpentProvenance(l.entries, i, l'.entries[i], l.allocations[a]);
    }
    assert EntryCandidates(l'.entries) == EntryCandidates(l.entries);
  }

  lemma ConsumeOutcome(l: Ledger, r: ExpireRequest, now: int)
    requires ValidLedger(l) && FindEntry(l, r.leaseId).Some? && SafeInteger(0, now)
    requires var e := l.entries[FindEntry(l, r.leaseId).value]; e.consumed.None? && Binds(r, e.candidate)
    ensures Consume(l, r, now) == Ok(Spend(l, r, now))
  {
    hide ValidLedger;
    SpentIsValid(l, r, now);
  }

  /******* The terminal snapshot *******/

  /** The stored events are those of the stored commits and no others. */
  lemma OnlyCommitted(events: seq<Event>, sink: Sink, commits: seq<Commit>)
    requires ValidEvents(events, sink, commits) && ValidCommits(commits)
    ensures forall e | e in events :: e.expireOperationId in CommittedOperations(commits)
  {
    hide ValidCommit, ValidEvent;
    var recorded := seq(|commits|, i requires 0 <= i < |commits| => EventOf(sink, commits[i]));
    forall i, j | 0 <= i < j < |recorded| ensures recorded[i] != recorded[j] {
      assert commits[i].expireOperationId != commits[j].expireOperationId;
    }
    forall e | e in recorded ensures multiset(events)[e] == 1 {
      var i :| 0 <= i < |recorded| && recorded[i] == e;
      assert e == EventOf(sink, commits[i]);
    }
    Sorting.OnceEach(recorded, events);
    forall e | e in events ensures e.expireOperationId in CommittedOperations(commits) {
      var i :| 0 <= i < |recorded| && recorded[i] == e;
      assert e == EventOf(sink, commits[i]);
    }
  }

  lemma OneMoreEvent(events: seq<Event>, sink: Sink, commits: seq<Commit>, c: Commit)
    requires ValidEvents(events, sink, commits) && ValidCommits(commits) && ValidCommit(c)
    requires c.expireOperationId !in CommittedOperations(commits)
    ensures ValidEvents(events + [EventOf(sink, c)], sink, commits + [c])
  {
    var e, commits' := EventOf(sink, c), commits + [c];
    OnlyCommitted(events, sink, commits);
    assert e !in events;
    forall i | 0 <= i < |commits'| ensures multiset(events + [e])[EventOf(sink, commits'[i])] == 1 {
      if i < |commits| {
        assert commits[i].expireOperationId in CommittedOperations(commits);
        assert EventOf(sink, commits[i]) != e;
      }
    }
  }

  lemma OneMoreCommit(commits: seq<Commit>, c: Commit)
    requires ValidCommits(commits) && ValidCommit(c) && c.expireOperationId !in CommittedOperations(commits)
    ensures ValidCommits(commits + [c])
    ensures CommittedOperations(commits + [c]) == CommittedOperations(commits) + {c.expireOperationId}
  {
    var commits' := commits + [c];
    assert commits'[|commits|] == c && forall i | 0 <= i < |commits| :: commits'[i] == commits[i];
    assert forall i | 0 <= i < |commits| :: commits[i].expireOperationId in CommittedOperations(commits);
    forall id | id in CommittedOperations(commits) ensures id in CommittedOperations(commits') {
      var i :| 0 <= i < |commits| && commits[i].expireOperationId == id;
      assert commits'[i].expireOperationId == id;
    }
  }

  lemma OneMoreTombstone(entries: seq<Entry>, k: nat, x: Consumption, commits: seq<Commit>, c: Commit)
    requires ValidTombstones(entries, commits) && k < |entries| && entries[k].consumed.None?
    requires x.operation == c.expireOperationId && x.operation !in CommittedOperations(commits)
    requires CommittedOperations(commits + [c]) == CommittedOperations(commits) + {c.expireOperationId}
    ensures ValidTombstones(entries[k := Entry(entries[k].candidate, Some(x))], commits + [c])
  {
    hide CommittedOperations;
    var entries' := entries[k := Entry(entries[k].candidate, Some(x))];
    forall i | 0 <= i < |entries| && i != k && entries'[i].consumed.Some?
      ensures entries'[i] == entries[i] && entries[i].consumed.value.operation in ConsumedOperations(entries)
    {
    }
    assert entries'[k].consumed.value.operation == x.operation;
    forall id | id in ConsumedOperations(entries) ensures id in ConsumedOperations(entries') {
      var i :| 0 <= i < |entries| && entries[i].consumed.Some? && entries[i].consumed.value.operation == id;
      assert entries'[i] == entries[i];
    }
    assert ConsumedOperations(entries') == ConsumedOperations(entries) + {x.operation};
  }

  /** Consuming one more entry makes nothing newer, and nothing is newer than itself. */
  lemma SpentIsNotNewer(l: Ledger, k: nat, x: Consumption, e: Entry)
    requires k < |l.entries|
    ensures var l' := l.(entries := l.entries[k := Entry(l.entries[k].candidate, Some(x))]);
      && (NothingNewer(e, l) ==> NothingNewer(e, l'))
      && (e.candidate == l.entries[k].candidate && NothingNewer(e, l') ==> NothingNewer(e, l))
  {
    var l' := l.(entries := l.entries[k := Entry(l.entries[k].candidate, Some(x))]);
    assert forall i | 0 <= i < |l.entries| && i != k :: l'.entries[i] == l.entries[i];
  }

  /** An earlier commit belongs to another hold, so the expiry leaves its evidence alone. */
  lemma EarlierEvidence(s: Snapshot, i: nat, k: nat)
    requires ValidSnapshot(s) && s.hold.status == ACTIVE
    requires i < |s.commits| && k < |s.ledger.entries| && ConsumedBy(s.ledger.entries[k], s.commits[i].expireOperationId)
    ensures CommitMatchesEntry(s.commits[i], s.ledger.entries[k]) && NothingNewer(s.ledger.entries[k], s.ledger)
    ensures HoldReflects(Expired(s.hold), s.commits[i], s.ledger.entries[k].candidate)
  {
    hide ValidLedger, ValidHold, ValidHoldCandidate, ValidClaimEvidence, ValidTombstones, ValidCommits, ValidEvents;
    hide CommitMatchesEntry, NothingNewer;
    var reflects := HoldReflects(s.hold, s.commits[i], s.ledger.entries[k].candidate);
  }

  /** What the terminal snapshot is checked for, besides the new commit's own evidence. */
  lemma TerminalEvidence(s: Snapshot, k: nat, x: Consumption, commit: Commit)
    requires ValidSnapshot(s) && s.hold.status == ACTIVE && k < |s.ledger.entries|
    requires s.ledger.entries[k].consumed.None? && x.operation == commit.expireOperationId
    requires FindCommit(s, commit.expireOperationId).None?
    requires var e := Entry(s.ledger.entries[k].candidate, Some(x));
      CommitMatchesEntry(commit, e) && HoldReflects(Expired(s.hold), commit, e.candidate)
    ensures var e := Entry(s.ledger.entries[k].candidate, Some(x));
      var s' := Snapshot(Expired(s.hold), s.ledger.(entries := s.ledger.entries[k := e]), s.commits + [commit], [], []);
      ValidCommitEvidence(s') <==> NothingNewer(e, s.ledger)
  {
    hide ValidSnapshot, CommitMatchesEntry, NothingNewer, HoldReflects;
    var e := Entry(s.ledger.entries[k].candidate, Some(x));
    var l' := s.ledger.(entries := s.ledger.entries[k := e]);
    var s' := Snapshot(Expired(s.hold), l', s.commits + [commit], [], []);
    SpentIsNotNewer(s.ledger, k, x, e);
    NewIsUnconsumed(s, commit.expireOperationId);
    forall i, j | 0 <= i < |s'.commits| && 0 <= j < |l'.entries| && ConsumedBy(l'.entries[j], s'.commits[i].expireOperationId)
      ensures i < |s.commits| <==> j != k
      ensures CommitMatchesEntry(s'.commits[i], l'.entries[j])
      ensures HoldReflects(s'.hold, s'.commits[i], l'.entries[j].candidate)
      ensures j != k ==> NothingNewer(l'.entries[j], l')
    {
      if i < |s.commits| {
        assert s.commits[i].expireOperationId != commit.expireOperationId;
        EarlierEvidence(s, i, j);
        SpentIsNotNewer(s.ledger, k, x, s.ledger.entries[j]);
      }
    }
    assert ConsumedBy(l'.entries[k], s'.commits[|s.commits|].expireOperationId);
  }

  lemma NewIsUnconsumed(s: Snapshot, operation: Digest)
    requires ValidSnapshot(s) && FindCommit(s, operation).None?
    ensures operation !in CommittedOperations(s.commits)
    ensures forall k | 0 <= k < |s.ledger.entries| :: !ConsumedBy(s.ledger.entries[k], operation)
  {
    forall k | 0 <= k < |s.ledger.entries| && s.ledger.entries[k].consumed.Some?
      ensures s.ledger.entries[k].consumed.value.operation in CommittedOperations(s.commits)
    {
      assert s.ledger.entries[k].consumed.value.operation in ConsumedOperations(s.ledger.entries);
    }
  }

  /** The request names the ACTIVE hold's candidate, which is due and may be consumed. */
  ghost predicate ExpireGuards(r: ExpireRequest, s: Snapshot, ctx: Context, fence: int) {
    && s.hold.candidate.Some?
    && ExpiryPredicate(r, s.hold, s.hold.candidate.value, ctx, fence)
    && ExpireInRange(s.hold)
  }

  lemma OnlyUnderItsLease(l: Ledger, k: nat)
    requires ValidEntries(l) && k < |l.entries|
    ensures FindEntry(l, l.entries[k].candidate.leaseId) == Some(k)
  {
    hide ValidEntry;
    var found := FindEntry(l, l.entries[k].candidate.leaseId);
    assert found.Some?;
  }

  /** The candidate on the hold is an unconsumed entry, the only one under its lease. */
  lemma HoldCandidateEntry(s: Snapshot) returns (k: nat)
    requires ValidSnapshot(s) && s.hold.candidate.Some?
    ensures FindEntry(s.ledger, s.hold.candidate.value.leaseId) == Some(k)
    ensures k < |s.ledger.entries| && s.ledger.entries[k] == Entry(s.hold.candidate.value, None)
    ensures ValidCandidate(s.hold.candidate.value)
  {
    hide ValidCommitEvidence, ValidClaimEvidence, ValidTombstones, ValidCommits, ValidEvents, ValidCandidate;
    var c := s.hold.candidate.value;
    k :| 0 <= k < |s.ledger.entries| && s.ledger.entries[k] == Entry(c, None);
    OnlyUnderItsLease(s.ledger, k);
  }

  /** The snapshot that the expiry builds is valid exactly if no scan of the hold, at whatever
      version, has a later fence. */
  lemma ExpireNextIsValid(r: ExpireRequest, s: Snapshot, ctx: Context, fence: int)
    requires ValidSnapshot(s) && ValidExpireRequest(r) && ValidContext(ctx) && ExpireGuards(r, s, ctx, fence)
    requires FindCommit(s, r.expireOperationId).None?
    ensures var c := s.hold.candidate.value;
      ValidSnapshot(ExpireNext(s, r, c, ctx.now)) <==> NothingNewer(Entry(c, None), s.ledger)
  {
    hide ValidLedger, ValidCommits, ValidCommitEvidence, ValidEvents, ValidTombstones, CommitMatchesEntry, HoldReflects;
    hide NothingNewer, ResultFor;
    var c := s.hold.candidate.value;
    var commit, x := NewCommit(r, s.hold, c, ctx.now), Consumption(r.expireOperationId, ctx.now);
    var s' := ExpireNext(s, r, c, ctx.now);
    var k := HoldCandidateEntry(s);
    NewIsUnconsumed(s, r.expireOperationId);
    NewCommitIsEvident(r, s.hold, c, ctx, fence);
    NewCommitMatches(r, s.hold, c, ctx, fence);
    ExpiredHoldRange(s.hold);
    SpentIsValid(s.ledger, r, ctx.now);
    ActiveHasNoClaims(s);
    OneMoreCommit(s.commits, commit);
    OneMoreTombstone(s.ledger.entries, k, x, s.commits, commit);
    OneMoreEvent(s.audit, AUDIT, s.commits, commit);
    OneMoreEvent(s.outbox, OUTBOX, s.commits, commit);
    TerminalEvidence(s, k, x, commit);
    SameEvidence(s', Snapshot(s'.hold, s'.ledger, s'.commits, [], []));
    SameNewer(Entry(c, None), Entry(c, Some(x)), s.ledger);
  }

  lemma SameEvidence(s: Snapshot, s': Snapshot)
    requires s.hold == s'.hold && s.ledger == s'.ledger && s.commits == s'.commits
    ensures ValidCommitEvidence(s) <==> ValidCommitEvidence(s')
  {
  }

  lemma SameNewer(e: Entry, e': Entry, l: Ledger)
    requires e.candidate == e'.candidate
    ensures NothingNewer(e, l) <==> NothingNewer(e', l)
  {
  }

  /******* The first expiry *******/

  lemma EvaluateFreshExpire(r: ExpireRequest, s: Snapshot, ctx: Context, fence: int)
    requires FindEntry(s.ledger, r.leaseId).Some?
    requires var e := s.ledger.entries[FindEntry(s.ledger, r.leaseId).value];
      e.consumed.None? && s.hold.candidate == Some(e.candidate)
    requires Project(r, s.hold, ctx, fence) == Ok(NewCommit(r, s.hold, s.hold.candidate.value, ctx.now))
    requires Consume(s.ledger, r, ctx.now) == Ok(Spend(s.ledger, r, ctx.now))
    ensures var s' := ExpireNext(s, r, s.hold.candidate.value, ctx.now);
      FreshExpire(r, s, ctx, fence)
      == if ValidSnapshot(s') then Ok((s', ResultFor(r, s.hold, ctx.now))) else Err(Rejected(ClosingSnapshot))
  {
    hide ValidSnapshot, Project, Consume, Expired, Spend, ResultFor;
  }

  lemma EvaluateUnguarded(r: ExpireRequest, s: Snapshot, ctx: Context, fence: int)
    requires s.hold.candidate.Some? ==> var p := Project(r, s.hold, ctx, fence); p.Err? && p.error.Refused?
    ensures var a := FreshExpire(r, s, ctx, fence); a.Err? && a.error.Refused?
  {
    hide ValidSnapshot, Project, Consume;
  }

  /** An operation without a commit, in any valid snapshot. */
  lemma FreshExpireOutcome(r: ExpireRequest, s: Snapshot, ctx: Context, fence: int)
    requires ValidSnapshot(s) && ValidExpireRequest(r) && ValidContext(ctx)
    requires FindCommit(s, r.expireOperationId).None?
    ensures var a := FreshExpire(r, s, ctx, fence);
      if ExpireGuards(r, s, ctx, fence) then
        var c := s.hold.candidate.value;
        a == if NothingNewer(Entry(c, None), s.ledger) then Ok((ExpireNext(s, r, c, ctx.now), ResultFor(r, s.hold, ctx.now)))
             else Err(Rejected(ClosingSnapshot))
      else a.Err? && a.error.Refused?
  {
    hide ValidLedger, NothingNewer, FreshExpire, Project, Consume, ExpireNext, Spend, NewCommit;
    ProjectOutcome(r, s.hold, ctx, fence);
    if ExpireGuards(r, s, ctx, fence) {
      var k := HoldCandidateEntry(s);
      ConsumeOutcome(s.ledger, r, ctx.now);
      ExpireNextIsValid(r, s, ctx, fence);
      EvaluateFreshExpire(r, s, ctx, fence);
    } else {
      EvaluateUnguarded(r, s, ctx, fence);
    }
  }

  /******* Replays *******/

  /** Which candidates `require_replay_authority` may return: the consumed one, or a claim's with a later fence. */
  ghost predicate Authorises(c: Candidate, committed: Candidate, r: ExpireRequest, ctx: Context, fence: int) {
    && Binds(r, c) && ctx.principal == c.ownerPrincipal == committed.ownerPrincipal && fence == c.fence
    && (c == committed || committed.fence < c.fence)
  }

  lemma AuthorityUnderOutcome(l: Ledger, r: ExpireRequest, committed: Candidate, current: Option<Claim>, ctx: Context, fence: int)
    requires ValidClaims(l) && ctx.principal == committed.ownerPrincipal
    ensures var a := AuthorityUnder(l, r, committed, current, ctx, fence);
      if a.Ok? then Authorises(a.value, committed, r, ctx, fence) else a.error.Refused?
  {
    hide ValidClaimRequest, ValidCandidate;
  }

  lemma AuthorityIsSound(l: Ledger, r: ExpireRequest, ctx: Context, fence: int, e: nat)
    requires ValidLedger(l) && FindTombstone(l, r.expireOperationId) == Some(e) && e < |l.entries|
    ensures var a := ReplayAuthority(l, r, ctx, fence);
      if a.Ok? then Authorises(a.value, l.entries[e].candidate, r, ctx, fence) && r.due == l.entries[e].candidate.due
      else a.error.Refused?
  {
    hide ValidLedger, ValidScans, ValidSeals, ValidAllocations, ValidTakeovers, ValidEntries, ValidProvenance, ValidProjection;
    hide CurrentClaim, AuthorityUnder, Authorises, ValidClaims, ValidPointers;
    ValidLedgerClaims(l);
    CurrentClaimIsLast(l, r.expireOperationId);
    if ctx.principal == l.entries[e].candidate.ownerPrincipal {
      AuthorityUnderOutcome(l, r, l.entries[e].candidate, LastRanked(l, r.expireOperationId), ctx, fence);
    }
  }

  lemma ValidLedgerClaims(l: Ledger)
    requires ValidLedger(l)
    ensures ValidClaims(l) && ValidPointers(l)
  {
  }

  /** The commit answers whoever the ledger authorises. */
  lemma CommitAnswers(r: ExpireRequest, commit: Commit, e: Entry, c: Candidate, ctx: Context, fence: int)
    requires ValidExpireRequest(r) && commit.expireOperationId == r.expireOperationId
    requires e.consumed.Some? && CommitMatchesEntry(commit, e)
    requires Authorises(c, e.candidate, r, ctx, fence) && r.due == e.candidate.due
    ensures ResultAnswers(commit, r, ctx.principal, fence, Some(c))
  {
    hide ValidCommit, ValidDue, RetainedBy;
  }

  /** A replay is answered or refused by a guard; no validator ever rejects it. */
  lemma ReplayIsNeverRejected(r: ExpireRequest, s: Snapshot, k: nat, ctx: Context, fence: int)
    requires ValidSnapshot(s) && ValidExpireRequest(r)
    requires k < |s.commits| && s.commits[k].expireOperationId == r.expireOperationId
    ensures var a := Replay(r, s, s.commits[k], ctx, fence);
      if a.Ok? then a.value == (s, s.commits[k].result) else a.error.Refused?
  {
    hide ValidLedger, ReplayAuthority, ResultAnswers, CommitMatchesEntry, Authorises;
    var e := CommittedTombstone(s, k);
    AuthorityIsSound(s.ledger, r, ctx, fence, e);
    var a := ReplayAuthority(s.ledger, r, ctx, fence);
    if a.Ok? {
      CommitAnswers(r, s.commits[k], s.ledger.entries[e], a.value, ctx, fence);
    }
  }

  /******* The transition *******/

  ghost predicate ExpireAdmitted(r: ExpireRequest, ctx: Context, fence: int) {
    ValidExpireRequest(r) && ValidContext(ctx) && SafeInteger(1, fence) && OnReaperChannel(ctx)
  }

  /** The candidate on the hold has the largest fence at the hold's version, so a later one is for another. */
  lemma NewerIsForAnotherVersion(s: Snapshot, i: nat)
    requires ValidSnapshot(s) && s.hold.candidate.Some? && i < |s.ledger.entries|
    requires var e, c := s.ledger.entries[i], s.hold.candidate.value;
      && e.consumed.None? && !IsReplayCandidate(e.candidate, s.ledger.claimResults)
      && SameHold(e.candidate.due, c.due) && c.fence < e.candidate.fence
    ensures s.ledger.entries[i].candidate.due.version != s.hold.version
  {
    hide ValidLedger, ValidCommitEvidence, ValidClaimEvidence, ValidTombstones, ValidCommits, ValidEvents, ValidCandidate;
    LatestIsLargest(s.ledger.entries, s.ledger.claimResults, s.hold);
  }

  /** Every guard of the first expiry passes. */
  ghost predicate ExpirePassesGuards(r: ExpireRequest, s: Snapshot, ctx: Context, fence: int) {
    && ExpireAdmitted(r, ctx, fence)
    && FindCommit(s, r.expireOperationId).None?
    && ExpireGuards(r, s, ctx, fence)
  }

  lemma ExpireReduces(r: ExpireRequest, s: Snapshot, ctx: Context, fence: int)
    requires ValidSnapshot(s)
    ensures var a := ApplyExpire(r, s, ctx, fence);
      && (!ExpireAdmitted(r, ctx, fence) ==> a.Err? && a.error.Refused?)
      && (ExpireAdmitted(r, ctx, fence) ==>
            match FindCommit(s, r.expireOperationId)
            case Some(k) => a == Replay(r, s, s.commits[k], ctx, fence)
            case None => a == FreshExpire(r, s, ctx, fence))
  {
    hide ValidSnapshot, ValidExpireRequest, Replay, FreshExpire, FindCommit;
  }

  lemma AdmittedIsValid(r: ExpireRequest, ctx: Context, fence: int)
    ensures ExpireAdmitted(r, ctx, fence) ==> ValidExpireRequest(r) && ValidContext(ctx)
  {
  }

  /** EXPIRE of any valid snapshot. */
  lemma ExpireOutcome(r: ExpireRequest, s: Snapshot, ctx: Context, fence: int)
    requires ValidSnapshot(s)
    ensures var a := ApplyExpire(r, s, ctx, fence);
      if ExpirePassesGuards(r, s, ctx, fence) then
        var c := s.hold.candidate.value;
        a == if NothingNewer(Entry(c, None), s.ledger) then Ok((ExpireNext(s, r, c, ctx.now), ResultFor(r, s.hold, ctx.now)))
             else Err(Rejected(ClosingSnapshot))
      else (a.Err? ==> a.error.Refused?) && (a.Ok? ==> FindCommit(s, r.expireOperationId).Some?)
  {
    hide ValidSnapshot, ExpireAdmitted, ApplyExpire, FreshExpire, Replay, ExpireGuards, ExpireNext, NothingNewer;
    ExpireReduces(r, s, ctx, fence);
    AdmittedIsValid(r, ctx, fence);
    if ExpireAdmitted(r, ctx, fence) {
      match FindCommit(s, r.expireOperationId)
      case Some(k) => ReplayIsNeverRejected(r, s, k, ctx, fence);
      case None => FreshExpireOutcome(r, s, ctx, fence);
    }
  }
}
