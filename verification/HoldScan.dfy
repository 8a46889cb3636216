/** SCAN keeps the invariant. */
module HoldScan {
  import opened Wrappers
  import opened HoldModel
  import opened HoldTransitions
  import opened HoldInvariant
  import opened HoldExactScan

  lemma AppendKeepsEntries(l: Ledger, l': Ledger, c: Candidate)
    requires Entries(l) && ValidCandidate(c) && c.fence == l.highWater + 1 && Unused(c, l)
    requires l'.entries == l.entries + [Entry(c, None)] && l'.highWater == c.fence
    ensures Entries(l')
  {
  }

  lemma AppendScanKeepsScans(l: Ledger, q: ScanRequest, c: Candidate)
    requires Entries(l) && Scans(l) && |l.entries| == |l.scanRequests|
    requires ValidScanRequest(q) && c.scanOperationId == q.scanOperationId
    requires forall i | 0 <= i < |l.scanRequests| :: l.scanRequests[i].scanOperationId != q.scanOperationId
    ensures Scans(AppendScan(l, q, c))
  {
    var l' := AppendScan(l, q, c);
    forall i | 0 <= i < |l'.scanRequests| ensures ScanSlot(l', i) {
      if i < |l.scanRequests| {
        var slot := ScanSlot(l, i);
      }
    }
  }

  lemma AppendScanKeepsClaims(l: Ledger, q: ScanRequest, c: Candidate)
    requires Claims(l) && l.claimRequests == []
    ensures Claims(AppendScan(l, q, c))
  {
  }

  lemma AppendScanKeepsLedger(l: Ledger, q: ScanRequest, c: Candidate)
    requires LedgerInv(l) && IsNextScan(l, q, c) && Unused(c, l)
    ensures LedgerInv(AppendScan(l, q, c))
  {
    AppendKeepsEntries(l, AppendScan(l, q, c), c);
    AppendScanKeepsScans(l, q, c);
    AppendScanKeepsClaims(l, q, c);
  }

  lemma ScanNextIsOpen(s: Snapshot, q: ScanRequest, c: Candidate)
    requires Open(s) && s.hold.status == ACTIVE && IsDueOf(c.due, s.hold)
    ensures Open(ScanNext(s, q, c))
  {
  }

  lemma ScanKeepsInvariant(s: Snapshot, q: ScanRequest, c: Candidate)
    requires SnapshotInv(s) && Open(s) && s.hold.status == ACTIVE && IsDueOf(c.due, s.hold)
    requires IsNextScan(s.ledger, q, c) && Unused(c, s.ledger)
    ensures SnapshotInv(ScanNext(s, q, c))
  {
    AppendScanKeepsLedger(s.ledger, q, c);
    ScanNextIsOpen(s, q, c);
  }
}
