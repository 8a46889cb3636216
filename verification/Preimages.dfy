/** The NUL-joined byte strings that operation identities hash. The Hold modules treat a digest as
    the tuple it was computed from; what is proved here is that the bytes determine the tuple, so
    nothing but a SHA-256 collision can confuse two identities. */
module Preimages {
  import opened Wrappers
  import opened Text
  import opened Utf8
  import Base64Url
  import HoldModel

  /******* Decimal numbers *******/

  function Digit(d: int): char
    requires 0 <= d < 10
  {
    '0' + d as char
  }

  /** Python's `str` of a natural number. */
  function Decimal(n: nat): (s: string)
    ensures s != "" && forall i | 0 <= i < |s| :: '0' <= s[i] <= '9'
  {
    if n < 10 then [Digit(n)] else Decimal(n / 10) + [Digit(n % 10)]
  }

  lemma {:induction false} DecimalInjective(n: nat, m: nat)
    requires Decimal(n) == Decimal(m)
    ensures n == m
  {
    var s, t := Decimal(n), Decimal(m);
    assert s[|s| - 1] == Digit(n % 10) && t[|t| - 1] == Digit(m % 10);
    assert |s| == 1 <==> n < 10;
    assert |t| == 1 <==> m < 10;
    if n >= 10 {
      assert Decimal(n / 10) == s[..|s| - 1] == t[..|t| - 1] == Decimal(m / 10);
      DecimalInjective(n / 10, m / 10);
    }
  }

  /** An optional number, with `null` for none. */
  function DecimalOrNull(n: Option<nat>): (s: string)
    ensures n.None? <==> s == "null"
  {
    match n
    case None => "null"
    case Some(v) =>
      assert Decimal(v)[0] != "null"[0];
      Decimal(v)
  }

  /******* Joining *******/

  function Join(parts: seq<seq<byte>>): seq<byte> {
    if |parts| == 0 then []
    else if |parts| == 1 then parts[0]
    else parts[0] + [0] + Join(parts[1..])
  }

  function Encoded(texts: seq<string>): seq<seq<byte>> {
    seq(|texts|, i requires 0 <= i < |texts| => Encode(texts[i]))
  }

  /** The separator between the given texts and a last component of any bytes. */
  function Seal(texts: seq<string>, tail: seq<byte>): seq<byte> {
    Join(Encoded(texts) + [tail])
  }

  predicate NulFree(texts: seq<string>) {
    forall i | 0 <= i < |texts| :: '\0' !in texts[i]
  }

  lemma SplitAtNul(a: seq<byte>, x: seq<byte>, b: seq<byte>, y: seq<byte>)
    requires Free(0, a) && Free(0, b) && a + [0] + x == b + [0] + y
    ensures a == b && x == y
  {
    var s, t := a + [0] + x, b + [0] + y;
    assert s[|a|] == 0 && t[|b|] == 0;
    assert forall i | 0 <= i < |a| :: s[i] == a[i] != 0;
    assert forall i | 0 <= i < |b| :: t[i] == b[i] != 0;
    assert |a| == |b|;
    assert a == s[..|a|] == t[..|b|] == b;
    assert x == s[|a| + 1..] == t[|b| + 1..] == y;
  }

  lemma SealUnfolds(texts: seq<string>, tail: seq<byte>)
    requires texts != []
    ensures Seal(texts, tail) == Encode(texts[0]) + [0] + Seal(texts[1..], tail)
  {
    assert (Encoded(texts) + [tail])[1..] == Encoded(texts[1..]) + [tail];
  }

  /** Whatever follows, the first component can be read back. */
  lemma SealHead(texts: seq<string>, x: seq<byte>, others: seq<string>, y: seq<byte>)
    requires texts != [] && others != [] && NulFree(texts) && NulFree(others)
    requires Seal(texts, x) == Seal(others, y)
    ensures texts[0] == others[0] && Seal(texts[1..], x) == Seal(others[1..], y)
  {
    SealUnfolds(texts, x);
    SealUnfolds(others, y);
    EncodeHasNoNul(texts[0]);
    EncodeHasNoNul(others[0]);
    SplitAtNul(Encode(texts[0]), Seal(texts[1..], x), Encode(others[0]), Seal(others[1..], y));
    EncodeInjective(texts[0], others[0]);
  }

  /** With as many components on both sides, every component can be read back, the free-form last one included. */
  lemma {:induction false} SealInjective(texts: seq<string>, x: seq<byte>, others: seq<string>, y: seq<byte>)
    requires |texts| == |others| && NulFree(texts) && NulFree(others)
    requires Seal(texts, x) == Seal(others, y)
    ensures texts == others && x == y
  {
    if texts == [] {
      assert Seal(texts, x) == x && Seal(others, y) == y;
    } else {
      SealHead(texts, x, others, y);
      SealInjective(texts[1..], x, others[1..], y);
      assert texts == [texts[0]] + texts[1..] && others == [others[0]] + others[1..];
    }
  }

  /******* The hashed tuples *******/

  const EXPIRE_DOMAIN := "a2amesh-artifact-hold-expire-v1"
  const COMMIT_DOMAIN := "a2amesh-artifact-hold-expire-commit-v1"
  const EVENT_DOMAIN := "a2amesh-artifact-hold-expire-event-v1"
  const REPLAY_CLAIM_DOMAIN := "a2amesh-artifact-hold-replay-claim-v1"
  const DUE_DOMAIN := "a2amesh-recon-due-operation-v1"
  const CLAIM_DOMAIN := "a2amesh-recon-claim-operation-v1"

  datatype ExpireTuple = ExpireTuple(artifactId: string, holdId: string, holdDigest: string, version: int, expiresMs: int)

  datatype CommitTuple = CommitTuple(
    expireOperationId: string, requestDigest: string, holdDigest: string, candidateDigest: string,
    principal: string, fence: int, previousVersion: int, remainingHolds: int, refCount: int,
    minimumDeleteAt: Option<nat>, committedAt: int, resultJson: seq<byte>)

  datatype DueKind = CLAIM_EXPIRE | ESCALATE_DUE

  datatype DueTuple = DueTuple(kind: DueKind, caseId: string, revision: int, dueMs: int, fence: Option<int>)

  datatype ClaimOperation = ACQUIRE | RENEW | RELEASE | EXPIRE | ESCALATE

  datatype ClaimTuple = ClaimTuple(caseId: string, operation: ClaimOperation, principalHash: string, idempotencyKey: string)

  /** Everything that is hashed with these domains. */
  datatype Tuple =
    | OfExpire(expire: ExpireTuple)
    | OfReplay(expireOperationId: string, leaseId: string)
    | OfCommit(commit: CommitTuple)
    | OfEventId(sink: HoldModel.Sink, operationId: string)
    | OfEventDigest(payload: seq<byte>)
    | OfDue(due: DueTuple)
    | OfClaim(claim: ClaimTuple)

  function SinkName(s: HoldModel.Sink): string {
    match s case AUDIT => "AUDIT" case OUTBOX => "OUTBOX"
  }

  function KindName(k: DueKind): string {
    match k case CLAIM_EXPIRE => "CLAIM_EXPIRE" case ESCALATE_DUE => "ESCALATE"
  }

  function OperationName(o: ClaimOperation): string {
    match o
    case ACQUIRE => "ACQUIRE"
    case RENEW => "RENEW"
    case RELEASE => "RELEASE"
    case EXPIRE => "EXPIRE"
    case ESCALATE => "ESCALATE"
  }

  predicate ValidCommitTuple(c: CommitTuple) {
    && IsLowerSha256(c.expireOperationId) && IsLowerSha256(c.requestDigest)
    && IsLowerSha256(c.holdDigest) && IsLowerSha256(c.candidateDigest)
    && Stable(c.principal)
    && SafeInteger(1, c.fence) && SafeInteger(1, c.previousVersion)
    && SafeInteger(0, c.remainingHolds) && SafeInteger(0, c.refCount)
    && (c.minimumDeleteAt.Some? ==> SafeInteger(0, c.minimumDeleteAt.value))
    && SafeInteger(0, c.committedAt)
  }

  /** A fencing token exactly on claim expiries. */
  predicate ValidDueTuple(d: DueTuple) {
    && Stable(d.caseId) && SafeInteger(1, d.revision) && SafeInteger(0, d.dueMs)
    && (d.kind == CLAIM_EXPIRE ==> d.fence.Some? && SafeInteger(1, d.fence.value))
    && (d.kind == ESCALATE_DUE ==> d.fence.None?)
  }

  /** What the constructors of the preimages check. An event payload is an RFC 8785 object. */
  predicate ValidTuple(t: Tuple) {
    match t
    case OfExpire(e) =>
      && Stable(e.artifactId) && Stable(e.holdId) && IsLowerSha256(e.holdDigest)
      && SafeInteger(1, e.version) && SafeInteger(0, e.expiresMs)
    case OfReplay(operation, leaseId) => IsLowerSha256(operation) && Base64Url.IsCandidateToken(leaseId)
    case OfCommit(c) => ValidCommitTuple(c)
    case OfEventId(_, operation) => IsLowerSha256(operation)
    case OfEventDigest(payload) => payload != [] && payload[0] == '{' as int
    case OfDue(d) => ValidDueTuple(d)
    case OfClaim(c) => Stable(c.caseId) && IsLowerSha256(c.principalHash) && Stable(c.idempotencyKey)
  }

  /** All components but the last, as text. */
  function Texts(t: Tuple): seq<string>
    requires ValidTuple(t)
  {
    match t
    case OfExpire(e) => [EXPIRE_DOMAIN, e.artifactId, e.holdId, e.holdDigest, Decimal(e.version)]
    case OfReplay(operation, _) => [REPLAY_CLAIM_DOMAIN, operation]
    case OfCommit(c) =>
      [COMMIT_DOMAIN, "1", c.expireOperationId, c.requestDigest, c.holdDigest, c.candidateDigest, c.principal,
       Decimal(c.fence), Decimal(c.previousVersion), Decimal(c.remainingHolds), Decimal(c.refCount),
       DecimalOrNull(c.minimumDeleteAt), Decimal(c.committedAt)]
    case OfEventId(sink, _) => [EVENT_DOMAIN, SinkName(sink)]
    case OfEventDigest(_) => [EVENT_DOMAIN]
    case OfDue(d) => [DUE_DOMAIN, KindName(d.kind), d.caseId, Decimal(d.revision), Decimal(d.dueMs)]
    case OfClaim(c) => [CLAIM_DOMAIN, c.caseId, OperationName(c.operation), c.principalHash]
  }

  function Tail(t: Tuple): seq<byte>
    requires ValidTuple(t)
  {
    match t
    case OfExpire(e) => Encode(Decimal(e.expiresMs))
    case OfReplay(_, leaseId) => Encode(leaseId)
    case OfCommit(c) => c.resultJson
    case OfEventId(_, operation) => Encode(operation)
    case OfEventDigest(payload) => payload
    case OfDue(d) => Encode(if d.fence.None? then "null" else Decimal(d.fence.value))
    case OfClaim(c) => Encode(c.idempotencyKey)
  }

  /** The bytes that are hashed, or the exception for a tuple that does not validate. */
  function Preimage(t: Tuple): Result<seq<byte>, ()> {
    if !ValidTuple(t) then Err(()) else
    Ok(Seal(Texts(t), Tail(t)))
  }

  /******* The bytes, kind by kind *******/

  ghost function NumberOf(s: string): int {
    if s == "" then 0 else NumberOf(s[..|s| - 1]) * 10 + (s[|s| - 1] as int - 48)
  }

  /** A decimal numeral has the value of its digits, and no superfluous zero in front. */
  lemma {:induction false} DecimalSays(n: nat)
    ensures NumberOf(Decimal(n)) == n && forall i | 0 <= i < |Decimal(n)| :: 48 <= Decimal(n)[i] as int <= 57
    ensures n > 0 ==> Decimal(n)[0] != '0'
    ensures n == 0 ==> Decimal(n) == "0"
  {
    if n >= 10 {
      DecimalSays(n / 10);
      assert Decimal(n)[..|Decimal(n)| - 1] == Decimal(n / 10);
    } else {
      assert Decimal(n)[..0] == "";
    }
  }

  /** Each text in UTF-8 with a NUL byte behind it, and then the tail. */
  ghost function Layout(texts: seq<string>, tail: seq<byte>): seq<byte> {
    if texts == [] then tail else Encode(texts[0]) + [0] + Layout(texts[1..], tail)
  }

  lemma {:induction false} SealLayout(texts: seq<string>, tail: seq<byte>)
    ensures Seal(texts, tail) == Layout(texts, tail)
  {
    if texts != [] {
      SealUnfolds(texts, tail);
      SealLayout(texts[1..], tail);
    } else {
      assert Encoded(texts) + [tail] == [tail];
    }
  }

  ghost function NumberOrNull(n: Option<int>): string
    requires n.Some? ==> n.value >= 0
  {
    match n case None => "null" case Some(v) => Decimal(v)
  }

  /** The preimage of an expire operation. */
  lemma ExpireSays(e: ExpireTuple)
    ensures Preimage(OfExpire(e))
         == if Stable(e.artifactId) && Stable(e.holdId) && IsLowerSha256(e.holdDigest)
               && 1 <= e.version <= 9_007_199_254_740_991 && 0 <= e.expiresMs <= 9_007_199_254_740_991
            then Ok(Layout(["a2amesh-artifact-hold-expire-v1", e.artifactId, e.holdId, e.holdDigest, Decimal(e.version)],
                           Encode(Decimal(e.expiresMs))))
            else Err(())
  {
    hide Stable, IsLowerSha256, Seal, Layout, Decimal;
    if ValidTuple(OfExpire(e)) {
      SealLayout(Texts(OfExpire(e)), Tail(OfExpire(e)));
    }
  }

  /** The preimage of a replay claim operation. */
  lemma ReplaySays(operation: string, leaseId: string)
    ensures Preimage(OfReplay(operation, leaseId))
         == if IsLowerSha256(operation) && Base64Url.IsCandidateToken(leaseId)
            then Ok(Layout(["a2amesh-artifact-hold-replay-claim-v1", operation], Encode(leaseId))) else Err(())
  {
    hide Stable, IsLowerSha256, Base64Url.IsCandidateToken, Seal, Layout;
    if ValidTuple(OfReplay(operation, leaseId)) {
      SealLayout(Texts(OfReplay(operation, leaseId)), Tail(OfReplay(operation, leaseId)));
    }
  }

  /** The preimage of a commit digest. */
  lemma CommitSays(c: CommitTuple)
    ensures Preimage(OfCommit(c))
         == if IsLowerSha256(c.expireOperationId) && IsLowerSha256(c.requestDigest) && IsLowerSha256(c.holdDigest)
               && IsLowerSha256(c.candidateDigest) && Stable(c.principal)
               && 1 <= c.fence <= 9_007_199_254_740_991 && 1 <= c.previousVersion <= 9_007_199_254_740_991
               && 0 <= c.remainingHolds <= 9_007_199_254_740_991 && 0 <= c.refCount <= 9_007_199_254_740_991
               && (c.minimumDeleteAt.Some? ==> c.minimumDeleteAt.value <= 9_007_199_254_740_991)
               && 0 <= c.committedAt <= 9_007_199_254_740_991
            then Ok(Layout(["a2amesh-artifact-hold-expire-commit-v1", "1", c.expireOperationId, c.requestDigest, c.holdDigest,
                            c.candidateDigest, c.principal, Decimal(c.fence), Decimal(c.previousVersion),
                            Decimal(c.remainingHolds), Decimal(c.refCount), NumberOrNull(c.minimumDeleteAt),
                            Decimal(c.committedAt)],
                           c.resultJson))
            else Err(())
  {
    hide Stable, IsLowerSha256, Seal, Layout, Decimal;
    if ValidTuple(OfCommit(c)) {
      SealLayout(Texts(OfCommit(c)), Tail(OfCommit(c)));
    }
  }

  /** The preimages of an event ID and of an event digest. */
  lemma EventSays(operation: string, payload: seq<byte>)
    ensures IsLowerSha256(operation) ==>
              && Preimage(OfEventId(HoldModel.AUDIT, operation))
                 == Ok(Layout(["a2amesh-artifact-hold-expire-event-v1", "AUDIT"], Encode(operation)))
              && Preimage(OfEventId(HoldModel.OUTBOX, operation))
                 == Ok(Layout(["a2amesh-artifact-hold-expire-event-v1", "OUTBOX"], Encode(operation)))
    ensures payload != [] && payload[0] == 123 ==>
              Preimage(OfEventDigest(payload)) == Ok(Layout(["a2amesh-artifact-hold-expire-event-v1"], payload))
  {
    hide Stable, IsLowerSha256, Seal, Layout;
    SealLayout(["a2amesh-artifact-hold-expire-event-v1", "AUDIT"], Encode(operation));
    SealLayout(["a2amesh-artifact-hold-expire-event-v1", "OUTBOX"], Encode(operation));
    SealLayout(["a2amesh-artifact-hold-expire-event-v1"], payload);
  }

  /** The preimage of a due operation: a fencing token on claim expiries, and null on escalations. */
  lemma DueSays(d: DueTuple)
    ensures Preimage(OfDue(d))
         == if Stable(d.caseId) && 1 <= d.revision <= 9_007_199_254_740_991 && 0 <= d.dueMs <= 9_007_199_254_740_991
               && match d.kind
                  case CLAIM_EXPIRE => d.fence.Some? && 1 <= d.fence.value <= 9_007_199_254_740_991
                  case ESCALATE_DUE => d.fence.None?
            then Ok(Layout(["a2amesh-recon-due-operation-v1",
                            match d.kind case CLAIM_EXPIRE => "CLAIM_EXPIRE" case ESCALATE_DUE => "ESCALATE",
                            d.caseId, Decimal(d.revision), Decimal(d.dueMs)],
                           Encode(NumberOrNull(d.fence))))
            else Err(())
  {
    hide Stable, Seal, Layout, Decimal;
    if ValidTuple(OfDue(d)) {
      SealLayout(Texts(OfDue(d)), Tail(OfDue(d)));
    }
  }

  /** The preimage of a claim operation. */
  lemma ClaimSays(c: ClaimTuple)
    ensures Preimage(OfClaim(c))
         == if Stable(c.caseId) && IsLowerSha256(c.principalHash) && Stable(c.idempotencyKey)
            then Ok(Layout(["a2amesh-recon-claim-operation-v1", c.caseId,
                            match c.operation
                            case ACQUIRE => "ACQUIRE" case RENEW => "RENEW" case RELEASE => "RELEASE"
                            case EXPIRE => "EXPIRE" case ESCALATE => "ESCALATE",
                            c.principalHash],
                           Encode(c.idempotencyKey)))
            else Err(())
  {
    hide Stable, IsLowerSha256, Seal, Layout;
    if ValidTuple(OfClaim(c)) {
      SealLayout(Texts(OfClaim(c)), Tail(OfClaim(c)));
    }
  }

  /** The claim preimage is the domain prefix, one separator and the claim scope. */
  lemma ClaimPrefixThenScope(c: ClaimTuple)
    requires ValidTuple(OfClaim(c))
    ensures Preimage(OfClaim(c))
         == Ok(Encode(CLAIM_DOMAIN) + [0]
               + Seal([c.caseId, OperationName(c.operation), c.principalHash], Encode(c.idempotencyKey)))
  {
    SealUnfolds(Texts(OfClaim(c)), Tail(OfClaim(c)));
    assert Texts(OfClaim(c))[1..] == [c.caseId, OperationName(c.operation), c.principalHash];
  }

  /******* Injectivity *******/

  predicate IsNulFree(s: string) {
    '\0' !in s
  }

  lemma StableIsNulFree(s: string)
    ensures Stable(s) ==> IsNulFree(s)
  {
  }

  lemma DomainsAreNulFree()
    ensures IsNulFree(EXPIRE_DOMAIN) && IsNulFree(COMMIT_DOMAIN) && IsNulFree(EVENT_DOMAIN)
    ensures IsNulFree(REPLAY_CLAIM_DOMAIN) && IsNulFree(DUE_DOMAIN) && IsNulFree(CLAIM_DOMAIN)
  {
  }

  lemma DecimalOrNullIsNulFree(n: Option<nat>)
    ensures IsNulFree(DecimalOrNull(n))
  {
  }

  lemma TextsAreNulFree(t: Tuple)
    requires ValidTuple(t)
    ensures NulFree(Texts(t))
  {
    hide Stable, IsLowerSha256, Base64Url.IsCandidateToken, Tail, Decimal, DecimalOrNull;
    DomainsAreNulFree();
    match t
    case OfExpire(e) =>
      StableIsNulFree(e.artifactId);
      StableIsNulFree(e.holdId);
      StableIsNulFree(e.holdDigest);
    case OfReplay(operation, _) => StableIsNulFree(operation);
    case OfCommit(c) =>
      StableIsNulFree(c.expireOperationId);
      StableIsNulFree(c.requestDigest);
      StableIsNulFree(c.holdDigest);
      StableIsNulFree(c.candidateDigest);
      StableIsNulFree(c.principal);
      DecimalOrNullIsNulFree(c.minimumDeleteAt);
    case OfEventId(_, _) =>
    case OfEventDigest(_) =>
    case OfDue(d) => StableIsNulFree(d.caseId);
    case OfClaim(c) =>
      StableIsNulFree(c.caseId);
      StableIsNulFree(c.principalHash);
  }

  lemma DecimalOrNullInjective(n: Option<nat>, m: Option<nat>)
    requires DecimalOrNull(n) == DecimalOrNull(m)
    ensures n == m
  {
    if n.Some? && m.Some? {
      DecimalInjective(n.value, m.value);
    }
  }

  lemma NamesAreDistinct()
    ensures forall a, b :: SinkName(a) == SinkName(b) ==> a == b
    ensures forall a, b :: KindName(a) == KindName(b) ==> a == b
    ensures forall a, b :: OperationName(a) == OperationName(b) ==> a == b
  {
    assert OperationName(RENEW)[2] == 'N' && OperationName(ACQUIRE)[2] == 'Q' && OperationName(RELEASE)[2] == 'L'
      && OperationName(EXPIRE)[2] == 'P' && OperationName(ESCALATE)[2] == 'C';
  }

  lemma CommitInjective(c: CommitTuple, d: CommitTuple)
    requires ValidCommitTuple(c) && ValidCommitTuple(d)
    requires Texts(OfCommit(c)) == Texts(OfCommit(d)) && c.resultJson == d.resultJson
    ensures c == d
  {
    var x, y := Texts(OfCommit(c)), Texts(OfCommit(d));
    assert forall i | 0 <= i < 13 :: x[i] == y[i];
    DecimalInjective(c.fence, d.fence);
    DecimalInjective(c.previousVersion, d.previousVersion);
    DecimalInjective(c.remainingHolds, d.remainingHolds);
    DecimalInjective(c.refCount, d.refCount);
    DecimalOrNullInjective(c.minimumDeleteAt, d.minimumDeleteAt);
    DecimalInjective(c.committedAt, d.committedAt);
  }

  lemma ExpireInjective(e: ExpireTuple, f: ExpireTuple)
    requires ValidTuple(OfExpire(e)) && ValidTuple(OfExpire(f))
    requires Texts(OfExpire(e)) == Texts(OfExpire(f)) && Tail(OfExpire(e)) == Tail(OfExpire(f))
    ensures e == f
  {
    var x, y := Texts(OfExpire(e)), Texts(OfExpire(f));
    assert forall i | 0 <= i < 5 :: x[i] == y[i];
    DecimalInjective(e.version, f.version);
    EncodeInjective(Decimal(e.expiresMs), Decimal(f.expiresMs));
    DecimalInjective(e.expiresMs, f.expiresMs);
  }

  lemma DueInjective(d: DueTuple, e: DueTuple)
    requires ValidDueTuple(d) && ValidDueTuple(e)
    requires Texts(OfDue(d)) == Texts(OfDue(e)) && Tail(OfDue(d)) == Tail(OfDue(e))
    ensures d == e
  {
    var x, y := Texts(OfDue(d)), Texts(OfDue(e));
    assert forall i | 0 <= i < 5 :: x[i] == y[i];
    NamesAreDistinct();
    DecimalInjective(d.revision, e.revision);
    DecimalInjective(d.dueMs, e.dueMs);
    if d.kind == CLAIM_EXPIRE {
      EncodeInjective(Decimal(d.fence.value), Decimal(e.fence.value));
      DecimalInjective(d.fence.value, e.fence.value);
    }
  }

  lemma ClaimInjective(c: ClaimTuple, d: ClaimTuple)
    requires ValidTuple(OfClaim(c)) && ValidTuple(OfClaim(d))
    requires Texts(OfClaim(c)) == Texts(OfClaim(d)) && Tail(OfClaim(c)) == Tail(OfClaim(d))
    ensures c == d
  {
    var x, y := Texts(OfClaim(c)), Texts(OfClaim(d));
    assert forall i | 0 <= i < 4 :: x[i] == y[i];
    NamesAreDistinct();
    EncodeInjective(c.idempotencyKey, d.idempotencyKey);
  }

  predicate SameKind(t: Tuple, u: Tuple) {
    match t
    case OfExpire(_) => u.OfExpire?
    case OfReplay(_, _) => u.OfReplay?
    case OfCommit(_) => u.OfCommit?
    case OfEventId(_, _) => u.OfEventId?
    case OfEventDigest(_) => u.OfEventDigest?
    case OfDue(_) => u.OfDue?
    case OfClaim(_) => u.OfClaim?
  }

  lemma ComponentsInjective(t: Tuple, u: Tuple)
    requires ValidTuple(t) && ValidTuple(u) && SameKind(t, u)
    requires Texts(t) == Texts(u) && Tail(t) == Tail(u)
    ensures t == u
  {
    match t
    case OfExpire(e) => ExpireInjective(e, u.expire);
    case OfReplay(operation, leaseId) =>
      assert operation == Texts(t)[1] == Texts(u)[1];
      EncodeInjective(leaseId, u.leaseId);
    case OfCommit(c) => CommitInjective(c, u.commit);
    case OfEventId(sink, operation) =>
      assert SinkName(sink) == Texts(t)[1] == Texts(u)[1];
      NamesAreDistinct();
      EncodeInjective(operation, u.operationId);
    case OfEventDigest(_) =>
    case OfDue(d) => DueInjective(d, u.due);
    case OfClaim(c) => ClaimInjective(c, u.claim);
  }

  /** The event ID and the event digest share a domain, but a sink name never opens like an object. */
  lemma EventIdIsNoDigest(sink: HoldModel.Sink, operation: string, payload: seq<byte>)
    requires IsLowerSha256(operation) && payload != [] && payload[0] == '{' as int
    ensures Seal([SinkName(sink)], Encode(operation)) != payload
  {
    SealUnfolds([SinkName(sink)], Encode(operation));
    assert Encode(SinkName(sink)) == EncodeChar(SinkName(sink)[0]) + Encode(SinkName(sink)[1..]);
    assert Seal([SinkName(sink)], Encode(operation))[0] == SinkName(sink)[0] as int;
  }

  lemma DomainsDiffer(t: Tuple, u: Tuple)
    requires ValidTuple(t) && ValidTuple(u) && Texts(t)[0] == Texts(u)[0]
    ensures SameKind(t, u) || (t.OfEventId? && u.OfEventDigest?) || (t.OfEventDigest? && u.OfEventId?)
  {
    assert |EXPIRE_DOMAIN| == 31 && |COMMIT_DOMAIN| == 38 && |EVENT_DOMAIN| == 37 && |REPLAY_CLAIM_DOMAIN| == 37
      && |DUE_DOMAIN| == 30 && |CLAIM_DOMAIN| == 32;
    assert EVENT_DOMAIN[22] == 'e' && REPLAY_CLAIM_DOMAIN[22] == 'r';
  }

  lemma KindFixesCount(t: Tuple, u: Tuple)
    requires ValidTuple(t) && ValidTuple(u)
    ensures Texts(t) != [] && Texts(u) != []
    ensures SameKind(t, u) ==> |Texts(t)| == |Texts(u)|
  {
    hide ValidTuple;
  }

  /** No two valid tuples, of the same or of different kinds, have the same preimage. */
  lemma PreimagesAreInjective(t: Tuple, u: Tuple)
    requires Preimage(t).Ok? && Preimage(t) == Preimage(u)
    ensures t == u
  {
    hide ValidTuple, Texts, Tail, Seal, SameKind, NulFree;
    TextsAreNulFree(t);
    TextsAreNulFree(u);
    KindFixesCount(t, u);
    SealHead(Texts(t), Tail(t), Texts(u), Tail(u));
    DomainsDiffer(t, u);
    if SameKind(t, u) {
      SealInjective(Texts(t), Tail(t), Texts(u), Tail(u));
      ComponentsInjective(t, u);
    } else {
      EventsDiffer(t, u);
    }
  }

  lemma EventsDiffer(t: Tuple, u: Tuple)
    requires ValidTuple(t) && ValidTuple(u)
    requires (t.OfEventId? && u.OfEventDigest?) || (t.OfEventDigest? && u.OfEventId?)
    ensures Seal(Texts(t)[1..], Tail(t)) != Seal(Texts(u)[1..], Tail(u))
  {
    var (id, digest) := if t.OfEventId? then (t, u) else (u, t);
    EventIdIsNoDigest(id.sink, id.operationId, digest.payload);
    assert Texts(id)[1..] == [SinkName(id.sink)] && Texts(digest)[1..] == [];
    assert Seal([], digest.payload) == digest.payload;
  }

  /******* System claims *******/

  datatype Identity = Identity(dueOperationId: string, idempotencyKey: string, claimOperationId: string)

  datatype IdentityError = Malformed | DomainsCollided

  function ClaimOperationFor(kind: DueKind): ClaimOperation {
    if kind == CLAIM_EXPIRE then EXPIRE else ESCALATE
  }

  /** `system_claim_identity`, for any hash function. */
  function SystemClaimIdentity(hash: seq<byte> -> string, due: DueTuple, principalHash: string)
    : Result<Identity, IdentityError>
  {
    var duePreimage := Preimage(OfDue(due));
    :- Need(duePreimage.Ok?, Malformed);
    var dueId := hash(duePreimage.value);
    var claimPreimage := Preimage(OfClaim(ClaimTuple(due.caseId, ClaimOperationFor(due.kind), principalHash, dueId)));
    :- Need(claimPreimage.Ok?, Malformed);
    var claimId := hash(claimPreimage.value);
    :- Need(claimId != dueId, DomainsCollided);
    Ok(Identity(dueId, dueId, claimId))
  }

  /** A system claim is keyed by the hash of its due operation, and expires a claim or escalates a case as the
      due kind says. */
  lemma SystemClaimSays(hash: seq<byte> -> string, due: DueTuple, principalHash: string)
    requires SystemClaimIdentity(hash, due, principalHash).Ok?
    ensures Preimage(OfDue(due)).Ok?
    ensures var dueId := hash(Preimage(OfDue(due)).value);
      var claim := OfClaim(ClaimTuple(due.caseId, match due.kind case CLAIM_EXPIRE => EXPIRE case ESCALATE_DUE => ESCALATE,
                                      principalHash, dueId));
      && Preimage(claim).Ok?
      && SystemClaimIdentity(hash, due, principalHash) == Ok(Identity(dueId, dueId, hash(Preimage(claim).value)))
  {
  }

  ghost predicate CollisionFree(hash: seq<byte> -> string) {
    forall x, y :: hash(x) == hash(y) ==> x == y
  }

  /** The collision guard fires only if the hash function itself collides. */
  lemma DomainsNeverCollide(hash: seq<byte> -> string, due: DueTuple, principalHash: string)
    requires CollisionFree(hash)
    ensures SystemClaimIdentity(hash, due, principalHash) != Err(DomainsCollided)
  {
    if ValidTuple(OfDue(due)) {
      var dueId := hash(Preimage(OfDue(due)).value);
      var claim := OfClaim(ClaimTuple(due.caseId, ClaimOperationFor(due.kind), principalHash, dueId));
      if ValidTuple(claim) && Preimage(claim) == Preimage(OfDue(due)) {
        PreimagesAreInjective(claim, OfDue(due));
      }
    }
  }

  /** One claim operation ID belongs to one due tuple and one operator. */
  lemma SystemClaimsAreInjective(hash: seq<byte> -> string, due: DueTuple, principalHash: string,
                                 due': DueTuple, principalHash': string)
    requires CollisionFree(hash)
    requires SystemClaimIdentity(hash, due, principalHash).Ok? && SystemClaimIdentity(hash, due', principalHash').Ok?
    requires SystemClaimIdentity(hash, due, principalHash).value.claimOperationId
          == SystemClaimIdentity(hash, due', principalHash').value.claimOperationId
    ensures due == due' && principalHash == principalHash'
  {
    var id, id' := hash(Preimage(OfDue(due)).value), hash(Preimage(OfDue(due')).value);
    PreimagesAreInjective(OfClaim(ClaimTuple(due.caseId, ClaimOperationFor(due.kind), principalHash, id)),
                          OfClaim(ClaimTuple(due'.caseId, ClaimOperationFor(due'.kind), principalHash', id')));
    PreimagesAreInjective(OfDue(due), OfDue(due'));
  }
}
