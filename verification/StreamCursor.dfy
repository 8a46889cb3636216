/** The sequence gate for live stream frames, and the shape of what passes it. A payload digest is
    ideal: it is the frame it was computed from. */
module StreamCursor {
  import opened Wrappers
  import opened Text

  datatype TaskState =
    | UNSPECIFIED | SUBMITTED | WORKING | COMPLETED | FAILED | CANCELED | INPUT_REQUIRED | REJECTED | AUTH_REQUIRED

  predicate IsTerminal(s: TaskState) {
    s in {COMPLETED, FAILED, CANCELED, REJECTED}
  }

  /** The one-of in a stream response; `body` stands for the rest of its content. */
  datatype Payload =
    | StatusUpdate(taskId: string, state: TaskState, body: nat)
    | ArtifactUpdate(taskId: string, body: nat)
    | OtherPayload(body: nat)

  datatype Frame = Frame(sessionId: string, openId: string, sequence: int, eventSeq: int, final: bool, payload: Payload)

  datatype Digest = OfFrame(frame: Frame)

  datatype Cursor = Cursor(
    sessionId: string, openId: string, taskId: string, snapshotEventSeq: int,
    lastSequence: int, lastEventSeq: int, lastDigest: Option<Digest>, final: bool)

  datatype Disposition = NEW | REDELIVERY

  datatype Refusal =
    | WrongSession | WrongOpen | NotLive | WrongTask | WrongFinal | Conflict | AfterFinal
    | WrongSequence | BeforeSnapshot | NotIncreasing | InvalidCursor

  predicate IsSafeToken(s: string) {
    && 1 <= |s| <= 128
    && forall i | 0 <= i < |s| ::
         'A' <= s[i] <= 'Z' || 'a' <= s[i] <= 'z' || '0' <= s[i] <= '9' || s[i] == '_' || s[i] == '-'
  }

  /** What the constructor of a frame checks. */
  predicate ValidFrame(f: Frame) {
    IsSafeToken(f.sessionId) && IsSafeToken(f.openId) && SafeInteger(0, f.sequence) && SafeInteger(0, f.eventSeq)
  }

  /** What the constructor of a cursor checks, after its default. */
  predicate ValidCursor(c: Cursor) {
    && IsSafeToken(c.sessionId) && IsSafeToken(c.openId) && IsSafeToken(c.taskId)
    && SafeInteger(0, c.snapshotEventSeq) && SafeInteger(0, c.lastSequence) && SafeInteger(0, c.lastEventSeq)
    && (if c.lastSequence == 0
        then c.lastEventSeq == c.snapshotEventSeq && c.lastDigest.None? && !c.final
        else c.snapshotEventSeq < c.lastEventSeq && c.lastDigest.Some?)
  }

  /** `StreamFrameCursorV1(...)`: without a last event number the cursor stands at its snapshot. */
  function Construct(sessionId: string, openId: string, taskId: string, snapshotEventSeq: int, lastSequence: int,
                     lastEventSeq: Option<int>, lastDigest: Option<Digest>, final: bool): Result<Cursor, Refusal>
  {
    var c := Cursor(sessionId, openId, taskId, snapshotEventSeq, lastSequence,
                    if lastEventSeq.Some? then lastEventSeq.value else snapshotEventSeq, lastDigest, final);
    :- Need(ValidCursor(c), InvalidCursor);
    Ok(c)
  }

  /** `_live_event_identity`. */
  function LiveIdentity(f: Frame): Result<(string, bool), Refusal> {
    match f.payload
    case StatusUpdate(taskId, state, _) => Ok((taskId, IsTerminal(state)))
    case ArtifactUpdate(taskId, _) => Ok((taskId, false))
    case OtherPayload(_) => Err(NotLive)
  }

  function Accept(c: Cursor, f: Frame): Result<(Cursor, Disposition), Refusal> {
    if f.sessionId != c.sessionId then Err(WrongSession) else
    :- Need(f.openId == c.openId, WrongOpen);
    var (taskId, terminal) :- LiveIdentity(f);
    :- Need(taskId == c.taskId, WrongTask);
    :- Need(f.final == terminal, WrongFinal);
    if f.sequence == c.lastSequence && c.lastSequence > 0 then
      :- Need(f.eventSeq == c.lastEventSeq && c.lastDigest == Some(OfFrame(f)) && f.final == c.final, Conflict);
      Ok((c, REDELIVERY))
    else
      :- Need(!c.final, AfterFinal);
      :- Need(f.sequence == c.lastSequence + 1, WrongSequence);
      :- Need(c.snapshotEventSeq < f.eventSeq, BeforeSnapshot);
      :- Need(c.lastEventSeq < f.eventSeq, NotIncreasing);
      var advanced :- Construct(c.sessionId, c.openId, c.taskId, c.snapshotEventSeq, f.sequence, Some(f.eventSeq),
                                Some(OfFrame(f)), f.final);
      Ok((advanced, NEW))
  }

  /** A receiver that keeps its cursor when a frame is refused, and collects the new frames. */
  datatype Receiver = Receiver(cursor: Cursor, news: seq<Frame>)

  function Receive(r: Receiver, f: Frame): Receiver {
    match Accept(r.cursor, f)
    case Err(_) => r
    case Ok((c, d)) => Receiver(c, if d == NEW then r.news + [f] else r.news)
  }

  function ReceiveAll(r: Receiver, frames: seq<Frame>): Receiver {
    if frames == [] then r else Receive(ReceiveAll(r, frames[..|frames| - 1]), frames[|frames| - 1])
  }

  /******* Shape *******/

  /** An event of the cursor's stream and task: an artifact update, never final, or a status update, final
      exactly if the task has ended. */
  ghost predicate IsLiveEvent(f: Frame, c: Cursor) {
    && f.sessionId == c.sessionId && f.openId == c.openId
    && match f.payload
       case ArtifactUpdate(taskId, _) => taskId == c.taskId && !f.final
       case StatusUpdate(taskId, state, _) =>
         taskId == c.taskId
         && (f.final <==> state == COMPLETED || state == FAILED || state == CANCELED || state == REJECTED)
       case OtherPayload(_) => false
  }

  /** Sequences 1, 2, ..., event numbers that increase from above the snapshot, and nothing after a final frame. */
  ghost predicate IsTrace(c: Cursor, news: seq<Frame>) {
    && (forall i | 0 <= i < |news| ::
          && ValidFrame(news[i]) && IsLiveEvent(news[i], c)
          && news[i].sequence == i + 1 && c.snapshotEventSeq < news[i].eventSeq)
    && (forall i, j | 0 <= i < j < |news| :: news[i].eventSeq < news[j].eventSeq && !news[i].final)
  }

  /** The cursor is where its trace ends. */
  ghost predicate StandsAt(c: Cursor, news: seq<Frame>) {
    if news == [] then c.lastSequence == 0
    else
      var last := news[|news| - 1];
      c.lastSequence == |news| && c.lastEventSeq == last.eventSeq && c.lastDigest == Some(OfFrame(last)) && c.final == last.final
  }

  ghost predicate Consistent(r: Receiver) {
    ValidCursor(r.cursor) && IsTrace(r.cursor, r.news) && StandsAt(r.cursor, r.news)
  }

  function Opened(c: Cursor): Receiver {
    Receiver(c, [])
  }

  /** The frame that a trace can be continued with. */
  ghost predicate Continues(c: Cursor, news: seq<Frame>, f: Frame) {
    && IsLiveEvent(f, c) && f.sequence == |news| + 1 && c.snapshotEventSeq < f.eventSeq
    && (news != [] ==> news[|news| - 1].eventSeq < f.eventSeq && !news[|news| - 1].final)
  }

  lemma TraceExtends(c: Cursor, news: seq<Frame>, f: Frame)
    requires ValidFrame(f)
    ensures IsTrace(c, news + [f]) <==> IsTrace(c, news) && Continues(c, news, f)
  {
    hide ValidFrame, IsLiveEvent;
    var n, longer := |news|, news + [f];
    assert longer[n] == f && forall i | 0 <= i < n :: longer[i] == news[i];
    if IsTrace(c, news) && Continues(c, news, f) {
      forall i | 0 <= i < n ensures longer[i].eventSeq < f.eventSeq && !longer[i].final {
        assert i < n - 1 ==> news[i].eventSeq < news[n - 1].eventSeq && !news[i].final;
      }
    }
    if IsTrace(c, longer) {
      assert n > 0 ==> longer[n - 1].eventSeq < f.eventSeq && !longer[n - 1].final;
    }
  }

  /** `accept` of any cursor, frame by frame: what is NEW and where it moves the cursor, what is a redelivery,
      and that everything else is refused. */
  lemma AcceptsExactly(c: Cursor, f: Frame)
    requires ValidCursor(c) && ValidFrame(f)
    ensures var r := Accept(c, f);
      && (r.Ok? && r.value.1 == NEW
          <==> && IsLiveEvent(f, c) && !c.final
               && f.sequence == c.lastSequence + 1 && c.snapshotEventSeq < f.eventSeq && c.lastEventSeq < f.eventSeq)
      && (r.Ok? && r.value.1 == NEW ==>
            r.value.0 == Cursor(c.sessionId, c.openId, c.taskId, c.snapshotEventSeq, f.sequence, f.eventSeq,
                                Some(OfFrame(f)), f.final))
      && (r.Ok? && r.value.1 == REDELIVERY
          <==> && IsLiveEvent(f, c) && c.lastSequence >= 1
               && f.sequence == c.lastSequence && f.eventSeq == c.lastEventSeq && f.final == c.final
               && c.lastDigest == Some(OfFrame(f)))
      && (r.Ok? && r.value.1 == REDELIVERY ==> r.value.0 == c)
  {
    hide IsSafeToken;
  }

  /** Which cursors can be constructed: tokens and safe integers, standing at the snapshot before the first
      frame and past it, with a digest, afterwards. */
  lemma ConstructsExactly(sessionId: string, openId: string, taskId: string, snapshotEventSeq: int, lastSequence: int,
                          lastEventSeq: Option<int>, lastDigest: Option<Digest>, final: bool)
    ensures var r := Construct(sessionId, openId, taskId, snapshotEventSeq, lastSequence, lastEventSeq, lastDigest, final);
      var last := match lastEventSeq case None => snapshotEventSeq case Some(n) => n;
      && (r.Ok?
          <==> && IsToken(sessionId) && IsToken(openId) && IsToken(taskId)
               && 0 <= snapshotEventSeq <= 9_007_199_254_740_991 && 0 <= lastSequence <= 9_007_199_254_740_991
               && 0 <= last <= 9_007_199_254_740_991
               && (lastSequence == 0 ==> last == snapshotEventSeq && lastDigest == None && !final)
               && (lastSequence != 0 ==> last > snapshotEventSeq && lastDigest != None))
      && (r.Ok? ==> r.value == Cursor(sessionId, openId, taskId, snapshotEventSeq, lastSequence, last, lastDigest, final))
  {
    hide IsSafeToken, IsToken;
    TokensExactly(sessionId);
    TokensExactly(openId);
    TokensExactly(taskId);
  }

  /** `[A-Za-z0-9_-]{1,128}`, as code points. */
  ghost predicate IsToken(s: string) {
    && 1 <= |s| <= 128
    && forall i | 0 <= i < |s| ::
         var n := s[i] as int;
         0x41 <= n <= 0x5A || 0x61 <= n <= 0x7A || 0x30 <= n <= 0x39 || n == 0x5F || n == 0x2D
  }

  lemma TokensExactly(s: string)
    ensures IsSafeToken(s) <==> IsToken(s)
  {
  }

  /** What `accept` decides at the end of a trace: new exactly if the trace continues with the frame. */
  lemma AcceptDecides(r: Receiver, f: Frame)
    requires ValidCursor(r.cursor) && StandsAt(r.cursor, r.news) && ValidFrame(f)
    ensures var c := Cursor(r.cursor.sessionId, r.cursor.openId, r.cursor.taskId, r.cursor.snapshotEventSeq,
                            f.sequence, f.eventSeq, Some(OfFrame(f)), f.final);
      if Continues(r.cursor, r.news, f) then ValidCursor(c) && Accept(r.cursor, f) == Ok((c, NEW))
      else Accept(r.cursor, f) != Err(InvalidCursor) && (Accept(r.cursor, f).Ok? ==> Accept(r.cursor, f).value == (r.cursor, REDELIVERY))
  {
    hide IsSafeToken;
  }

  /** `accept` never builds a cursor that its constructor would refuse, and new frames prolong the trace. */
  lemma AcceptNeverInvalid(r: Receiver, f: Frame)
    requires Consistent(r) && ValidFrame(f)
    ensures Accept(r.cursor, f) != Err(InvalidCursor)
    ensures Consistent(Receive(r, f))
    ensures Continues(r.cursor, r.news, f) ==> Receive(r, f).news == r.news + [f]
  {
    hide Accept, IsSafeToken, IsLiveEvent;
    AcceptDecides(r, f);
    TraceExtends(r.cursor, r.news, f);
    if Continues(r.cursor, r.news, f) {
      TraceIgnoresPosition(r.cursor, Receive(r, f).cursor, r.news + [f]);
    }
  }

  predicate SameStream(c: Cursor, d: Cursor) {
    d.sessionId == c.sessionId && d.openId == c.openId && d.taskId == c.taskId && d.snapshotEventSeq == c.snapshotEventSeq
  }

  lemma TraceMoves(c: Cursor, d: Cursor, news: seq<Frame>)
    requires SameStream(c, d) && IsTrace(c, news)
    ensures IsTrace(d, news)
  {
    forall i | 0 <= i < |news|
      ensures ValidFrame(news[i]) && IsLiveEvent(news[i], d) && news[i].sequence == i + 1 && d.snapshotEventSeq < news[i].eventSeq
    {
      assert IsLiveEvent(news[i], c);
    }
  }

  /** A trace belongs to the stream, wherever the cursor stands. */
  lemma TraceIgnoresPosition(c: Cursor, d: Cursor, news: seq<Frame>)
    requires SameStream(c, d)
    ensures IsTrace(c, news) <==> IsTrace(d, news)
    ensures forall f :: Continues(c, news, f) <==> Continues(d, news, f)
  {
    if IsTrace(c, news) {
      TraceMoves(c, d, news);
    }
    if IsTrace(d, news) {
      TraceMoves(d, c, news);
    }
  }

  /** Whatever arrives, in whatever order and however often: what passes as new is a trace, and the
      cursor stands at its end. */
  lemma {:induction false} TraceShape(c: Cursor, frames: seq<Frame>)
    requires ValidCursor(c) && c.lastSequence == 0 && forall i | 0 <= i < |frames| :: ValidFrame(frames[i])
    ensures var r := ReceiveAll(Opened(c), frames);
      Consistent(r) && SameStream(c, r.cursor)
  {
    if frames != [] {
      var before, last := frames[..|frames| - 1], frames[|frames| - 1];
      TraceShape(c, before);
      AcceptNeverInvalid(ReceiveAll(Opened(c), before), last);
    }
  }

  /** Conversely, every trace passes in full. */
  lemma {:induction false} TracesPass(c: Cursor, frames: seq<Frame>)
    requires ValidCursor(c) && c.lastSequence == 0 && IsTrace(c, frames)
    ensures ReceiveAll(Opened(c), frames).news == frames
  {
    if frames != [] {
      hide ValidFrame, IsSafeToken, Accept, Continues, Consistent;
      var before, last := frames[..|frames| - 1], frames[|frames| - 1];
      assert frames == before + [last];
      TraceExtends(c, before, last);
      TracesPass(c, before);
      TraceShape(c, before);
      var r := ReceiveAll(Opened(c), before);
      TraceIgnoresPosition(c, r.cursor, before);
      AcceptNeverInvalid(r, last);
    }
  }

  /** A frame is a redelivery exactly if it is the frame accepted last; then nothing changes. */
  lemma RedeliveryExactly(r: Receiver, f: Frame)
    requires Consistent(r) && ValidFrame(f)
    ensures (Accept(r.cursor, f).Ok? && Accept(r.cursor, f).value.1 == REDELIVERY)
       <==> r.news != [] && f == r.news[|r.news| - 1]
    ensures Accept(r.cursor, f).Ok? && Accept(r.cursor, f).value.1 == REDELIVERY ==> Receive(r, f) == r
  {
    if r.news != [] && f == r.news[|r.news| - 1] {
      assert IsLiveEvent(f, r.cursor);
    }
  }

  /** After a final frame nothing new passes. */
  lemma NothingAfterFinal(r: Receiver, f: Frame)
    requires Consistent(r) && ValidFrame(f) && r.cursor.final
    ensures Receive(r, f) == r
  {
  }

  /** Receiving a frame twice in a row is receiving it once, accepted or not. */
  lemma RepeatHasNoEffect(r: Receiver, f: Frame)
    requires Consistent(r) && ValidFrame(f)
    ensures Receive(Receive(r, f), f) == Receive(r, f)
  {
    var once := Receive(r, f);
    if once != r {
      AcceptNeverInvalid(r, f);
      RedeliveryExactly(once, f);
    }
  }

  lemma {:induction false} ReceiveInParts(r: Receiver, xs: seq<Frame>, ys: seq<Frame>)
    ensures ReceiveAll(r, xs + ys) == ReceiveAll(ReceiveAll(r, xs), ys)
    decreases |ys|
  {
    if ys == [] {
      assert xs + ys == xs;
    } else {
      var n := |ys| - 1;
      assert (xs + ys)[..|xs| + n] == xs + ys[..n];
      ReceiveInParts(r, xs, ys[..n]);
    }
  }

  /** So immediate repeats anywhere in the input change neither the cursor nor the new frames. */
  lemma RepeatsAnywhere(c: Cursor, xs: seq<Frame>, f: Frame, ys: seq<Frame>)
    requires ValidCursor(c) && c.lastSequence == 0
    requires ValidFrame(f) && forall i | 0 <= i < |xs| :: ValidFrame(xs[i])
    ensures ReceiveAll(Opened(c), xs + [f, f] + ys) == ReceiveAll(Opened(c), xs + [f] + ys)
  {
    TraceShape(c, xs);
    var r := ReceiveAll(Opened(c), xs);
    ReceiveInParts(Opened(c), xs + [f, f], ys);
    ReceiveInParts(Opened(c), xs + [f], ys);
    assert (xs + [f])[..|xs|] == xs && (xs + [f, f])[..|xs| + 1] == xs + [f];
    RepeatHasNoEffect(r, f);
  }
}
