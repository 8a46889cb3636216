/** `MemoryStore.session_append` against a key-value cell with revisions: a bounded optimistic retry
    loop. First the loop itself, with arbitrary interference by other appenders; then any number of
    appenders as a state machine over their individual reads and writes. */
module SessionStore {
  import opened Wrappers

  /** A JSON value; encoding and decoding a history gives the history back. */
  datatype Message = Message(id: nat)

  datatype Entry = Entry(revision: nat, history: seq<Message>)

  const MAX_TRIES := 8

  /** The key-value cell of one session. Revisions come from a sequence that all keys of the bucket
      share, so they only ever grow. */
  class Cell {
    var entry: Option<Entry>
    var sequence: nat
    /** Every message ever stored, in commit order. */
    ghost var log: seq<Message>

    ghost predicate Valid()
      reads this
    {
      match entry
      case None => log == []
      case Some(e) => e.revision <= sequence && e.history == log && log != []
    }

    constructor ()
      ensures Valid() && log == []
    {
      entry, sequence, log := None, 0, [];
    }

    /** `kv.create`: refused if the key exists. */
    method Create(history: seq<Message>) returns (ok: bool)
      requires Valid() && |history| == 1
      modifies this
      ensures Valid() && sequence >= old(sequence)
      ensures ok <==> old(entry).None?
      ensures if ok then log == history && entry.Some? && entry.value.revision > old(sequence)
              else entry == old(entry) && log == old(log)
    {
      ok := entry.None?;
      if ok {
        sequence := sequence + 1;
        entry, log := Some(Entry(sequence, history)), history;
      }
    }

    /** `kv.update`: refused unless `last` is the current revision. */
    method Update(history: seq<Message>, last: nat) returns (ok: bool)
      requires Valid()
      requires entry.Some? && entry.value.revision == last ==> |history| == |log| + 1 && log < history
      modifies this
      ensures Valid() && sequence >= old(sequence)
      ensures ok <==> old(entry).Some? && old(entry).value.revision == last
      ensures if ok then log == history && entry.Some? && entry.value.revision > old(sequence)
              else entry == old(entry) && log == old(log)
    {
      ok := entry.Some? && entry.value.revision == last;
      if ok {
        sequence := sequence + 1;
        entry, log := Some(Entry(sequence, history)), history;
      }
    }

    /** While an appender is suspended, others may append to this session and write to other keys. */
    method Interfere() returns (ghost others: seq<Message>)
      requires Valid()
      modifies this
      ensures Valid() && sequence >= old(sequence) && log == old(log) + others
      ensures others == [] ==> entry == old(entry)
      ensures others != [] ==> entry.Some? && entry.value.revision > old(sequence)
    {
      var messages: seq<Message> := *;
      var writes :| 0 <= writes;
      sequence := sequence + writes;
      others := [];
      for i := 0 to |messages|
        invariant Valid() && sequence >= old(sequence) + writes && log == old(log) + others
        invariant others == [] ==> entry == old(entry)
        invariant others != [] ==> entry.Some? && entry.value.revision > old(sequence)
      {
        var history := if entry.Some? then entry.value.history else [];
        sequence := sequence + 1;
        entry := Some(Entry(sequence, history + [messages[i]]));
        log := log + [messages[i]];
        others := others + [messages[i]];
      }
    }
  }

  /** `session_append`. The message is stored once, right after what others stored meanwhile; a
      conflict error means that others committed at least eight times during this very call, once for each
      of its eight tries. */
  method SessionAppend(cell: Cell, message: Message) returns (ok: bool, ghost others: seq<Message>, ghost tries: nat)
    requires cell.Valid()
    modifies cell
    ensures cell.Valid()
    ensures cell.log == old(cell.log) + others + if ok then [message] else []
    ensures tries <= 8 && (!ok ==> |others| >= tries == 8)
  {
    others, tries := [], 0;
    for attempt := 0 to MAX_TRIES
      invariant cell.Valid() && cell.log == old(cell.log) + others && |others| >= attempt == tries
    {
      tries := tries + 1;
      ghost var meanwhile := cell.Interfere();
      others := others + meanwhile;
      var entry := cell.entry;
      meanwhile := cell.Interfere();
      if entry.None? {
        ok := cell.Create([message]);
      } else {
        ok := cell.Update(entry.value.history + [message], entry.value.revision);
      }
      others := others + meanwhile;
      if ok {
        return;
      }
    }
    return false, others, tries;
  }

  /** `session_get`. */
  method SessionGet(cell: Cell) returns (history: seq<Message>)
    requires cell.Valid()
    ensures history == cell.log
  {
    return if cell.entry.None? then [] else cell.entry.value.history;
  }

  /******* Any number of appenders *******/

  /** One call of `session_append`, between its suspensions. `started` is how many commits there were
      when the call began, `seenAt` how many when it last read the cell. */
  datatype Call =
    | Ready(message: Message, tries: nat, started: nat)
    | Seen(message: Message, tries: nat, started: nat, entry: Option<Entry>, seenAt: nat)
    | Done(message: Message, started: nat, commit: nat)
    | GaveUp(message: Message, started: nat, stopped: nat)

  /** A successful write: which call made it, and the message it appended. */
  datatype Commit = Commit(call: nat, message: Message)

  datatype World = World(entry: Option<Entry>, sequence: nat, calls: map<nat, Call>, commits: seq<Commit>)

  const EMPTY_WORLD := World(None, 0, map[], [])

  datatype Action =
    | Begin(call: nat, message: Message)
    | Get(call: nat)
    | Put(call: nat)
    | OtherKey(writes: nat)

  function AfterFailure(c: Call, commits: nat): Call
    requires c.Seen?
  {
    if c.tries + 1 < MAX_TRIES then Ready(c.message, c.tries + 1, c.started) else GaveUp(c.message, c.started, commits)
  }

  predicate PutSucceeds(w: World, c: Call)
    requires c.Seen?
  {
    match c.entry
    case None => w.entry.None?
    case Some(e) => w.entry.Some? && w.entry.value.revision == e.revision
  }

  function Appended(c: Call): seq<Message>
    requires c.Seen?
  {
    (if c.entry.Some? then c.entry.value.history else []) + [c.message]
  }

  /** What one action does; an action that its call is not up to does nothing. */
  function Next(w: World, a: Action): World {
    match a
    case Begin(id, message) =>
      if id in w.calls then w else w.(calls := w.calls[id := Ready(message, 0, |w.commits|)])
    case Get(id) =>
      if id in w.calls && w.calls[id].Ready?
      then var c := w.calls[id];
           w.(calls := w.calls[id := Seen(c.message, c.tries, c.started, w.entry, |w.commits|)])
      else w
    case Put(id) =>
      if id !in w.calls || !w.calls[id].Seen? then w
      else
        var c := w.calls[id];
        if PutSucceeds(w, c)
        then World(Some(Entry(w.sequence + 1, Appended(c))), w.sequence + 1,
                   w.calls[id := Done(c.message, c.started, |w.commits|)], w.commits + [Commit(id, c.message)])
        else w.(calls := w.calls[id := AfterFailure(c, |w.commits|)])
    case OtherKey(writes) => w.(sequence := w.sequence + writes)
  }

  function Run(w: World, actions: seq<Action>): World
    decreases |actions|
  {
    if actions == [] then w else Run(Next(w, actions[0]), actions[1..])
  }

  function Messages(commits: seq<Commit>): seq<Message> {
    seq(|commits|, i requires 0 <= i < |commits| => commits[i].message)
  }

  function History(w: World): seq<Message> {
    if w.entry.None? then [] else w.entry.value.history
  }

  /** The stored history is what was committed, in that order. */
  ghost predicate HistoryIsCommitted(w: World) {
    && History(w) == Messages(w.commits)
    && (w.entry.None? <==> w.commits == [])
    && (w.entry.Some? ==> w.entry.value.revision <= w.sequence)
  }

  /** A reader either holds the current entry, or the entry has moved to a later revision since. */
  ghost predicate ReadIsCurrentOrStale(w: World, c: Call)
    requires c.Seen?
  {
    && c.seenAt <= |w.commits|
    && (c.seenAt == |w.commits| ==> c.entry == w.entry)
    && (c.seenAt < |w.commits| ==>
          w.entry.Some? && (c.entry.Some? ==> c.entry.value.revision < w.entry.value.revision))
  }

  /** No call but those that are done has committed; a call that is done has committed its message. */
  ghost predicate CallFits(w: World, id: nat, c: Call) {
    && (c.Done? <==> exists i | 0 <= i < |w.commits| :: w.commits[i].call == id)
    && (c.Done? ==> c.commit < |w.commits| && w.commits[c.commit] == Commit(id, c.message) && c.started <= c.commit)
    && (c.Ready? ==> c.tries < MAX_TRIES && c.started + c.tries <= |w.commits|)
    && (c.Seen? ==> c.tries < MAX_TRIES && c.started + c.tries <= c.seenAt && ReadIsCurrentOrStale(w, c))
    && (c.GaveUp? ==> c.started + MAX_TRIES <= c.stopped <= |w.commits|)
  }

  ghost predicate WorldInv(w: World) {
    && HistoryIsCommitted(w)
    && (forall i, j | 0 <= i < j < |w.commits| :: w.commits[i].call != w.commits[j].call)
    && (forall i | 0 <= i < |w.commits| :: w.commits[i].call in w.calls)
    && (forall id | id in w.calls :: CallFits(w, id, w.calls[id]))
  }

  /** A put that succeeds has read the current entry: nothing was committed in between. */
  lemma SuccessReadsCurrent(w: World, id: nat)
    requires WorldInv(w) && id in w.calls && w.calls[id].Seen? && PutSucceeds(w, w.calls[id])
    ensures w.calls[id].entry == w.entry && w.calls[id].seenAt == |w.commits|
  {
    assert CallFits(w, id, w.calls[id]);
  }

  lemma CommitKeepsCall(w: World, w': World, id: nat, c: Call, commit: Commit)
    requires CallFits(w, id, c) && w'.commits == w.commits + [commit] && commit.call != id
    requires w'.entry.Some? && (w.entry.Some? ==> w.entry.value.revision < w'.entry.value.revision)
    ensures CallFits(w', id, c)
  {
    if c.Done? {
      assert w'.commits[c.commit].call == id;
    }
  }

  lemma PutKeeps(w: World, id: nat)
    requires WorldInv(w) && id in w.calls && w.calls[id].Seen? && PutSucceeds(w, w.calls[id])
    ensures WorldInv(Next(w, Put(id)))
  {
    var w', c := Next(w, Put(id)), w.calls[id];
    SuccessReadsCurrent(w, id);
    assert CallFits(w, id, c);
    assert w'.commits[|w.commits|] == Commit(id, c.message);
    assert HistoryIsCommitted(w');
    forall k | k in w'.calls ensures CallFits(w', k, w'.calls[k]) {
      if k != id {
        CommitKeepsCall(w, w', k, w.calls[k], Commit(id, c.message));
      }
    }
  }

  lemma QuietKeeps(w: World, a: Action)
    requires WorldInv(w) && Next(w, a).commits == w.commits
    ensures WorldInv(Next(w, a))
  {
    var w' := Next(w, a);
    forall k | k in w'.calls ensures CallFits(w', k, w'.calls[k]) {
      if k in w.calls {
        assert CallFits(w, k, w.calls[k]);
      }
    }
  }

  lemma NextKeeps(w: World, a: Action)
    requires WorldInv(w)
    ensures WorldInv(Next(w, a)) && w.commits <= Next(w, a).commits
  {
    if a.Put? && a.call in w.calls && w.calls[a.call].Seen? && PutSucceeds(w, w.calls[a.call]) {
      PutKeeps(w, a.call);
    } else {
      QuietKeeps(w, a);
    }
  }

  lemma {:induction false} RunKeeps(w: World, actions: seq<Action>)
    requires WorldInv(w)
    ensures WorldInv(Run(w, actions)) && w.commits <= Run(w, actions).commits
    decreases |actions|
  {
    if actions != [] {
      NextKeeps(w, actions[0]);
      RunKeeps(Next(w, actions[0]), actions[1..]);
    }
  }

  /** No update is lost: the history is the messages of the calls that returned, each exactly once, in
      the order of their commits. */
  lemma NoLostUpdates(actions: seq<Action>)
    ensures var w := Run(EMPTY_WORLD, actions);
      && History(w) == Messages(w.commits)
      && (forall i, j | 0 <= i < j < |w.commits| :: w.commits[i].call != w.commits[j].call)
      && (forall i | 0 <= i < |w.commits| :: w.commits[i].call in w.calls && w.calls[w.commits[i].call].Done?)
      && (forall id | id in w.calls && w.calls[id].Done? ::
            exists i | 0 <= i < |w.commits| :: w.commits[i] == Commit(id, w.calls[id].message))
  {
    var w := Run(EMPTY_WORLD, actions);
    RunKeeps(EMPTY_WORLD, actions);
    forall id | id in w.calls && w.calls[id].Done?
      ensures exists i | 0 <= i < |w.commits| :: w.commits[i] == Commit(id, w.calls[id].message)
    {
      assert CallFits(w, id, w.calls[id]);
    }
    forall i | 0 <= i < |w.commits| ensures w.commits[i].call in w.calls && w.calls[w.commits[i].call].Done? {
      assert CallFits(w, w.commits[i].call, w.calls[w.commits[i].call]);
    }
  }

  /** What a write comes to: it succeeds exactly if nothing was committed since the call read the cell, and
      then appends its message to the history; the eighth failure ends the call. */
  lemma PutDecides(actions: seq<Action>, id: nat)
    requires var w := Run(EMPTY_WORLD, actions); id in w.calls && w.calls[id].Seen?
    ensures var w, w' := Run(EMPTY_WORLD, actions), Next(Run(EMPTY_WORLD, actions), Put(id));
      var c := w.calls[id];
      && w'.calls.Keys == w.calls.Keys && (forall k | k in w.calls && k != id :: w'.calls[k] == w.calls[k])
      && if c.seenAt == |w.commits| then
           && History(w') == History(w) + [c.message] && w'.commits == w.commits + [Commit(id, c.message)]
           && w'.calls[id] == Done(c.message, c.started, |w.commits|)
         else
           && w'.entry == w.entry && w'.commits == w.commits
           && w'.calls[id] == if c.tries == 7 then GaveUp(c.message, c.started, |w.commits|)
                              else Ready(c.message, c.tries + 1, c.started)
  {
    RunKeeps(EMPTY_WORLD, actions);
    var w := Run(EMPTY_WORLD, actions);
    assert CallFits(w, id, w.calls[id]);
  }

  /** Every later history extends every earlier one. */
  lemma HistoriesGrow(actions: seq<Action>, more: seq<Action>)
    ensures History(Run(EMPTY_WORLD, actions)) <= History(Run(Run(EMPTY_WORLD, actions), more))
  {
    var w := Run(EMPTY_WORLD, actions);
    RunKeeps(EMPTY_WORLD, actions);
    RunKeeps(w, more);
    var w' := Run(w, more);
    assert forall i | 0 <= i < |w.commits| :: Messages(w.commits)[i] == Messages(w'.commits)[i];
  }

  /** A call that gives up has stored nothing, and at least eight commits by others happened since it began. */
  lemma GivingUpIsJustified(actions: seq<Action>, id: nat)
    requires var w := Run(EMPTY_WORLD, actions); id in w.calls && w.calls[id].GaveUp?
    ensures var w := Run(EMPTY_WORLD, actions);
      var c := w.calls[id];
      && c.started + 8 <= c.stopped <= |w.commits|
      && forall i | 0 <= i < |w.commits| :: w.commits[i].call != id
  {
    var w := Run(EMPTY_WORLD, actions);
    RunKeeps(EMPTY_WORLD, actions);
    assert CallFits(w, id, w.calls[id]);
  }

  /** So with at most seven commits by others since it began, a call has not given up. */
  lemma FewConflictsNeverGiveUp(actions: seq<Action>, id: nat)
    requires var w := Run(EMPTY_WORLD, actions);
      id in w.calls && |w.commits| <= w.calls[id].started + 7
    ensures !Run(EMPTY_WORLD, actions).calls[id].GaveUp?
  {
    var w := Run(EMPTY_WORLD, actions);
    RunKeeps(EMPTY_WORLD, actions);
    assert CallFits(w, id, w.calls[id]);
  }
}
