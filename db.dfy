/** The single-writer group-commit batcher of db.go, with the goroutine,
    channels and ticker replaced by an explicit sequence of events, plus the
    connection-pool sizing and pragma set-up of NewDB. */
module Batcher {
  import opened Common
  import opened Strs
  import opened Sorting

  // -----------------------------------------------------------------------
  // Events, replies and the abstract state of the batch processor.

  /** What the processor's `select` receives. A request carries the caller's
      id, what writeDB.Begin() returns if it is called for this request, and
      what the caller's function returns. A tick carries what Commit returns. */
  datatype Event =
    | Request(id: nat, begin: Outcome, fn: Outcome)
    | Tick(commit: Outcome)

  /** One send on a caller's response channel: nil (None) or an error. */
  datatype Reply = Reply(id: nat, err: Option<Error>)

  /** The `currentTx` variable: nil, a live transaction, or (after a
      rollback, which does not reset it) a transaction already rolled back. */
  datatype TxState = NoTx | Live | RolledBack

  /** The processor's variables (`requests`, `currentTx`), the replies sent
      so far in sending order, how often the write connection began,
      committed and rolled back a transaction, and (as history) the ids of
      all requests in arrival order. */
  datatype State = State(
    pending: seq<nat>,
    tx: TxState,
    log: seq<Reply>,
    begins: nat,
    commits: nat,
    rollbacks: nat,
    arrived: seq<nat>)

  const Initial := State([], NoTx, [], 0, 0, 0, [])

  /** The same error sent to each of `ids`, in order. */
  function Broadcast(ids: seq<nat>, err: Option<Error>): (r: seq<Reply>)
    ensures |r| == |ids|
  {
    if ids == [] then [] else [Reply(ids[0], err)] + Broadcast(ids[1..], err)
  }

  lemma {:induction false} BroadcastAppend(ids: seq<nat>, x: nat, err: Option<Error>)
    ensures Broadcast(ids + [x], err) == Broadcast(ids, err) + [Reply(x, err)]
  {
    if ids != [] {
      BroadcastAppend(ids[1..], x, err);
      assert (ids + [x])[1..] == ids[1..] + [x];
    } else {
      assert ids + [x] == [x];
    }
  }

  function Ids(log: seq<Reply>): (r: seq<nat>)
    ensures |r| == |log|
  {
    if log == [] then [] else [log[0].id] + Ids(log[1..])
  }

  /** Begin failed for a request that would have opened a batch: only this
      caller hears of it and no transaction is kept (db.go:97-103). */
  function BeginFailed(s: State, id: nat, e: Error): State {
    State(s.pending, NoTx, s.log + [Reply(id, Some(e))], s.begins, s.commits, s.rollbacks, s.arrived + [id])
  }

  /** The begin count after a request that got past Begin. */
  function BeginsAfter(s: State): nat {
    if s.pending == [] then s.begins + 1 else s.begins
  }

  /** The replies of a rollback: the failing caller's own error first, then
      "Transaction aborted" to every earlier pending caller in order. */
  function AbortReplies(s: State, id: nat, e: Error): seq<Reply> {
    [Reply(id, Some(e))] + Broadcast(s.pending, Some(TransactionAborted))
  }

  /** The request's function failed: roll back and answer everyone
      (db.go:106-117). */
  function Aborted(s: State, id: nat, e: Error): State {
    State([], RolledBack, s.log + AbortReplies(s, id, e), BeginsAfter(s), s.commits, s.rollbacks + 1, s.arrived + [id])
  }

  /** The request's function succeeded: it joins the batch (db.go:119). */
  function Joined(s: State, id: nat): State {
    State(s.pending + [id], Live, s.log, BeginsAfter(s), s.commits, s.rollbacks, s.arrived + [id])
  }

  /** A tick with a batch pending: commit and send the result to everyone
      pending (db.go:121-128). */
  function Committed(s: State, c: Outcome): State {
    State([], NoTx, s.log + Broadcast(s.pending, c.AsError()), s.begins, s.commits + 1, s.rollbacks, s.arrived)
  }

  /** One turn of the `for { select { ... } }` loop (db.go:94-131). */
  function Next(s: State, e: Event): State {
    match e
    case Request(id, begin, fn) =>
      if s.pending == [] && begin.Fail? then BeginFailed(s, id, begin.error)
      else if fn.Fail? then Aborted(s, id, fn.error)
      else Joined(s, id)
    case Tick(c) =>
      if s.pending == [] then s else Committed(s, c)
  }

  /** The processor after a sequence of events. */
  function Run(s: State, es: seq<Event>): State
    decreases |es|
  {
    if es == [] then s else Run(Next(s, es[0]), es[1..])
  }

  /** The invariant of the processor:
      - a batch is pending exactly when a live transaction is open;
      - every transaction begun is committed once, or rolled back once, or
        is the live one;
      - every request that arrived is either answered or pending, and
        nothing else is answered or pending;
      - the pending requests are the latest arrivals, in arrival order. */
  ghost predicate Inv(s: State) {
    && (s.pending != [] <==> s.tx == Live)
    && s.begins == s.commits + s.rollbacks + (if s.tx == Live then 1 else 0)
    && multiset(Ids(s.log)) + multiset(s.pending) == multiset(s.arrived)
    && |s.pending| <= |s.arrived|
    && s.pending == s.arrived[|s.arrived| - |s.pending|..]
  }

  lemma {:induction false} BroadcastIds(ids: seq<nat>, err: Option<Error>)
    ensures Ids(Broadcast(ids, err)) == ids
  {
    if ids != [] {
      BroadcastIds(ids[1..], err);
    }
  }

  lemma {:induction false} IdsAppend(a: seq<Reply>, b: seq<Reply>)
    ensures Ids(a + b) == Ids(a) + Ids(b)
  {
    if a != [] {
      IdsAppend(a[1..], b);
      assert (a + b)[1..] == a[1..] + b;
    } else {
      assert a + b == b;
    }
  }

  lemma InitialInv()
    ensures Inv(Initial)
  {
  }

  lemma {:induction false} RequestInv(s: State, id: nat, begin: Outcome, fn: Outcome)
    requires Inv(s)
    ensures Inv(Next(s, Request(id, begin, fn)))
  {
    if s.pending == [] && begin.Fail? {
      BeginFailedInv(s, id, begin.error);
    } else if fn.Fail? {
      AbortedInv(s, id, fn.error);
    } else {
      JoinedInv(s, id);
    }
  }

  lemma BeginFailedInv(s: State, id: nat, e: Error)
    requires Inv(s) && s.pending == []
    ensures Inv(BeginFailed(s, id, e))
  {
    var t := BeginFailed(s, id, e);
    IdsAppend(s.log, [Reply(id, Some(e))]);
    assert Ids(t.log) == Ids(s.log) + [id];
  }

  lemma AbortRepliesIds(s: State, id: nat, e: Error)
    ensures Ids(AbortReplies(s, id, e)) == [id] + s.pending
  {
    var b := Broadcast(s.pending, Some(TransactionAborted));
    IdsAppend([Reply(id, Some(e))], b);
    BroadcastIds(s.pending, Some(TransactionAborted));
  }

  lemma AbortedInv(s: State, id: nat, e: Error)
    requires Inv(s)
    ensures Inv(Aborted(s, id, e))
  {
    var t := Aborted(s, id, e);
    assert t.begins == t.commits + t.rollbacks;
    assert Ids(t.log) == Ids(s.log) + ([id] + s.pending) by {
      AbortRepliesIds(s, id, e);
      IdsAppend(s.log, AbortReplies(s, id, e));
    }
    AnsweredAll(Ids(s.log), id, s.pending, s.arrived);
    assert t.pending == t.arrived[|t.arrived| - |t.pending|..];
  }

  /** Answering the new arrival and every pending request accounts for
      all arrivals. */
  lemma AnsweredAll(answered: seq<nat>, id: nat, pending: seq<nat>, arrived: seq<nat>)
    requires multiset(answered) + multiset(pending) == multiset(arrived)
    ensures multiset(answered + ([id] + pending)) == multiset(arrived + [id])
  {
  }

  lemma SuffixAppend(a: seq<nat>, k: nat, x: nat)
    requires k <= |a|
    ensures (a + [x])[|a + [x]| - (k + 1)..] == a[|a| - k..] + [x]
  {
  }

  lemma JoinedInv(s: State, id: nat)
    requires Inv(s)
    ensures Inv(Joined(s, id))
  {
    SuffixAppend(s.arrived, |s.pending|, id);
  }

  lemma {:induction false} TickInv(s: State, c: Outcome)
    requires Inv(s)
    ensures Inv(Next(s, Tick(c)))
  {
    if s.pending != [] {
      IdsAppend(s.log, Broadcast(s.pending, c.AsError()));
      BroadcastIds(s.pending, c.AsError());
    }
  }

  /** Every event keeps the invariant. */
  lemma NextInv(s: State, e: Event)
    requires Inv(s)
    ensures Inv(Next(s, e))
  {
    match e
    case Request(id, begin, fn) => RequestInv(s, id, begin, fn);
    case Tick(c) => TickInv(s, c);
  }

  lemma {:induction false} RunInv(s: State, es: seq<Event>)
    requires Inv(s)
    ensures Inv(Run(s, es))
    decreases |es|
  {
    if es != [] {
      NextInv(s, es[0]);
      RunInv(Next(s, es[0]), es[1..]);
    }
  }

  /** Replies are only ever added, never withdrawn or changed. */
  lemma {:induction false} RunExtendsLog(s: State, es: seq<Event>)
    ensures |s.log| <= |Run(s, es).log| && Run(s, es).log[..|s.log|] == s.log
    decreases |es|
  {
    if es != [] {
      RunExtendsLog(Next(s, es[0]), es[1..]);
    }
  }

  // -----------------------------------------------------------------------
  // Exactly-once answers.

  ghost predicate Distinct(ids: seq<nat>) {
    forall i, j :: 0 <= i < j < |ids| ==> ids[i] != ids[j]
  }

  lemma {:induction false} DistinctCount(ids: seq<nat>, x: nat)
    requires Distinct(ids) && x in ids
    ensures multiset(ids)[x] == 1
  {
    if ids[0] == x {
      assert x !in ids[1..];
    } else {
      DistinctCount(ids[1..], x);
    }
    assert ids == [ids[0]] + ids[1..];
  }

  /** When callers use distinct ids, every request that arrived has been
      answered exactly once or is still pending (and then not answered),
      and nothing that did not arrive is answered. */
  lemma AnsweredExactlyOnce(s: State, id: nat)
    requires Inv(s) && Distinct(s.arrived)
    ensures id in s.arrived ==> multiset(Ids(s.log))[id] + multiset(s.pending)[id] == 1
    ensures id !in s.arrived ==> id !in Ids(s.log) && id !in s.pending
  {
    if id in s.arrived {
      DistinctCount(s.arrived, id);
    } else {
      assert multiset(s.arrived)[id] == 0;
    }
  }

  // -----------------------------------------------------------------------
  // The reply a caller receives.

  /** The first reply sent to `id`, if any (the receive in Write). */
  function ReplyFor(log: seq<Reply>, id: nat): (r: Option<Option<Error>>)
    ensures r.None? <==> id !in Ids(log)
  {
    if log == [] then None
    else if log[0].id == id then Some(log[0].err)
    else ReplyFor(log[1..], id)
  }

  lemma {:induction false} ReplyForAppend(a: seq<Reply>, b: seq<Reply>, id: nat)
    ensures ReplyFor(a + b, id) == if id in Ids(a) then ReplyFor(a, id) else ReplyFor(b, id)
  {
    if a != [] {
      assert (a + b)[0] == a[0] && (a + b)[1..] == a[1..] + b;
      assert Ids(a) == [a[0].id] + Ids(a[1..]);
      if a[0].id == id {
        assert Ids(a)[0] == id;
      } else {
        assert id in Ids(a) <==> id in Ids(a[1..]);
        ReplyForAppend(a[1..], b, id);
      }
    } else {
      assert a + b == b;
    }
  }

  lemma {:induction false} ReplyForBroadcast(ids: seq<nat>, err: Option<Error>, id: nat)
    requires id in ids
    ensures ReplyFor(Broadcast(ids, err), id) == Some(err)
  {
    if ids[0] != id {
      ReplyForBroadcast(ids[1..], err, id);
    }
  }

  /** What a request that is already pending will be told by the events
      that follow: the first tick commits it, a failing request before that
      aborts it, and without either it is still waiting (None). */
  function Fate(later: seq<Event>): Option<Option<Error>>
    decreases |later|
  {
    if later == [] then None
    else match later[0]
      case Tick(c) => Some(c.AsError())
      case Request(_, _, fn) =>
        if fn.Fail? then Some(Some(TransactionAborted)) else Fate(later[1..])
  }

  /** What Write(fn) returns: the Begin error if the request opens a batch
      and Begin fails, the function's own error if it fails, and otherwise
      the fate of the batch it joined. */
  function WriteReply(s: State, begin: Outcome, fn: Outcome, later: seq<Event>): Option<Option<Error>> {
    if s.pending == [] && begin.Fail? then Some(Some(begin.error))
    else if fn.Fail? then Some(Some(fn.error))
    else Fate(later)
  }

  ghost predicate NotRequestedBy(es: seq<Event>, id: nat) {
    forall i :: 0 <= i < |es| && es[i].Request? ==> es[i].id != id
  }

  /** A pending, not yet answered request receives exactly its Fate. */
  lemma {:induction false} PendingFate(s: State, id: nat, later: seq<Event>)
    requires Inv(s) && id in s.pending && id !in Ids(s.log)
    requires NotRequestedBy(later, id)
    ensures ReplyFor(Run(s, later).log, id) == Fate(later)
    decreases |later|
  {
    if later != [] {
      var t := Next(s, later[0]);
      RunExtendsLog(t, later[1..]);
      var u := Run(t, later[1..]);
      assert u.log == t.log + u.log[|t.log|..];
      match later[0]
      case Tick(c) =>
        var b := Broadcast(s.pending, c.AsError());
        ReplyForBroadcast(s.pending, c.AsError(), id);
        ReplyForAppend(s.log, b, id);
        IdsAppend(s.log, b);
        BroadcastIds(s.pending, c.AsError());
        ReplyForAppend(t.log, u.log[|t.log|..], id);
      case Request(id2, begin, fn) =>
        if fn.Fail? {
          var b := Broadcast(s.pending, Some(TransactionAborted));
          var mine := [Reply(id2, Some(fn.error))] + b;
          ReplyForBroadcast(s.pending, Some(TransactionAborted), id);
          ReplyForAppend([Reply(id2, Some(fn.error))], b, id);
          ReplyForAppend(s.log, mine, id);
          IdsAppend(s.log, mine);
          IdsAppend([Reply(id2, Some(fn.error))], b);
          BroadcastIds(s.pending, Some(TransactionAborted));
          assert t.log == s.log + mine;
          ReplyForAppend(t.log, u.log[|t.log|..], id);
        } else {
          NextInv(s, later[0]);
          assert NotRequestedBy(later[1..], id) by {
            forall i | 0 <= i < |later[1..]| && later[1..][i].Request? ensures later[1..][i].id != id {
              assert later[1..][i] == later[i + 1];
            }
          }
          PendingFate(t, id, later[1..]);
        }
    }
  }

  /** Write submits one request and receives exactly its own reply
      (db.go:155-164): the one WriteReply describes, or none yet. */
  lemma {:induction false} WriteReceivesItsReply(s: State, id: nat, begin: Outcome, fn: Outcome, later: seq<Event>)
    requires Inv(s) && id !in s.arrived
    requires NotRequestedBy(later, id)
    ensures ReplyFor(Run(s, [Request(id, begin, fn)] + later).log, id) == WriteReply(s, begin, fn, later)
  {
    var e := Request(id, begin, fn);
    var t := Next(s, e);
    assert ([e] + later)[1..] == later;
    assert Run(s, [e] + later) == Run(t, later);
    assert id !in Ids(s.log) && id !in s.pending by {
      assert multiset(s.arrived)[id] == 0;
    }
    if s.pending == [] && begin.Fail? {
      AnsweredAtOnce(s.log, [Reply(id, Some(begin.error))], t, later, id);
    } else if fn.Fail? {
      AnsweredAtOnce(s.log, [Reply(id, Some(fn.error))] + Broadcast(s.pending, Some(TransactionAborted)), t, later, id);
    } else {
      NextInv(s, e);
      PendingFate(t, id, later);
    }
  }

  /** A reply that heads what one event appends to a log with no earlier
      reply for the caller is the one the caller receives, whatever follows. */
  lemma AnsweredAtOnce(before: seq<Reply>, mine: seq<Reply>, t: State, later: seq<Event>, id: nat)
    requires id !in Ids(before) && mine != [] && mine[0].id == id && t.log == before + mine
    ensures ReplyFor(Run(t, later).log, id) == Some(mine[0].err)
  {
    var x := mine[0].err;
    assert ReplyFor(t.log, id) == Some(x) by {
      assert ReplyFor(mine, id) == Some(x);
      ReplyForAppend(before, mine, id);
    }
    var u := Run(t, later).log;
    assert u == t.log + u[|t.log|..] by {
      RunExtendsLog(t, later);
    }
    ReplyForAppend(t.log, u[|t.log|..], id);
  }

  // -----------------------------------------------------------------------
  // Single events, stated for the caller.

  /** A request arriving with no batch pending begins a transaction; if
      Begin fails only that request is answered, with the Begin error, and
      no batch is left pending (db.go:97-103). */
  lemma BeginFailureAnswersOnlyTheCaller(s: State, id: nat, e: Error, fn: Outcome)
    requires Inv(s) && s.pending == []
    ensures var t := Next(s, Request(id, Fail(e), fn));
      && t.pending == [] && t.tx == NoTx
      && t.log == s.log + [Reply(id, Some(e))]
      && t.begins == s.begins && t.commits == s.commits && t.rollbacks == s.rollbacks
  {
  }

  /** A request whose function fails rolls back once, answers itself with its
      own error and every earlier pending request, in arrival order, with
      "Transaction aborted"; nothing is left pending (db.go:106-117). */
  lemma {:induction false} FailureAbortsTheBatch(s: State, id: nat, begin: Outcome, e: Error)
    requires Inv(s) && (s.pending != [] || begin.Pass?)
    requires id !in s.pending
    ensures var t := Next(s, Request(id, begin, Fail(e)));
      && t.pending == [] && t.tx == RolledBack
      && t.rollbacks == s.rollbacks + 1 && t.commits == s.commits
      && Ids(t.log) == Ids(s.log) + [id] + s.pending
      && ReplyFor(t.log[|s.log|..], id) == Some(Some(e))
      && forall j :: j in s.pending ==> ReplyFor(t.log[|s.log|..], j) == Some(Some(TransactionAborted))
  {
    var t := Next(s, Request(id, begin, Fail(e)));
    var b := Broadcast(s.pending, Some(TransactionAborted));
    var mine := [Reply(id, Some(e))] + b;
    assert t.log[|s.log|..] == mine;
    IdsAppend(s.log, mine);
    IdsAppend([Reply(id, Some(e))], b);
    BroadcastIds(s.pending, Some(TransactionAborted));
    forall j | j in s.pending ensures ReplyFor(mine, j) == Some(Some(TransactionAborted)) {
      ReplyForBroadcast(s.pending, Some(TransactionAborted), j);
      ReplyForAppend([Reply(id, Some(e))], b, j);
    }
  }

  /** A request whose function succeeds joins the batch and gets no reply
      yet (db.go:105, 119). */
  lemma SuccessJoinsTheBatch(s: State, id: nat, begin: Outcome)
    requires Inv(s) && (s.pending != [] || begin.Pass?)
    ensures var t := Next(s, Request(id, begin, Pass));
      && t.pending == s.pending + [id] && t.tx == Live && t.log == s.log
      && t.commits == s.commits && t.rollbacks == s.rollbacks
  {
  }

  /** A tick with a batch pending commits once and sends the one commit
      result to every pending request in arrival order; a tick with nothing
      pending changes nothing (db.go:120-129). */
  lemma {:induction false} TickCommitsTheBatch(s: State, c: Outcome)
    requires Inv(s)
    ensures var t := Next(s, Tick(c));
      && (s.pending == [] ==> t == s)
      && (s.pending != [] ==>
            && t.pending == [] && t.tx == NoTx
            && t.commits == s.commits + 1 && t.rollbacks == s.rollbacks
            && Ids(t.log[|s.log|..]) == s.pending
            && forall j :: j in s.pending ==> ReplyFor(t.log[|s.log|..], j) == Some(c.AsError()))
  {
    var t := Next(s, Tick(c));
    if s.pending != [] {
      var b := Broadcast(s.pending, c.AsError());
      assert t.log[|s.log|..] == b;
      BroadcastIds(s.pending, c.AsError());
      forall j | j in s.pending ensures ReplyFor(b, j) == Some(c.AsError()) {
        ReplyForBroadcast(s.pending, c.AsError(), j);
      }
    }
  }

  // -----------------------------------------------------------------------
  // The batch processor as the object that owns these variables.

  class BatchProcessor {
    var requests: seq<nat>
    var currentTx: TxState
    var replies: seq<Reply>
    var begins: nat
    var commits: nat
    var rollbacks: nat
    ghost var arrived: seq<nat>

    ghost function Snapshot(): State
      reads this
    {
      State(requests, currentTx, replies, begins, commits, rollbacks, arrived)
    }

    ghost predicate Valid()
      reads this
    {
      Inv(Snapshot())
    }

    constructor ()
      ensures Valid() && Snapshot() == Initial
    {
      requests, currentTx, replies := [], NoTx, [];
      begins, commits, rollbacks := 0, 0, 0;
      arrived := [];
    }

    /** Sends `err` to every pending request, in order (db.go:113-115,
        125-127). */
    method SendToPending(err: Option<Error>)
      modifies this`replies
      ensures replies == old(replies) + Broadcast(requests, err)
    {
      var i := 0;
      while i < |requests|
        invariant 0 <= i <= |requests|
        invariant replies == old(replies) + Broadcast(requests[..i], err)
      {
        assert requests[..i + 1] == requests[..i] + [requests[i]];
        BroadcastAppend(requests[..i], requests[i], err);
        replies := replies + [Reply(requests[i], err)];
        i := i + 1;
      }
      assert requests[..i] == requests;
    }

    /** Begin failed: answer only this caller (db.go:99-102). */
    method RefuseRequest(id: nat, e: Error)
      requires requests == []
      modifies this
      ensures Snapshot() == BeginFailed(old(Snapshot()), id, e)
    {
      currentTx := NoTx;
      replies := replies + [Reply(id, Some(e))];
      arrived := arrived + [id];
    }

    /** The function failed: roll back and answer everyone (db.go:106-117). */
    method AbortBatch(id: nat, e: Error)
      modifies this
      ensures Snapshot() == Aborted(old(Snapshot()), id, e)
    {
      ghost var s := Snapshot();
      if |requests| == 0 {
        begins := begins + 1;
      }
      arrived := arrived + [id];
      rollbacks := rollbacks + 1;
      currentTx := RolledBack;
      replies := replies + [Reply(id, Some(e))];
      SendToPending(Some(TransactionAborted));
      requests := [];
      assert replies == s.log + AbortReplies(s, id, e);
    }

    /** The function succeeded: the request joins the batch (db.go:97-104,
        119). */
    method JoinBatch(id: nat)
      requires requests != [] ==> currentTx == Live
      modifies this
      ensures Snapshot() == Joined(old(Snapshot()), id)
    {
      if |requests| == 0 {
        currentTx := Live;
        begins := begins + 1;
      }
      arrived := arrived + [id];
      requests := requests + [id];
    }

    /** The ticker fired with a batch pending (db.go:121-128). */
    method CommitBatch(c: Outcome)
      modifies this
      ensures Snapshot() == Committed(old(Snapshot()), c)
    {
      commits := commits + 1;
      currentTx := NoTx;
      SendToPending(c.AsError());
      requests := [];
    }

    /** One turn of the event loop. */
    method Step(e: Event)
      requires Valid()
      modifies this
      ensures Valid()
      ensures Snapshot() == Next(old(Snapshot()), e)
    {
      NextInv(Snapshot(), e);
      match e
      case Request(id, begin, fn) =>
        if |requests| == 0 && begin.Fail? {
          RefuseRequest(id, begin.error);
        } else if fn.Fail? {
          AbortBatch(id, fn.error);
        } else {
          JoinBatch(id);
        }
      case Tick(commit) =>
        if |requests| > 0 {
          CommitBatch(commit);
        }
    }

    /** Write: submit one request, then let the processor handle the events
        that follow until this caller's reply arrives. None means the reply
        has not arrived within `later`. */
    method Write(id: nat, begin: Outcome, fn: Outcome, later: seq<Event>) returns (reply: Option<Option<Error>>)
      requires Valid() && id !in arrived
      requires NotRequestedBy(later, id)
      modifies this
      ensures Valid()
      ensures reply == WriteReply(old(Snapshot()), begin, fn, later)
    {
      ghost var s0 := Snapshot();
      Step(Request(id, begin, fn));
      ghost var s1 := Snapshot();
      assert ReplyFor(Run(s1, later).log, id) == WriteReply(s0, begin, fn, later) by {
        WriteReceivesItsReply(s0, id, begin, fn, later);
        assert ([Request(id, begin, fn)] + later)[1..] == later;
      }
      reply := ReplyFor(replies, id);
      var i := 0;
      while reply.None? && i < |later|
        invariant 0 <= i <= |later|
        invariant Valid()
        invariant Snapshot() == Run(s1, later[..i])
        invariant reply == ReplyFor(replies, id)
        decreases |later| - i
      {
        Step(later[i]);
        RunStep(s1, later, i);
        i := i + 1;
        reply := ReplyFor(replies, id);
      }
      if reply.Some? {
        FirstReplyStays(s1, later, i, id);
      } else {
        assert later[..i] == later;
      }
    }
  }

  lemma {:induction false} RunConcat(s: State, a: seq<Event>, b: seq<Event>)
    ensures Run(s, a + b) == Run(Run(s, a), b)
    decreases |a|
  {
    if a != [] {
      assert (a + b)[1..] == a[1..] + b;
      RunConcat(Next(s, a[0]), a[1..], b);
    } else {
      assert a + b == b;
    }
  }

  /** A reply already sent is the one the caller receives, whatever follows. */
  lemma FirstReplyStays(s: State, es: seq<Event>, i: nat, id: nat)
    requires i <= |es| && ReplyFor(Run(s, es[..i]).log, id).Some?
    ensures ReplyFor(Run(s, es).log, id) == ReplyFor(Run(s, es[..i]).log, id)
  {
    var t := Run(s, es[..i]);
    assert es == es[..i] + es[i..];
    RunConcat(s, es[..i], es[i..]);
    RunExtendsLog(t, es[i..]);
    var u := Run(t, es[i..]).log;
    assert u == t.log + u[|t.log|..];
    ReplyForAppend(t.log, u[|t.log|..], id);
  }

  lemma {:induction false} RunStep(s: State, es: seq<Event>, i: nat)
    requires i < |es|
    ensures Run(s, es[..i + 1]) == Next(Run(s, es[..i]), es[i])
    decreases i
  {
    if i > 0 {
      assert es[..i + 1][1..] == es[1..][..i];
      assert es[..i][1..] == es[1..][..i - 1];
      RunStep(Next(s, es[0]), es[1..], i - 1);
    }
  }

  // -----------------------------------------------------------------------
  // Pools and pragmas (NewDB, setupSqlitePragmas, newSQLiteConnectionURL).

  /** The write pool holds a single connection (db.go:59). */
  const WriteMaxOpenConns := 1

  /** The read pool holds max(4, CPU count) connections (db.go:69-73). */
  function ReadMaxOpenConns(numCPU: int): (n: int)
    ensures n >= 4 && n >= numCPU
    ensures n == 4 || n == numCPU
  {
    if numCPU > 4 then numCPU else 4
  }

  /** The sqlitePragmas table of the default (pure-Go driver) build. */
  const SqlitePragmas: seq<(string, string)> := [
    ("_journal_mode", "WAL"),
    ("_busy_timeout", "5000"),
    ("_synchronous", "NORMAL"),
    ("_cache_size", "1000000000"),
    ("_foreign_keys", "true"),
    ("temp_store", "memory"),
    ("_txlock", "immediate"),
    ("cache", "shared")
  ]

  /** The statement for one pragma table entry, if any. */
  function PragmaStatement(entry: (string, string)): seq<string> {
    if HasPrefix(entry.0, "_") then ["PRAGMA " + (TrimPrefix(entry.0, "_") + " = " + entry.1)] else []
  }

  /** The statements setupSqlitePragmas executes for the given iteration
      order of the pragma table: one per key starting with "_", with the
      underscore stripped. */
  function PragmaStatements(entries: seq<(string, string)>): seq<string> {
    if entries == [] then []
    else PragmaStatement(entries[0]) + PragmaStatements(entries[1..])
  }

  /** Every statement executed comes from an underscore key, with the
      underscore stripped, and every underscore key gives its statement
      (db.go:15-21). */
  lemma {:induction false} PragmaStatementsFromUnderscoreKeys(entries: seq<(string, string)>)
    ensures forall st :: st in PragmaStatements(entries) ==>
      exists i :: (0 <= i < |entries| && HasPrefix(entries[i].0, "_") &&
                   st == "PRAGMA " + (entries[i].0[1..] + " = " + entries[i].1))
    ensures forall i :: 0 <= i < |entries| && HasPrefix(entries[i].0, "_") ==>
      "PRAGMA " + (entries[i].0[1..] + " = " + entries[i].1) in PragmaStatements(entries)
  {
    if entries != [] {
      PragmaStatementsFromUnderscoreKeys(entries[1..]);
      var all := PragmaStatements(entries);
      assert all == PragmaStatement(entries[0]) + PragmaStatements(entries[1..]);
      forall st | st in all
        ensures exists i :: (0 <= i < |entries| && HasPrefix(entries[i].0, "_") &&
                             st == "PRAGMA " + (entries[i].0[1..] + " = " + entries[i].1))
      {
        if st in PragmaStatements(entries[1..]) {
          var i :| 0 <= i < |entries[1..]| && HasPrefix(entries[1..][i].0, "_") &&
            st == "PRAGMA " + (entries[1..][i].0[1..] + " = " + entries[1..][i].1);
          assert entries[i + 1] == entries[1..][i];
        } else {
          assert HasPrefix(entries[0].0, "_");
        }
      }
      forall i | 0 <= i < |entries| && HasPrefix(entries[i].0, "_")
        ensures "PRAGMA " + (entries[i].0[1..] + " = " + entries[i].1) in all
      {
        if i > 0 {
          assert entries[1..][i - 1] == entries[i];
        }
      }
    }
  }

  /** setupSqlitePragmas: executes the underscore pragmas in turn and stops
      at the first failure, which it returns (db.go:14-26). `exec` is what
      the connection answers to each statement. */
  method SetupSqlitePragmas(entries: seq<(string, string)>, exec: string -> Outcome)
    returns (executed: seq<string>, err: Option<Error>)
    ensures |executed| <= |PragmaStatements(entries)|
    ensures executed == PragmaStatements(entries)[..|executed|]
    ensures forall i :: 0 <= i < |executed| - 1 ==> exec(executed[i]).Pass?
    ensures err.None? ==> (executed == PragmaStatements(entries) &&
                           forall i :: 0 <= i < |executed| ==> exec(executed[i]).Pass?)
    ensures err.Some? ==> executed != [] && exec(executed[|executed| - 1]) == Fail(err.value)
  {
    executed, err := [], None;
    var i := 0;
    while i < |entries|
      invariant 0 <= i <= |entries|
      invariant executed + PragmaStatements(entries[i..]) == PragmaStatements(entries)
      invariant forall j :: 0 <= j < |executed| ==> exec(executed[j]).Pass?
    {
      var key, value := entries[i].0, entries[i].1;
      var rest := PragmaStatements(entries[i + 1..]);
      assert PragmaStatements(entries[i..]) == PragmaStatement(entries[i]) + rest by {
        assert entries[i..][0] == entries[i] && entries[i..][1..] == entries[i + 1..];
      }
      if HasPrefix(key, "_") {
        var statement := "PRAGMA " + (TrimPrefix(key, "_") + " = " + value);
        var outcome := exec(statement);
        assert PragmaStatement(entries[i]) == [statement];
        Assoc(executed, [statement], rest);
        executed := executed + [statement];
        if outcome.Fail? {
          err := Some(outcome.error);
          PrefixOfConcat(executed, rest, PragmaStatements(entries));
          return;
        }
      } else {
        assert PragmaStatement(entries[i]) + rest == rest;
      }
      assert executed + rest == PragmaStatements(entries);
      i := i + 1;
    }
    assert entries[i..] == [];
  }

  /** The characters url.QueryEscape leaves as they are. */
  predicate Unreserved(c: char) {
    ('a' <= c <= 'z') || ('A' <= c <= 'Z') || ('0' <= c <= '9') || c == '-' || c == '_' || c == '.' || c == '~'
  }

  /** The UTF-8 encoding of a character. */
  function Utf8(c: char): (bytes: seq<int>)
    ensures 1 <= |bytes| <= 4
    ensures forall i :: 0 <= i < |bytes| ==> 0 <= bytes[i] < 0x100
    ensures |bytes| == 1 <==> c as int < 0x80
    ensures |bytes| == 1 ==> bytes[0] == c as int
  {
    var n := c as int;
    if n < 0x80 then [n]
    else if n < 0x800 then [0xC0 + n / 0x40, 0x80 + n % 0x40]
    else if n < 0x1_0000 then [0xE0 + n / 0x1000, 0x80 + (n / 0x40) % 0x40, 0x80 + n % 0x40]
    else [0xF0 + n / 0x4_0000, 0x80 + (n / 0x1000) % 0x40, 0x80 + (n / 0x40) % 0x40, 0x80 + n % 0x40]
  }

  const HexDigits := "0123456789ABCDEF"

  /** "%XX" for each byte, with upper-case hexadecimal digits. */
  function PercentEncode(bytes: seq<int>): (r: string)
    requires forall i :: 0 <= i < |bytes| ==> 0 <= bytes[i] < 0x100
    ensures |r| == 3 * |bytes|
    ensures forall c :: c in r ==> c == '%' || Unreserved(c)
  {
    if bytes == [] then ""
    else
      HexUnreserved(bytes[0] / 16);
      HexUnreserved(bytes[0] % 16);
      "%" + [HexDigits[bytes[0] / 16], HexDigits[bytes[0] % 16]] + PercentEncode(bytes[1..])
  }

  lemma HexUnreserved(d: int)
    requires 0 <= d < 16
    ensures Unreserved(HexDigits[d])
  {
  }

  /** url.QueryEscape of one character: an unreserved character stays, a
      space becomes "+", and any other character is percent-encoded byte by
      byte. */
  function EscapeChar(c: char): (r: string)
    ensures r != []
    ensures forall x :: x in r ==> QueryChar(x)
  {
    if Unreserved(c) then [c]
    else if c == ' ' then "+"
    else PercentEncode(Utf8(c))
  }

  /** url.QueryEscape. */
  function QueryEscape(s: string): (r: string)
    ensures s == [] <==> r == []
  {
    if s == [] then "" else EscapeChar(s[0]) + QueryEscape(s[1..])
  }

  /** Text that holds only unreserved characters is its own escape. */
  lemma {:induction false} QueryEscapeKeepsUnreserved(s: string)
    requires forall i :: 0 <= i < |s| ==> Unreserved(s[i])
    ensures QueryEscape(s) == s
  {
    if s != [] {
      QueryEscapeKeepsUnreserved(s[1..]);
    }
  }

  /** The characters an escaped text is made of. */
  predicate QueryChar(c: char) {
    Unreserved(c) || c == '+' || c == '%'
  }

  /** An escaped text holds only unreserved characters, "+" and "%". */
  lemma {:induction false} QueryEscapeAlphabet(s: string)
    ensures forall i :: 0 <= i < |QueryEscape(s)| ==> QueryChar(QueryEscape(s)[i])
  {
    if s != [] {
      QueryEscapeAlphabet(s[1..]);
      var e, rest := EscapeChar(s[0]), QueryEscape(s[1..]);
      var r := QueryEscape(s);
      assert r == e + rest;
      forall i | 0 <= i < |r|
        ensures QueryChar(r[i])
      {
        if i < |e| {
          assert r[i] == e[i] && e[i] in e;
        } else {
          assert r[i] == rest[i - |e|];
        }
      }
    }
  }

  /** So an escaped key or value never holds the "=" and "&" that
      separate the query's pairs. */
  lemma NoSeparatorsInEscape(s: string)
    ensures '=' !in QueryEscape(s) && '&' !in QueryEscape(s)
  {
    QueryEscapeAlphabet(s);
  }

  function PairKey(p: (string, string)): string { p.0 }

  /** url.Values.Encode: escaped "k=v" pairs joined by "&", ordered by key,
      values of one key in insertion order. */
  function EncodeQuery(entries: seq<(string, string)>): string {
    Join(PairTexts(SortBy(entries, PairKey, Less)), '&')
  }

  /** One query parameter, "k=v", with both sides escaped. */
  function PairText(p: (string, string)): string {
    QueryEscape(p.0) + "=" + QueryEscape(p.1)
  }

  function PairTexts(ps: seq<(string, string)>): (r: seq<string>)
    ensures |r| == |ps|
    ensures forall i :: 0 <= i < |ps| ==> r[i] == PairText(ps[i])
  {
    if ps == [] then [] else [PairText(ps[0])] + PairTexts(ps[1..])
  }

  /** The query string splits back into its parameters at "&", and each
      parameter into its escaped key and value at "=": no escaped text can
      be mistaken for a separator. */
  lemma QueryParametersRecovered(entries: seq<(string, string)>)
    requires entries != []
    ensures var sorted := SortBy(entries, PairKey, Less);
      && Split(EncodeQuery(entries), '&') == PairTexts(sorted)
      && forall i :: 0 <= i < |sorted| ==>
           Split(PairText(sorted[i]), '=') == [QueryEscape(sorted[i].0), QueryEscape(sorted[i].1)]
  {
    var sorted := SortBy(entries, PairKey, Less);
    var texts := PairTexts(sorted);
    StringOrder();
    SortByPermutes(entries, PairKey, Less);
    assert |sorted| == |entries| by {
      assert |multiset(sorted)| == |multiset(entries)|;
    }
    forall i | 0 <= i < |texts|
      ensures '&' !in texts[i]
      ensures Split(texts[i], '=') == [QueryEscape(sorted[i].0), QueryEscape(sorted[i].1)]
    {
      PairSplits(sorted[i]);
    }
    SplitJoin(texts, '&');
  }

  /** A parameter has no "&" and splits at its one "=". */
  lemma PairSplits(p: (string, string))
    ensures '&' !in PairText(p)
    ensures Split(PairText(p), '=') == [QueryEscape(p.0), QueryEscape(p.1)]
  {
    var k, v := QueryEscape(p.0), QueryEscape(p.1);
    NoSeparatorsInEscape(p.0);
    NoSeparatorsInEscape(p.1);
    assert PairText(p) == k + "=" + v;
    assert forall c :: c in k + "=" + v ==> c in k || c == '=' || c in v;
    assert Join([k, v], '=') == k + "=" + v;
    SplitJoin([k, v], '=');
  }

  /** newSQLiteConnectionURL (db.go:28-35): "file:<path>?" followed by the
      query string of every pragma, ordered by key. */
  function ConnectionURL(path: string, entries: seq<(string, string)>): (url: string)
    ensures HasPrefix(url, "file:" + path + "?")
    ensures url[|"file:" + path + "?"|..] == EncodeQuery(entries)
  {
    var prefix := "file:" + path + "?";
    var url := prefix + EncodeQuery(entries);
    assert url[..|prefix|] == prefix && url[|prefix|..] == EncodeQuery(entries);
    url
  }

  lemma StringOrder()
    ensures StrictTotalOrder(Less)
  {
    forall a ensures !Less(a, a) { LessIrreflexive(a); }
    forall a, b, c | Less(a, b) && Less(b, c) ensures Less(a, c) { LessTransitive(a, b, c); }
    forall a, b ensures a == b || Less(a, b) || Less(b, a) { LessTotal(a, b); }
  }

  /** The query string lists exactly the pragma pairs, ordered by key, and
      pairs with the same key in their table order (db.go:29-34). */
  lemma EncodeQueryOrder(entries: seq<(string, string)>)
    ensures var sorted := SortBy(entries, PairKey, Less);
      && multiset(sorted) == multiset(entries)
      && SortedBy(sorted, PairKey, Less)
      && forall k :: WithKey(sorted, PairKey, k) == WithKey(entries, PairKey, k)
  {
    StringOrder();
    SortByPermutes(entries, PairKey, Less);
    SortBySorted(entries, PairKey, Less);
    forall k ensures WithKey(SortBy(entries, PairKey, Less), PairKey, k) == WithKey(entries, PairKey, k) {
      SortByStable(entries, PairKey, Less, k);
    }
  }

  /** The write connection opens the store read-write-create, the read pool
      read-only (db.go:55, 65). */
  function WriteURL(path: string): (url: string)
    ensures HasPrefix(url, ConnectionURL(path, SqlitePragmas)) && HasSuffix(url, "&mode=rwc")
    ensures |url| == |ConnectionURL(path, SqlitePragmas)| + |"&mode=rwc"|
  {
    var url := ConnectionURL(path, SqlitePragmas) + "&mode=rwc";
    assert url[|url| - |"&mode=rwc"|..] == "&mode=rwc";
    url
  }

  function ReadURL(path: string): (url: string)
    ensures HasPrefix(url, ConnectionURL(path, SqlitePragmas)) && HasSuffix(url, "&mode=ro")
    ensures |url| == |ConnectionURL(path, SqlitePragmas)| + |"&mode=ro"|
  {
    var url := ConnectionURL(path, SqlitePragmas) + "&mode=ro";
    assert url[|url| - |"&mode=ro"|..] == "&mode=ro";
    url
  }
}
