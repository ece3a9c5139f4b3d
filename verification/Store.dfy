/**
  One open database of src/store.rs: a writer task and a reader task, each behind
  its own channel, shared by any number of callers that block for their replies.

  The database is an abstract state with atomic statements. A write is named by
  its position in the writer channel's order.
  */
module Store {
  import opened Wrappers

  /** What SQLite does with a statement or a query, as a function of the stored state. */
  datatype Sqlite<!D, !S, !R, !Q, !A> = Sqlite(exec: (D, S) -> (D, R), query: (D, Q) -> A)

  datatype WriteRequest<S> = Exec(id: nat, stmt: S) | Close(id: nat)

  /** What the caller of `send_exec_writer` or `send_close_writer` gets back once its request was accepted. */
  datatype WriteOutcome<R> = Reply(result: R) | ReplyLost

  datatype ReadRequest<Q> = Query(id: nat, query: Q)

  /** A query's answer, with how many writes had been executed when it was evaluated. */
  datatype Answer<A> = Answer(value: A, after: nat)

  datatype Store<D, S, R, Q, A> = Store(
    db: D,
    writer: seq<WriteRequest<S>>,            // the writer channel
    writing: bool,                           // the writer's receiver exists
    stopping: bool,                          // the writer has left its loop
    held: Option<R>,                         // a result the writer has yet to send to its caller
    reader: seq<ReadRequest<Q>>,             // the reader channel
    sent: seq<S>,                            // every statement the writer channel accepted
    executed: seq<nat>,                      // writes executed, in order
    outcomes: map<nat, WriteOutcome<R>>,     // what callers of writes have been told
    closes: nat,                             // closes the writer channel accepted
    closed: map<nat, WriteOutcome<()>>,      // what callers of closes have been told
    asked: seq<Q>,                           // every query the reader channel accepted
    floors: seq<int>,                        // per query: writes replied to before it was sent
    answers: seq<Answer<A>>)                 // answers given, in order

  datatype Event<S, Q> =
    | SendExec(stmt: S)      // refused at once if the writer is gone
    | SendClose
    | WriterTake             // take the next request and carry it out
    | WriterReply            // send the result to the caller
    | WriterStop             // out of the loop, or every sender dropped: the receiver goes away
    | SendQuery(query: Q)
    | ReaderStep

  function Initial<D, S, R, Q, A>(db: D): Store<D, S, R, Q, A> {
    Store(db, [], true, false, None, [], [], [], map[], 0, map[], [], [], [])
  }

  /** How many executed writes have been reported to their callers. */
  function Told<D, S, R, Q, A>(s: Store<D, S, R, Q, A>): int {
    |s.executed| - (if s.held.Some? then 1 else 0)
  }

  predicate CanHappen<D, S, R, Q, A>(s: Store<D, S, R, Q, A>, e: Event<S, Q>) {
    match e
    case WriterTake => s.writing && !s.stopping && s.held.None? && s.writer != []
    case WriterReply => s.writing && s.held.Some? && s.executed != []
    case WriterStop => s.writing && s.held.None? && (s.stopping || s.writer == [])
    case ReaderStep => s.reader != []
    case _ => true
  }

  /** The ids of the writes, and of the closes, still in the channel. */
  function Queued<S>(w: seq<WriteRequest<S>>): set<nat> {
    set i | 0 <= i < |w| && w[i].Exec? :: w[i].id
  }

  function QueuedCloses<S>(w: seq<WriteRequest<S>>): set<nat> {
    set i | 0 <= i < |w| && w[i].Close? :: w[i].id
  }

  /** Dropping the receiver drops every queued request with its reply channel. */
  function LoseAll<R>(outcomes: map<nat, WriteOutcome<R>>, queued: set<nat>): map<nat, WriteOutcome<R>> {
    outcomes + map id | id in queued :: ReplyLost
  }

  function Happen<D, S, R, Q, A>(sql: Sqlite<D, S, R, Q, A>, s: Store<D, S, R, Q, A>, e: Event<S, Q>)
    : Store<D, S, R, Q, A>
    requires CanHappen(s, e)
  {
    match e
    case SendExec(stmt) =>
      if s.writing then s.(writer := s.writer + [Exec(|s.sent|, stmt)], sent := s.sent + [stmt]) else s
    case SendClose =>
      if s.writing then s.(writer := s.writer + [Close(s.closes)], closes := s.closes + 1) else s
    case WriterTake =>
      var rest := s.writer[1..];
      (match s.writer[0]
       case Exec(id, stmt) =>
         var (db, result) := sql.exec(s.db, stmt);
         s.(db := db, writer := rest, held := Some(result), executed := s.executed + [id])
       case Close(id) => s.(writer := rest, stopping := true, closed := s.closed[id := Reply(())]))
    case WriterReply =>
      s.(held := None, outcomes := s.outcomes[s.executed[|s.executed| - 1] := Reply(s.held.value)])
    case WriterStop =>
      s.(writing := false, writer := [],
         outcomes := LoseAll(s.outcomes, Queued(s.writer)), closed := LoseAll(s.closed, QueuedCloses(s.writer)))
    case SendQuery(q) =>
      s.(reader := s.reader + [Query(|s.asked|, q)], asked := s.asked + [q], floors := s.floors + [Told(s)])
    case ReaderStep =>
      s.(reader := s.reader[1..], answers := s.answers + [Answer(sql.query(s.db, s.reader[0].query), |s.executed|)])
  }

  ghost predicate IsRun<D, S, R, Q, A>(
    sql: Sqlite<D, S, R, Q, A>, db: D, states: seq<Store<D, S, R, Q, A>>, events: seq<Event<S, Q>>)
  {
    && |states| == |events| + 1
    && states[0] == Initial(db)
    && forall k {:trigger events[k]} :: 0 <= k < |events| ==>
         CanHappen(states[k], events[k]) && states[k + 1] == Happen(sql, states[k], events[k])
  }

  // ---------------------------------------------------------------------
  // The reference: statements one by one
  // ---------------------------------------------------------------------

  function Serial<D, S, R, Q, A>(sql: Sqlite<D, S, R, Q, A>, db: D, stmts: seq<S>): D {
    if stmts == [] then db else sql.exec(Serial(sql, db, stmts[..|stmts| - 1]), stmts[|stmts| - 1]).0
  }

  function SerialResult<D, S, R, Q, A>(sql: Sqlite<D, S, R, Q, A>, db: D, stmts: seq<S>, id: nat): R
    requires id < |stmts|
  {
    sql.exec(Serial(sql, db, stmts[..id]), stmts[id]).1
  }

  /** The channel holds the writes not yet executed, in order, with closes anywhere between them. */
  ghost predicate ChannelOk<S>(w: seq<WriteRequest<S>>, sent: seq<S>, next: nat)
    decreases |w|
  {
    if w == [] then next == |sent|
    else if w[0].Close? then ChannelOk(w[1..], sent, next)
    else next < |sent| && w[0] == Exec(next, sent[next]) && ChannelOk(w[1..], sent, next + 1)
  }

  /** Writes are executed in channel order, and told their serial result; the rest are lost or pending. */
  ghost predicate WritesOk<D, S, R, Q, A>(sql: Sqlite<D, S, R, Q, A>, db: D, s: Store<D, S, R, Q, A>) {
    var done := |s.executed|;
    && 0 <= Told(s) <= done <= |s.sent|
    && (forall i :: 0 <= i < done ==> s.executed[i] == i)
    && s.db == Serial(sql, db, s.sent[..done])
    && (s.held.Some? ==> s.writing && s.held == Some(SerialResult(sql, db, s.sent, done - 1)))
    && (forall id :: id in s.outcomes ==> id < |s.sent|)
    && (forall id :: 0 <= id < Told(s) ==>
          id in s.outcomes && s.outcomes[id] == Reply(SerialResult(sql, db, s.sent, id)))
    && (forall id :: Told(s) <= id < |s.sent| ==>
          if s.writing then id !in s.outcomes else id in s.outcomes && s.outcomes[id] == ReplyLost)
    && (if s.writing then ChannelOk(s.writer, s.sent, done) else s.writer == [])
  }

  /** An answer is what its query gives after some serial prefix, no older than the replies before the query. */
  ghost predicate AnswerOk<D, S, R, Q, A>(
    sql: Sqlite<D, S, R, Q, A>, db: D, executed: seq<S>, query: Q, floor: int, answer: Answer<A>)
  {
    && floor <= answer.after <= |executed|
    && answer.value == sql.query(Serial(sql, db, executed[..answer.after]), query)
  }

  ghost predicate ReadsOk<D, S, R, Q, A>(sql: Sqlite<D, S, R, Q, A>, db: D, s: Store<D, S, R, Q, A>) {
    && |s.executed| <= |s.sent|
    && |s.floors| == |s.asked| == |s.answers| + |s.reader|
    && (forall i :: 0 <= i < |s.reader| ==> s.reader[i] == Query(|s.answers| + i, s.asked[|s.answers| + i]))
    && (forall i :: 0 <= i < |s.floors| ==> s.floors[i] <= Told(s))
    && (forall i :: 0 <= i < |s.answers| ==>
          AnswerOk(sql, db, s.sent[..|s.executed|], s.asked[i], s.floors[i], s.answers[i]))
    && (forall i, j :: 0 <= i < j < |s.answers| ==> s.answers[i].after <= s.answers[j].after)
  }

  // ---------------------------------------------------------------------
  // Every event keeps both
  // ---------------------------------------------------------------------

  lemma {:induction false} ChannelAppend<S>(w: seq<WriteRequest<S>>, sent: seq<S>, next: nat, stmt: S)
    requires ChannelOk(w, sent, next)
    ensures ChannelOk(w + [Exec(|sent|, stmt)], sent + [stmt], next)
    decreases |w|
  {
    if w != [] {
      assert (w + [Exec(|sent|, stmt)])[1..] == w[1..] + [Exec(|sent|, stmt)];
      ChannelAppend(w[1..], sent, if w[0].Close? then next else next + 1, stmt);
    }
  }

  /** The writes in the channel are exactly those not yet executed. */
  lemma {:induction false} ChannelHolds<S>(w: seq<WriteRequest<S>>, sent: seq<S>, next: nat)
    requires ChannelOk(w, sent, next)
    ensures forall id :: id in Queued(w) <==> next <= id < |sent|
    decreases |w|
  {
    if w != [] {
      var next' := if w[0].Close? then next else next + 1;
      ChannelHolds(w[1..], sent, next');
      forall id: nat
        ensures id in Queued(w) <==> (w[0].Exec? && w[0].id == id) || id in Queued(w[1..])
      {
        if id in Queued(w[1..]) {
          var i :| 0 <= i < |w[1..]| && w[1..][i].Exec? && w[1..][i].id == id;
          assert w[i + 1].Exec? && w[i + 1].id == id;
        }
        if id in Queued(w) {
          var i :| 0 <= i < |w| && w[i].Exec? && w[i].id == id;
          if i > 0 {
            assert w[1..][i - 1].Exec? && w[1..][i - 1].id == id;
          }
        }
      }
    }
  }

  lemma SendKeepsWrites<D, S, R, Q, A>(sql: Sqlite<D, S, R, Q, A>, db: D, s: Store<D, S, R, Q, A>, e: Event<S, Q>)
    requires WritesOk(sql, db, s) && (e.SendExec? || e.SendClose?)
    ensures WritesOk(sql, db, Happen(sql, s, e))
  {
    if s.writing {
      var done, s' := |s.executed|, Happen(sql, s, e);
      if e.SendExec? {
        ChannelAppend(s.writer, s.sent, done, e.stmt);
        forall i | 0 <= i <= |s.sent|
          ensures s'.sent[..i] == s.sent[..i]
        {
        }
      } else {
        AppendClose(s.writer, s.sent, done, s.closes);
      }
    }
  }

  lemma {:induction false} AppendClose<S>(w: seq<WriteRequest<S>>, sent: seq<S>, next: nat, id: nat)
    requires ChannelOk(w, sent, next)
    ensures ChannelOk(w + [Close(id)], sent, next)
    decreases |w|
  {
    if w != [] {
      assert (w + [Close(id)])[1..] == w[1..] + [Close(id)];
      AppendClose(w[1..], sent, if w[0].Close? then next else next + 1, id);
    }
  }

  lemma ExecKeepsWrites<D, S, R, Q, A>(sql: Sqlite<D, S, R, Q, A>, db: D, s: Store<D, S, R, Q, A>)
    requires WritesOk(sql, db, s) && CanHappen(s, WriterTake) && s.writer[0].Exec?
    ensures WritesOk(sql, db, Happen(sql, s, WriterTake))
  {
    var done := |s.executed|;
    assert s.sent[..done + 1][..done] == s.sent[..done];
  }

  lemma StopKeepsWrites<D, S, R, Q, A>(
    sql: Sqlite<D, S, R, Q, A>, db: D, s: Store<D, S, R, Q, A>, e: Event<S, Q>)
    requires WritesOk(sql, db, s) && CanHappen(s, e)
    requires e.WriterStop? || (e.WriterTake? && s.writer[0].Close?)
    ensures WritesOk(sql, db, Happen(sql, s, e))
  {
    if e.WriterStop? {
      ChannelHolds(s.writer, s.sent, |s.executed|);
    }
  }

  lemma ReplyKeepsWrites<D, S, R, Q, A>(sql: Sqlite<D, S, R, Q, A>, db: D, s: Store<D, S, R, Q, A>)
    requires WritesOk(sql, db, s) && CanHappen(s, WriterReply)
    ensures WritesOk(sql, db, Happen(sql, s, WriterReply))
  {
  }

  lemma EventKeepsWrites<D, S, R, Q, A>(sql: Sqlite<D, S, R, Q, A>, db: D, s: Store<D, S, R, Q, A>, e: Event<S, Q>)
    requires WritesOk(sql, db, s) && CanHappen(s, e)
    ensures WritesOk(sql, db, Happen(sql, s, e))
  {
    if e.SendExec? || e.SendClose? {
      SendKeepsWrites(sql, db, s, e);
    } else if e.WriterTake? && s.writer[0].Exec? {
      ExecKeepsWrites(sql, db, s);
    } else if e.WriterReply? {
      ReplyKeepsWrites(sql, db, s);
    } else if e.WriterTake? || e.WriterStop? {
      StopKeepsWrites(sql, db, s, e);
    }
  }

  // Closes

  /** The closes still in the channel are numbered from `next` on. */
  ghost predicate ClosesQueued<S>(w: seq<WriteRequest<S>>, next: nat, total: nat)
    decreases |w|
  {
    if w == [] then next == total
    else if w[0].Exec? then ClosesQueued(w[1..], next, total)
    else w[0].id == next < total && ClosesQueued(w[1..], next + 1, total)
  }

  /** The first close is acknowledged, once the writer takes it; every later one is lost when the writer stops. */
  ghost predicate ClosesOk<D, S, R, Q, A>(s: Store<D, S, R, Q, A>) {
    && (s.stopping ==> s.closes > 0)
    && (s.writing ==>
          && ClosesQueued(s.writer, if s.stopping then 1 else 0, s.closes)
          && s.closed == if s.stopping then map[0 := Reply(())] else map[])
    && (!s.writing ==>
          && (s.closes > 0 ==> s.stopping)
          && forall id: nat :: (id in s.closed <==> id < s.closes)
                            && (id in s.closed ==> s.closed[id] == if id == 0 then Reply(()) else ReplyLost))
  }

  lemma {:induction false} ClosesAppend<S>(w: seq<WriteRequest<S>>, next: nat, total: nat, r: WriteRequest<S>)
    requires ClosesQueued(w, next, total) && (r.Close? ==> r.id == total)
    ensures ClosesQueued(w + [r], next, if r.Close? then total + 1 else total)
    ensures next <= total
    decreases |w|
  {
    if w == [] {
      assert (w + [r])[1..] == [];
    } else {
      assert (w + [r])[1..] == w[1..] + [r];
      ClosesAppend(w[1..], if w[0].Exec? then next else next + 1, total, r);
    }
  }

  lemma {:induction false} ClosesHeld<S>(w: seq<WriteRequest<S>>, next: nat, total: nat)
    requires ClosesQueued(w, next, total)
    ensures forall id :: id in QueuedCloses(w) <==> next <= id < total
    decreases |w|
  {
    if w != [] {
      ClosesHeld(w[1..], if w[0].Exec? then next else next + 1, total);
      forall id: nat
        ensures id in QueuedCloses(w) <==> (w[0].Close? && w[0].id == id) || id in QueuedCloses(w[1..])
      {
        if id in QueuedCloses(w[1..]) {
          var i :| 0 <= i < |w[1..]| && w[1..][i].Close? && w[1..][i].id == id;
          assert w[i + 1].Close? && w[i + 1].id == id;
        }
        if id in QueuedCloses(w) {
          var i :| 0 <= i < |w| && w[i].Close? && w[i].id == id;
          assert i > 0 ==> w[1..][i - 1] == w[i];
        }
      }
    }
  }

  lemma EventKeepsCloses<D, S, R, Q, A>(sql: Sqlite<D, S, R, Q, A>, s: Store<D, S, R, Q, A>, e: Event<S, Q>)
    requires ClosesOk(s) && CanHappen(s, e)
    ensures ClosesOk(Happen(sql, s, e))
  {
    var next := if s.stopping then 1 else 0;
    if e.SendExec? && s.writing {
      ClosesAppend(s.writer, next, s.closes, Exec(|s.sent|, e.stmt));
    } else if e.SendClose? && s.writing {
      ClosesAppend(s.writer, next, s.closes, Close(s.closes));
    } else if e.WriterStop? {
      ClosesHeld(s.writer, next, s.closes);
      assert s.writer == [] ==> next == s.closes;
    }
  }

  /** The writer's side only adds statements and executes more of them. */
  lemma WriterOnlyAdds<D, S, R, Q, A>(sql: Sqlite<D, S, R, Q, A>, db: D, s: Store<D, S, R, Q, A>, e: Event<S, Q>)
    requires WritesOk(sql, db, s) && CanHappen(s, e)
    ensures var s' := Happen(sql, s, e);
            && s.sent <= s'.sent && |s.executed| <= |s'.executed| <= |s'.sent| && Told(s) <= Told(s')
            && (!e.SendQuery? && !e.ReaderStep? ==>
                  s' == s'.(reader := s.reader, asked := s.asked, floors := s.floors, answers := s.answers))
  {
    EventKeepsWrites(sql, db, s, e);
  }

  lemma AnswerStaysOk<D, S, R, Q, A>(
    sql: Sqlite<D, S, R, Q, A>, db: D, executed: seq<S>, executed': seq<S>, query: Q, floor: int, answer: Answer<A>)
    requires executed <= executed'
    requires AnswerOk(sql, db, executed, query, floor, answer)
    ensures AnswerOk(sql, db, executed', query, floor, answer)
  {
    assert executed'[..answer.after] == executed[..answer.after];
  }

  lemma WriterKeepsReads<D, S, R, Q, A>(
    sql: Sqlite<D, S, R, Q, A>, db: D, s: Store<D, S, R, Q, A>, s': Store<D, S, R, Q, A>)
    requires ReadsOk(sql, db, s)
    requires s.sent <= s'.sent && |s.executed| <= |s'.executed| <= |s'.sent| && Told(s) <= Told(s')
    requires s'.reader == s.reader && s'.asked == s.asked && s'.floors == s.floors && s'.answers == s.answers
    ensures ReadsOk(sql, db, s')
  {
    var executed, executed' := s.sent[..|s.executed|], s'.sent[..|s'.executed|];
    assert executed <= executed';
    forall i | 0 <= i < |s'.answers|
      ensures AnswerOk(sql, db, executed', s'.asked[i], s'.floors[i], s'.answers[i])
    {
      AnswerStaysOk(sql, db, executed, executed', s.asked[i], s.floors[i], s.answers[i]);
    }
  }

  lemma ReaderKeepsReads<D, S, R, Q, A>(sql: Sqlite<D, S, R, Q, A>, db: D, s: Store<D, S, R, Q, A>)
    requires WritesOk(sql, db, s) && ReadsOk(sql, db, s) && s.reader != []
    ensures ReadsOk(sql, db, Happen(sql, s, ReaderStep))
  {
    var executed, n := s.sent[..|s.executed|], |s.answers|;
    assert executed[..|s.executed|] == executed;
    assert s.reader[0] == Query(n, s.asked[n]);
    assert AnswerOk(sql, db, executed, s.asked[n], s.floors[n], Answer(sql.query(s.db, s.asked[n]), |s.executed|));
  }

  lemma EventKeepsReads<D, S, R, Q, A>(sql: Sqlite<D, S, R, Q, A>, db: D, s: Store<D, S, R, Q, A>, e: Event<S, Q>)
    requires WritesOk(sql, db, s) && ReadsOk(sql, db, s) && CanHappen(s, e)
    ensures ReadsOk(sql, db, Happen(sql, s, e))
  {
    if e.ReaderStep? {
      ReaderKeepsReads(sql, db, s);
    } else if !e.SendQuery? {
      WriterOnlyAdds(sql, db, s, e);
      WriterKeepsReads(sql, db, s, Happen(sql, s, e));
    }
  }

  /**
    Every run of any number of callers is serial. The database is the result of the
    executed statements one by one in channel order; a write is executed exactly
    when its caller is given the writer's reply - the one the serial run gives -
    and every other caller is told the reply is lost once the writer has stopped; the
    first close is acknowledged, and every later one lost;
    and each query is answered from a prefix of that serial run which holds every
    write that had been replied to when the query was sent.
    */
  lemma {:induction false} StoreIsSerial<D, S, R, Q, A>(
    sql: Sqlite<D, S, R, Q, A>, db: D, states: seq<Store<D, S, R, Q, A>>, events: seq<Event<S, Q>>, k: nat)
    requires IsRun(sql, db, states, events) && k < |states|
    ensures WritesOk(sql, db, states[k]) && ReadsOk(sql, db, states[k]) && ClosesOk(states[k])
  {
    if k == 0 {
      assert states[0].sent[..0] == [];
    } else {
      StoreIsSerial(sql, db, states, events, k - 1);
      EventKeepsWrites(sql, db, states[k - 1], events[k - 1]);
      EventKeepsReads(sql, db, states[k - 1], events[k - 1]);
      EventKeepsCloses(sql, states[k - 1], events[k - 1]);
    }
  }

  /** A caller is given a result exactly when its write was executed and the writer is past replying to it. */
  lemma RepliedExactlyWhenExecuted<D, S, R, Q, A>(
    sql: Sqlite<D, S, R, Q, A>, db: D, states: seq<Store<D, S, R, Q, A>>, events: seq<Event<S, Q>>, k: nat, id: nat)
    requires IsRun(sql, db, states, events) && k < |states|
    ensures var s := states[k];
            id in s.outcomes && s.outcomes[id].Reply? <==> id in s.executed && (s.held.Some? ==> id != |s.executed| - 1)
  {
    StoreIsSerial(sql, db, states, events, k);
    var s := states[k];
    if id < |s.executed| {
      assert s.executed[id] == id;
    }
  }

  /** Nothing queued behind a close ever runs: once the writer has taken it, the database stands still. */
  lemma {:induction false} NothingRunsAfterClose<D, S, R, Q, A>(
    sql: Sqlite<D, S, R, Q, A>, db: D, states: seq<Store<D, S, R, Q, A>>, events: seq<Event<S, Q>>, k: nat, n: nat)
    requires IsRun(sql, db, states, events) && k <= n < |states| && (states[k].stopping || !states[k].writing)
    ensures states[n].executed == states[k].executed && states[n].db == states[k].db
    ensures states[n].stopping || !states[n].writing
    decreases n
  {
    if k < n {
      NothingRunsAfterClose(sql, db, states, events, k, n - 1);
      assert CanHappen(states[n - 1], events[n - 1]) && states[n] == Happen(sql, states[n - 1], events[n - 1]);
    }
  }

  /** Queries and the replies counted when they were sent are never rewritten. */
  lemma {:induction false} FloorsStay<D, S, R, Q, A>(
    sql: Sqlite<D, S, R, Q, A>, db: D, states: seq<Store<D, S, R, Q, A>>, events: seq<Event<S, Q>>, k: nat, n: nat)
    requires IsRun(sql, db, states, events) && k <= n < |states|
    ensures states[k].floors <= states[n].floors && states[k].asked <= states[n].asked
    decreases n
  {
    if k < n {
      FloorsStay(sql, db, states, events, k, n - 1);
      assert CanHappen(states[n - 1], events[n - 1]) && states[n] == Happen(sql, states[n - 1], events[n - 1]);
    }
  }

  /**
    A caller reads its own writes, and everybody else's it could know of: if a write
    had been replied to when a query was sent, the query's answer - whenever it is
    given - is evaluated on a serial prefix that contains that write.
    */
  lemma QueriesSeeRepliedWrites<D, S, R, Q, A>(
    sql: Sqlite<D, S, R, Q, A>, db: D, states: seq<Store<D, S, R, Q, A>>, events: seq<Event<S, Q>>,
    k: nat, n: nat, id: nat)
    requires IsRun(sql, db, states, events) && k < n < |states| && events[k].SendQuery?
    requires id in states[k].outcomes && states[k].outcomes[id].Reply?
    requires |states[k].asked| < |states[n].answers|
    ensures var answer := states[n].answers[|states[k].asked|];
            && id < answer.after <= |states[n].sent|
            && answer.value == sql.query(Serial(sql, db, states[n].sent[..answer.after]), events[k].query)
  {
    var q := |states[k].asked|;
    StoreIsSerial(sql, db, states, events, k);
    StoreIsSerial(sql, db, states, events, n);
    assert states[k + 1] == Happen(sql, states[k], events[k]);
    FloorsStay(sql, db, states, events, k + 1, n);
    assert states[n].floors[q] == Told(states[k]) && states[n].asked[q] == events[k].query;
    var s, answer := states[n], states[n].answers[q];
    assert AnswerOk(sql, db, s.sent[..|s.executed|], s.asked[q], s.floors[q], answer);
    assert s.sent[..|s.executed|][..answer.after] == s.sent[..answer.after];
  }

  // ---------------------------------------------------------------------
  // The writer task's loop, and the registry of open handles
  // ---------------------------------------------------------------------

  /** The statements that come before the first close, if there is one. */
  function UntilClose<S>(requests: seq<WriteRequest<S>>): seq<S> {
    if requests == [] || requests[0].Close? then [] else [requests[0].stmt] + UntilClose(requests[1..])
  }

  /** The connection and the replies after a serial run of some statements. */
  ghost predicate AfterSerial<D, S, R, Q, A>(
    sql: Sqlite<D, S, R, Q, A>, db: D, stmts: seq<S>, conn: D, replies: seq<R>)
  {
    && conn == Serial(sql, db, stmts)
    && |replies| == |stmts|
    && forall id :: 0 <= id < |stmts| ==> replies[id] == SerialResult(sql, db, stmts, id)
  }

  lemma SerialTurn<D, S, R, Q, A>(sql: Sqlite<D, S, R, Q, A>, db: D, stmts: seq<S>, conn: D, replies: seq<R>, stmt: S)
    requires AfterSerial(sql, db, stmts, conn, replies)
    ensures var (conn', result) := sql.exec(conn, stmt);
            AfterSerial(sql, db, stmts + [stmt], conn', replies + [result])
  {
    var next := stmts + [stmt];
    assert next[..|stmts|] == stmts;
    forall id | 0 <= id < |stmts|
      ensures SerialResult(sql, db, next, id) == SerialResult(sql, db, stmts, id)
    {
      assert next[..id] == stmts[..id];
    }
  }

  /**
    `run_writer_conn` on the requests its channel will ever deliver: exactly the
    statements before the first close are executed and answered, as a serial run,
    and that close is acknowledged.
    */
  method RunWriterConn<D, S, R, Q, A>(sql: Sqlite<D, S, R, Q, A>, db: D, requests: seq<WriteRequest<S>>)
    returns (conn: D, replies: seq<R>, closed: Option<nat>)
    ensures AfterSerial(sql, db, UntilClose(requests), conn, replies)
    ensures match closed
            case None => forall i :: 0 <= i < |requests| ==> requests[i].Exec?
            case Some(id) => exists i :: 0 <= i < |requests| && IsFirstClose(requests, i) && requests[i].id == id
  {
    conn, replies, closed := db, [], None;
    var next := 0;
    ghost var done: seq<S> := [];
    while next < |requests|
      invariant 0 <= next <= |requests|
      invariant forall i :: 0 <= i < next ==> requests[i].Exec?
      invariant UntilClose(requests) == done + UntilClose(requests[next..])
      invariant AfterSerial(sql, db, done, conn, replies)
      invariant closed.None?
    {
      var r := requests[next];
      assert requests[next..][1..] == requests[next + 1..];
      if r.Close? {
        closed := Some(r.id);
        assert done + [] == done;
        assert IsFirstClose(requests, next);
        return;
      }
      SerialTurn(sql, db, done, conn, replies, r.stmt);
      var (conn', result) := sql.exec(conn, r.stmt);
      conn, replies, next := conn', replies + [result], next + 1;
      done := done + [r.stmt];
    }
    assert done + [] == done;
  }

  predicate IsFirstClose<S>(requests: seq<WriteRequest<S>>, i: nat)
    requires i < |requests|
  {
    requests[i].Close? && forall k :: 0 <= k < i ==> requests[k].Exec?
  }

  /** `DbRegistry`: the open handles by id. */
  class DbRegistry<!C(==)> {
    var handles: map<nat, C>
    var nextId: nat

    ghost predicate Valid()
      reads this
    {
      1 <= nextId && forall id :: id in handles ==> 1 <= id < nextId
    }

    constructor ()
      ensures Valid() && handles == map[] && nextId == 1
    {
      handles, nextId := map[], 1;
    }

    /** The id is taken before the connections are opened, so a failed open uses one up. */
    method Open(conns: Result<C, string>) returns (r: Result<nat, string>)
      requires Valid()
      modifies this
      ensures Valid() && nextId == old(nextId) + 1
      ensures match conns
              case Success(c) =>
                && r == Success(old(nextId)) && old(nextId) !in old(handles)
                && handles == old(handles)[old(nextId) := c]
              case Failure(e) => r == Failure(e) && handles == old(handles)
    {
      var id := nextId;
      nextId := nextId + 1;
      match conns
      case Failure(e) => r := Failure(e);
      case Success(c) =>
        handles := handles[id := c];
        r := Success(id);
    }

    method Remove(id: nat)
      requires Valid()
      modifies this
      ensures Valid() && nextId == old(nextId)
      ensures handles == old(handles) - {id}
    {
      handles := handles - {id};
    }
  }
}
