/**
  The composed request pipeline: frontends -> router task (src/router.rs) ->
  dispatcher and workers (src/worker.rs), wired as in src/main.rs by two bounded
  channels and one-shot replies.

  Each action below is one atomic event of one task. The invariants hold over
  every interleaving of those events; none of them is visible in one file alone.
  */
module RequestPipeline {
  import opened Wrappers
  import opened Routes
  import opened WorkerPool

  const ROUTER_CAPACITY := 128
  const HANDLER_CAPACITY := 64

  /**
    A frontend request, reduced to what the router decides about it from its path
    and operation. Its id is its position in the router channel's order.
    */
  datatype Request = Request(id: Id, decision: Decision)

  datatype Outcome =
    | Rejected(decision: Decision)                    // no route, no handler, or a directory
    | Replied(response: Result<seq<int>, string>)     // the worker's answer, forwarded
    | NoResponse                                      // "handler did not respond"
    | ChannelClosed                                   // reply sender dropped without a value

  datatype Resolution = Resolution(id: Id, outcome: Outcome)

  datatype RouterState = Idle | Offering(id: Id) | Waiting(id: Id) | Stopped

  datatype System = System(
    open: bool,                  // some frontend still holds a sender
    sent: seq<Decision>,         // every request accepted by the router channel, in order
    inbox: seq<Request>,         // those still waiting in that channel
    router: RouterState,
    channel: seq<Id>,            // the handler channel
    dispatching: bool,           // the dispatcher loop is running
    pool: Pool,
    resolved: seq<Resolution>)   // what frontends were told, in order

  datatype Event =
    | Submit(decision: Decision)
    | CloseFrontends
    | RouterReceive
    | RouterSend
    | RouterSendFails            // the handler channel's receiver is gone
    | RouterReply
    | RouterLost                 // the one-shot was closed without a value
    | RouterStop
    | DispatcherReceive
    | DispatcherStop
    | DispatcherTick
    | WorkerTake(slot: nat)
    | WorkerFinish(slot: nat, response: Result<seq<int>, string>)
    | WorkerDie(slot: nat)
    | WorkerJoin(slot: nat)

  function Initial(cfg: Config): System {
    System(true, [], [], Idle, [], true, InitialPool(cfg), [])
  }

  predicate IsWorkerEvent(e: Event) {
    e.WorkerTake? || e.WorkerFinish? || e.WorkerDie? || e.WorkerJoin?
  }

  function WorkerAction(e: Event): Action
    requires IsWorkerEvent(e)
  {
    match e
    case WorkerTake(i) => Take(i)
    case WorkerFinish(i, r) => Finish(i, r)
    case WorkerDie(i) => Die(i)
    case WorkerJoin(i) => Join(i)
  }

  function AnswerTo(answers: seq<Answer>, id: Id): Option<Answer> {
    if answers == [] then None
    else if answers[|answers| - 1].id == id then Some(answers[|answers| - 1])
    else AnswerTo(answers[..|answers| - 1], id)
  }

  predicate CanHappen(s: System, e: Event) {
    match e
    case Submit(_) => s.open && |s.inbox| < ROUTER_CAPACITY
    case CloseFrontends => s.open
    case RouterReceive => s.router.Idle? && s.inbox != []
    case RouterSend => s.router.Offering? && s.dispatching && |s.channel| < HANDLER_CAPACITY
    case RouterSendFails => s.router.Offering? && !s.dispatching
    case RouterReply => s.router.Waiting? && AnswerTo(s.pool.answered, s.router.id).Some?
    case RouterLost => s.router.Waiting? && s.router.id in s.pool.dropped
    case RouterStop => s.router.Idle? && s.inbox == [] && !s.open
    case DispatcherReceive => s.dispatching && s.channel != []
    case DispatcherStop => s.dispatching && s.channel == [] && s.router.Stopped?
    case DispatcherTick => s.dispatching
    case _ => Enabled(s.pool, WorkerAction(e))
  }

  function Resolve(s: System, id: Id, outcome: Outcome): System {
    s.(resolved := s.resolved + [Resolution(id, outcome)], router := Idle)
  }

  function Happen(cfg: Config, s: System, e: Event): System
    requires CanHappen(s, e)
  {
    match e
    case Submit(d) => s.(sent := s.sent + [d], inbox := s.inbox + [Request(|s.sent|, d)])
    case CloseFrontends => s.(open := false)
    case RouterReceive =>
      var req := s.inbox[0];
      var s' := s.(inbox := s.inbox[1..]);
      if req.decision.Forward? then s'.(router := Offering(req.id)) else Resolve(s', req.id, Rejected(req.decision))
    case RouterSend => s.(channel := s.channel + [s.router.id], router := Waiting(s.router.id))
    case RouterSendFails => Resolve(s, s.router.id, ChannelClosed)
    case RouterReply => Resolve(s, s.router.id, Replied(AnswerTo(s.pool.answered, s.router.id).value.response))
    case RouterLost => Resolve(s, s.router.id, NoResponse)
    case RouterStop => s.(router := Stopped)
    case DispatcherReceive =>
      s.(channel := s.channel[1..], pool := Receive(cfg, s.pool, s.channel[0], |s.channel| - 1))
    case DispatcherStop => s.(dispatching := false)
    case DispatcherTick => s.(pool := Tick(cfg, s.pool))
    case _ => s.(pool := Step(cfg, s.pool, WorkerAction(e)))
  }

  ghost predicate IsSystemRun(cfg: Config, states: seq<System>, events: seq<Event>) {
    && |states| == |events| + 1
    && states[0] == Initial(cfg)
    && forall k {:trigger events[k]} :: 0 <= k < |events| ==>
         CanHappen(states[k], events[k]) && states[k + 1] == Happen(cfg, states[k], events[k])
  }

  // ---------------------------------------------------------------------
  // The invariant
  // ---------------------------------------------------------------------

  /** How often a request is waiting for a handler, in the channel or held by a worker. */
  function Unresolved(s: System, id: Id): nat {
    Occurs(s.channel, id) + TotalLoad(s.pool.workers, id)
  }

  /** The router's current request, if any. */
  function Current(s: System): seq<Id> {
    if s.router.Offering? || s.router.Waiting? then [s.router.id] else []
  }

  /** Resolved requests, then the router's current one, then the inbox: exactly what was sent, in order. */
  ghost predicate InOrder(s: System) {
    var r, c := |s.resolved|, |Current(s)|;
    && |s.sent| == r + c + |s.inbox|
    && (forall i :: 0 <= i < r ==> s.resolved[i].id == i)
    && (c > 0 ==> s.router.id == r && s.sent[r].Forward?)
    && (forall i :: 0 <= i < |s.inbox| ==> s.inbox[i] == Request(r + c + i, s.sent[r + c + i]))
  }

  /** The only request that may still be with the handlers is the one the router waits for. */
  ghost predicate OneInFlight(s: System) {
    && (forall id: Id :: Unresolved(s, id) > 0 ==> s.router == Waiting(id))
    && |s.channel| <= 1
    && (s.channel != [] ==> s.router == Waiting(s.channel[0]) && s.channel[0] !in s.pool.received)
    && (s.router.Waiting? && s.channel == [] ==> s.router.id in s.pool.received)
    && (forall id :: id in s.pool.received ==> id < |s.resolved| || s.router == Waiting(id))
  }

  ghost predicate Queued(s: System, id: Id) {
    id in s.channel || QueuedIn(s.pool.workers, id)
  }

  /** Handler calls begin in router order; a request still queued has not begun. */
  ghost predicate StartedInOrder(s: System) {
    && (forall i, j :: 0 <= i < j < |s.pool.started| ==> s.pool.started[i] < s.pool.started[j])
    && (forall id :: id in s.pool.started ==> id < |s.resolved| || (s.router == Waiting(id) && !Queued(s, id)))
  }

  /** A frontend is told exactly what became of its own request. */
  ghost predicate Faithful(s: System, r: Resolution) {
    && r.id < |s.sent|
    && match r.outcome
       case Rejected(d) => s.sent[r.id] == d && !d.Forward?
       case Replied(response) => s.sent[r.id].Forward? && Answer(r.id, response) in s.pool.answered
       case NoResponse => s.sent[r.id].Forward? && r.id in s.pool.dropped
       case ChannelClosed => false
  }

  ghost predicate AllFaithful(s: System) {
    forall i :: 0 <= i < |s.resolved| ==> Faithful(s, s.resolved[i])
  }

  ghost predicate Lifecycle(cfg: Config, s: System) {
    && |s.pool.workers| <= cfg.min
    && (!s.dispatching ==> s.router.Stopped?)
    && (s.router.Stopped? ==> !s.open && s.inbox == [])
  }

  ghost predicate Inv(cfg: Config, s: System) {
    && Valid(s.pool)
    && InOrder(s)
    && OneInFlight(s)
    && StartedInOrder(s)
    && AllFaithful(s)
    && Lifecycle(cfg, s)
  }

  // ---------------------------------------------------------------------
  // Events of the pool
  // ---------------------------------------------------------------------

  /** Every pool event is one step of the pool; a receive takes its request off the channel. */
  ghost predicate PoolEvent(cfg: Config, s: System, a: Action, s': System) {
    && Enabled(s.pool, a)
    && s' == s.(pool := Step(cfg, s.pool, a), channel := s'.channel)
    && (if a.ReceiveRequest? then s.channel == [a.id] + s'.channel && a.backlog == |s'.channel|
        else s'.channel == s.channel)
  }

  lemma PoolKeepsOneInFlight(cfg: Config, s: System, a: Action, s': System)
    requires Inv(cfg, s) && PoolEvent(cfg, s, a, s')
    ensures OneInFlight(s')
  {
    StepReceived(cfg, s.pool, a);
    forall id: Id
      ensures Unresolved(s', id) <= Unresolved(s, id)
    {
      StepLoad(cfg, s.pool, a, id);
      if a.ReceiveRequest? {
        OccursConcat([a.id], s'.channel, id);
      }
    }
  }

  lemma PoolKeepsFaithful(cfg: Config, s: System, a: Action, s': System)
    requires Inv(cfg, s) && PoolEvent(cfg, s, a, s')
    ensures AllFaithful(s')
  {
    StepGrows(cfg, s.pool, a);
    forall i | 0 <= i < |s'.resolved|
      ensures Faithful(s', s'.resolved[i])
    {
      assert Faithful(s, s.resolved[i]);
    }
  }

  /** A take starts the very request the router waits for, and it was not started before. */
  lemma TakeStartsCurrent(cfg: Config, s: System, i: nat, s': System)
    requires Inv(cfg, s) && PoolEvent(cfg, s, Take(i), s')
    ensures var id := s.pool.workers[i].queue[0];
            s.router == Waiting(id) && Queued(s, id) && !Queued(s', id)
  {
    var id := s.pool.workers[i].queue[0];
    QueuedIsLoad(s.pool.workers, i, id);
    assert Unresolved(s, id) > 0;
    assert Places(s.pool, id) <= 1;
    StepLoad(cfg, s.pool, Take(i), id);
    ExecutingNotQueued(s'.pool.workers, i, id);
    assert id in s.pool.received;
  }

  lemma PoolKeepsStartedInOrder(cfg: Config, s: System, a: Action, s': System)
    requires Inv(cfg, s) && PoolEvent(cfg, s, a, s')
    ensures StartedInOrder(s')
  {
    StepGrows(cfg, s.pool, a);
    if a.Take? {
      TakeStartsCurrent(cfg, s, a.slot, s');
      forall i | 0 <= i < |s.pool.started|
        ensures s.pool.started[i] < s.router.id
      {
        assert s.pool.started[i] in s.pool.started;
      }
    }
    forall id | id in s.pool.started
      ensures id < |s'.resolved| || (s'.router == Waiting(id) && !Queued(s', id))
    {
      if QueuedIn(s'.pool.workers, id) {
        StepQueued(cfg, s.pool, a, id);
      }
    }
  }

  lemma PoolKeepsInv(cfg: Config, s: System, a: Action, s': System)
    requires Inv(cfg, s) && PoolEvent(cfg, s, a, s')
    ensures Inv(cfg, s')
  {
    StepValid(cfg, s.pool, a);
    PoolKeepsOneInFlight(cfg, s, a, s');
    PoolKeepsFaithful(cfg, s, a, s');
    PoolKeepsStartedInOrder(cfg, s, a, s');
    StepSize(cfg, s.pool, a);
  }

  // ---------------------------------------------------------------------
  // Events of the frontends and the router
  // ---------------------------------------------------------------------

  lemma {:induction false} AnswerToIsThere(answers: seq<Answer>, id: Id)
    ensures AnswerTo(answers, id).Some? <==> AnswersTo(answers, id) > 0
    ensures AnswerTo(answers, id).Some? ==>
              AnswerTo(answers, id).value in answers && AnswerTo(answers, id).value.id == id
  {
    if answers != [] {
      AnswerToIsThere(answers[..|answers| - 1], id);
    }
  }

  /** Once the router has its reply, no request is with the handlers any more. */
  lemma ResolvedLeavesNothing(cfg: Config, s: System)
    requires Inv(cfg, s) && (CanHappen(s, RouterReply) || CanHappen(s, RouterLost))
    ensures s.channel == [] && forall id: Id :: Unresolved(s, id) == 0
  {
    var id := s.router.id;
    AnswerToIsThere(s.pool.answered, id);
    OccursIff(s.pool.dropped, id);
    assert Places(s.pool, id) <= 1;
    assert id in s.pool.received;
    assert Unresolved(s, id) == 0;
  }

  lemma RouterResolves(cfg: Config, s: System, e: Event)
    requires Inv(cfg, s) && (e.RouterReply? || e.RouterLost?) && CanHappen(s, e)
    ensures Inv(cfg, Happen(cfg, s, e))
  {
    ResolvedLeavesNothing(cfg, s);
    AnswerToIsThere(s.pool.answered, s.router.id);
    var s' := Happen(cfg, s, e);
    assert forall id: Id :: Unresolved(s', id) == Unresolved(s, id);
    forall i | 0 <= i < |s'.resolved|
      ensures Faithful(s', s'.resolved[i])
    {
      if i < |s.resolved| {
        assert Faithful(s, s.resolved[i]);
      }
    }
  }

  lemma RouterReceives(cfg: Config, s: System)
    requires Inv(cfg, s) && CanHappen(s, RouterReceive)
    ensures Inv(cfg, Happen(cfg, s, RouterReceive))
  {
    var s' := Happen(cfg, s, RouterReceive);
    assert forall id: Id :: Unresolved(s', id) == Unresolved(s, id);
    assert s.inbox[0] == Request(|s.resolved|, s.sent[|s.resolved|]);
    forall i | 0 <= i < |s'.resolved|
      ensures Faithful(s', s'.resolved[i])
    {
      if i < |s.resolved| {
        assert Faithful(s, s.resolved[i]);
      }
    }
  }

  lemma SendKeepsOneInFlight(cfg: Config, s: System)
    requires OneInFlight(s) && CanHappen(s, RouterSend) && s.router.id == |s.resolved|
    ensures OneInFlight(Happen(cfg, s, RouterSend))
  {
    var s', id0 := Happen(cfg, s, RouterSend), s.router.id;
    assert s.channel == [] && s'.channel == [id0];
    forall id: Id | id != id0
      ensures Unresolved(s', id) == 0
    {
      assert Unresolved(s, id) == 0;
      OccursIff([id0], id);
    }
  }

  lemma SendKeepsOrder(cfg: Config, s: System)
    requires InOrder(s) && StartedInOrder(s) && AllFaithful(s) && CanHappen(s, RouterSend)
    ensures var s' := Happen(cfg, s, RouterSend);
            InOrder(s') && StartedInOrder(s') && AllFaithful(s')
  {
    var s' := Happen(cfg, s, RouterSend);
    assert Current(s') == Current(s);
    forall i | 0 <= i < |s'.resolved|
      ensures Faithful(s', s'.resolved[i])
    {
      assert Faithful(s, s.resolved[i]);
    }
  }

  lemma RouterSends(cfg: Config, s: System)
    requires Inv(cfg, s) && CanHappen(s, RouterSend)
    ensures Inv(cfg, Happen(cfg, s, RouterSend))
  {
    SendKeepsOneInFlight(cfg, s);
    SendKeepsOrder(cfg, s);
  }

  lemma Submits(cfg: Config, s: System, e: Event)
    requires Inv(cfg, s) && CanHappen(s, e)
    requires e.Submit? || e.CloseFrontends? || e.RouterStop? || e.DispatcherStop?
    ensures Inv(cfg, Happen(cfg, s, e))
  {
    var s' := Happen(cfg, s, e);
    assert forall id: Id :: Unresolved(s', id) == Unresolved(s, id);
    forall i | 0 <= i < |s'.resolved|
      ensures Faithful(s', s'.resolved[i])
    {
      assert Faithful(s, s.resolved[i]);
    }
  }

  /** Every event of every task keeps the invariant. */
  lemma EventKeepsInv(cfg: Config, s: System, e: Event)
    requires Inv(cfg, s) && CanHappen(s, e)
    ensures Inv(cfg, Happen(cfg, s, e))
  {
    var s' := Happen(cfg, s, e);
    match e
    case RouterReceive => RouterReceives(cfg, s);
    case RouterSend => RouterSends(cfg, s);
    case RouterSendFails => assert false;
    case RouterReply => RouterResolves(cfg, s, e);
    case RouterLost => RouterResolves(cfg, s, e);
    case DispatcherReceive => PoolKeepsInv(cfg, s, ReceiveRequest(s.channel[0], |s.channel| - 1), s');
    case DispatcherTick => PoolKeepsInv(cfg, s, CleanupTick, s');
    case WorkerTake(_) => PoolKeepsInv(cfg, s, WorkerAction(e), s');
    case WorkerFinish(_, _) => PoolKeepsInv(cfg, s, WorkerAction(e), s');
    case WorkerDie(_) => PoolKeepsInv(cfg, s, WorkerAction(e), s');
    case WorkerJoin(_) => PoolKeepsInv(cfg, s, WorkerAction(e), s');
    case _ => Submits(cfg, s, e);
  }

  // ---------------------------------------------------------------------
  // What the invariant means
  // ---------------------------------------------------------------------

  /** At most one request is with the handlers, and it is held once. */
  ghost predicate Serial(s: System) {
    && (forall id: Id :: Unresolved(s, id) <= 1)
    && (forall x: Id, y: Id :: Unresolved(s, x) > 0 && Unresolved(s, y) > 0 ==> x == y)
  }

  lemma InvMeansSerial(cfg: Config, s: System)
    requires Inv(cfg, s)
    ensures Serial(s)
  {
    forall id: Id
      ensures Unresolved(s, id) <= 1
    {
      assert Places(s.pool, id) <= 1;
      if s.channel != [] {
        assert s.channel == [s.channel[0]];
        assert Places(s.pool, s.channel[0]) == 0;
        OccursIff(s.channel, id);
      }
    }
  }

  /** Two workers never run handler calls at the same time. */
  lemma CallsNeverOverlap(cfg: Config, s: System, i: nat, j: nat)
    requires Inv(cfg, s) && i < |s.pool.workers| && j < |s.pool.workers|
    requires s.pool.workers[i].executing.Some? && s.pool.workers[j].executing.Some?
    ensures i == j
  {
    var x, y := s.pool.workers[i].executing.value, s.pool.workers[j].executing.value;
    QueuedIsLoad(s.pool.workers, i, x);
    QueuedIsLoad(s.pool.workers, j, y);
    assert Unresolved(s, x) > 0 && Unresolved(s, y) > 0;
    InvMeansSerial(cfg, s);
    if i != j {
      LoadPair(s.pool.workers, i, j, x);
    }
  }

  /** The dispatcher always finds its channel empty behind the request it received. */
  lemma NeverInflates(cfg: Config, s: System)
    requires Inv(cfg, s) && CanHappen(s, DispatcherReceive)
    ensures |s.channel| == 1 && !Inflates(cfg, s.pool, |s.channel| - 1)
  {
  }

  lemma InitialInv(cfg: Config)
    ensures Inv(cfg, Initial(cfg))
  {
    InitialValid(cfg);
    SpawnManyHistory(EMPTY, cfg.min);
    var s := Initial(cfg);
    forall id: Id
      ensures Unresolved(s, id) == 0
    {
      assert Places(s.pool, id) == 0;
    }
  }

  lemma {:induction false} SpawnManyHistory(p: Pool, n: nat)
    ensures var q := SpawnMany(p, n);
            q == p.(workers := q.workers, spawned := q.spawned)
    decreases n
  {
    if n > 0 {
      SpawnManyHistory(Spawn(p), n - 1);
    }
  }

  lemma {:induction false} RunsKeepInv(cfg: Config, states: seq<System>, events: seq<Event>, k: nat)
    requires IsSystemRun(cfg, states, events) && k < |states|
    ensures Inv(cfg, states[k])
  {
    if k == 0 {
      InitialInv(cfg);
    } else {
      RunsKeepInv(cfg, states, events, k - 1);
      EventKeepsInv(cfg, states[k - 1], events[k - 1]);
    }
  }

  /**
    In every state of every run: at most one request is with the handlers;
    frontends have been answered in router-channel order, each once and each with
    what became of its own request; handler calls began in that same order; the
    pool is no larger than `min`; and neither the inflation branch nor the
    "handler task is gone" branch can be taken.
    */
  lemma PipelineIsSerial(cfg: Config, states: seq<System>, events: seq<Event>, k: nat)
    requires IsSystemRun(cfg, states, events) && k < |states|
    ensures var s := states[k];
            && Serial(s)
            && (forall i :: 0 <= i < |s.resolved| ==> s.resolved[i].id == i && Faithful(s, s.resolved[i]))
            && (forall i, j :: 0 <= i < j < |s.pool.started| ==> s.pool.started[i] < s.pool.started[j])
            && |s.pool.workers| <= cfg.min
            && !CanHappen(s, RouterSendFails)
            && (CanHappen(s, DispatcherReceive) ==> !Inflates(cfg, s.pool, |s.channel| - 1))
  {
    RunsKeepInv(cfg, states, events, k);
    InvMeansSerial(cfg, states[k]);
  }

  // ---------------------------------------------------------------------
  // Progress: every request is resolved
  // ---------------------------------------------------------------------

  /** Events that move a request closer to its resolution. */
  predicate Advances(e: Event) {
    e.RouterReceive? || e.RouterSend? || e.RouterReply? || e.RouterLost? ||
    e.DispatcherReceive? || e.WorkerTake? || e.WorkerFinish?
  }

  /** How many more advancing events the router's current request needs at most. */
  ghost function Stage(s: System): nat {
    match s.router
    case Offering(_) => 5
    case Waiting(id) =>
      if s.channel != [] then 4
      else if QueuedIn(s.pool.workers, id) then 3
      else if TotalLoad(s.pool.workers, id) > 0 then 2
      else 1
    case _ => 0
  }

  ghost function Rank(s: System): nat {
    6 * |s.inbox| + Stage(s)
  }

  /** The handlers have work only while the router waits for it. */
  lemma WorkMeansWaiting(cfg: Config, s: System, a: Action, s': System)
    requires Inv(cfg, s) && PoolEvent(cfg, s, a, s') && (a.ReceiveRequest? || a.Take? || a.Finish?)
    ensures s.router.Waiting?
  {
    if a.Take? || a.Finish? {
      var w := s.pool.workers[a.slot];
      var id := if a.Take? then w.queue[0] else w.executing.value;
      QueuedIsLoad(s.pool.workers, a.slot, id);
      assert Unresolved(s, id) > 0;
    }
  }

  lemma PoolStage(cfg: Config, s: System, a: Action, s': System)
    requires Inv(cfg, s) && PoolEvent(cfg, s, a, s')
    ensures Stage(s') <= Stage(s)
    ensures a.ReceiveRequest? || a.Take? || a.Finish? ==> Stage(s') < Stage(s)
  {
    if a.Take? {
      WorkMeansWaiting(cfg, s, a, s');
      TakeStage(cfg, s, a.slot, s');
    } else if a.Finish? {
      WorkMeansWaiting(cfg, s, a, s');
      FinishStage(cfg, s, a, s');
    } else if s.router.Waiting? {
      StepLoad(cfg, s.pool, a, s.router.id);
      if QueuedIn(s'.pool.workers, s.router.id) {
        StepQueued(cfg, s.pool, a, s.router.id);
      }
    }
  }

  lemma TakeStage(cfg: Config, s: System, i: nat, s': System)
    requires Inv(cfg, s) && PoolEvent(cfg, s, Take(i), s') && s.router.Waiting?
    ensures Stage(s') < Stage(s)
  {
    TakeStartsCurrent(cfg, s, i, s');
    assert s.pool.workers[i].queue[0] in s.pool.workers[i].queue;
  }

  /** The request whose call ends is the current one, and nothing else is left of it. */
  lemma FinishStage(cfg: Config, s: System, a: Action, s': System)
    requires Inv(cfg, s) && a.Finish? && PoolEvent(cfg, s, a, s') && s.router.Waiting?
    ensures Stage(s') < Stage(s)
  {
    var id := s.pool.workers[a.slot].executing.value;
    QueuedIsLoad(s.pool.workers, a.slot, id);
    assert Unresolved(s, id) > 0;
    InvMeansSerial(cfg, s);
    ExecutingNotQueued(s.pool.workers, a.slot, id);
    TotalLoadUpdate(s.pool.workers, a.slot, s'.pool.workers[a.slot], id);
    if QueuedIn(s'.pool.workers, id) {
      StepQueued(cfg, s.pool, a, id);
    }
  }

  /** An advancing event lowers the rank, a submission adds six, nothing else raises it. */
  lemma EventRank(cfg: Config, s: System, e: Event)
    requires Inv(cfg, s) && CanHappen(s, e)
    ensures var s' := Happen(cfg, s, e);
            if Advances(e) then Rank(s') < Rank(s)
            else Rank(s') <= Rank(s) + if e.Submit? then 6 else 0
  {
    var s' := Happen(cfg, s, e);
    match e
    case DispatcherReceive => PoolStage(cfg, s, ReceiveRequest(s.channel[0], |s.channel| - 1), s');
    case DispatcherTick => PoolStage(cfg, s, CleanupTick, s');
    case WorkerTake(_) => PoolStage(cfg, s, WorkerAction(e), s');
    case WorkerFinish(_, _) => PoolStage(cfg, s, WorkerAction(e), s');
    case WorkerDie(_) => PoolStage(cfg, s, WorkerAction(e), s');
    case WorkerJoin(_) => PoolStage(cfg, s, WorkerAction(e), s');
    case _ =>
  }

  lemma {:induction false} HeldSomewhere(ws: seq<Worker>, id: Id) returns (i: nat)
    requires TotalLoad(ws, id) > 0
    ensures i < |ws| && (id in ws[i].queue || ws[i].executing == Some(id))
  {
    var n := |ws| - 1;
    OccursIff(ws[n].queue, id);
    if Load(ws[n], id) > 0 {
      i := n;
    } else {
      i := HeldSomewhere(ws[..n], id);
    }
  }

  /** The pipeline never gets stuck: while a request is unresolved, some advancing event can happen. */
  lemma NeverStuck(cfg: Config, s: System) returns (e: Event)
    requires Inv(cfg, s) && |s.resolved| < |s.sent|
    ensures Advances(e) && CanHappen(s, e)
  {
    match s.router
    case Idle => e := RouterReceive;
    case Offering(_) => e := RouterSend;
    case Waiting(id) =>
      if s.channel != [] {
        e := DispatcherReceive;
      } else if TotalLoad(s.pool.workers, id) > 0 {
        var i := HeldSomewhere(s.pool.workers, id);
        assert WorkerOk(s.pool.workers[i]);
        e := if s.pool.workers[i].executing.Some? then WorkerFinish(i, Success([])) else WorkerTake(i);
      } else {
        assert Places(s.pool, id) == 1;
        AnswerToIsThere(s.pool.answered, id);
        OccursIff(s.pool.dropped, id);
        e := if AnswerTo(s.pool.answered, id).Some? then RouterReply else RouterLost;
      }
    case Stopped =>
  }

  function Advancing(events: seq<Event>): nat {
    if events == [] then 0
    else Advancing(events[..|events| - 1]) + if Advances(events[|events| - 1]) then 1 else 0
  }

  /**
    A run performs at most six advancing events per submitted request. With
    `NeverStuck`, every run in which the tasks keep being scheduled resolves every
    request it was sent.
    */
  lemma {:induction false} RunsResolveEverything(cfg: Config, states: seq<System>, events: seq<Event>, k: nat)
    requires IsSystemRun(cfg, states, events) && k < |states|
    ensures Advancing(events[..k]) + Rank(states[k]) <= 6 * |states[k].sent|
  {
    if k == 0 {
      assert events[..0] == [];
    } else {
      var s, e := states[k - 1], events[k - 1];
      assert CanHappen(s, e) && states[k] == Happen(cfg, s, e);
      RunsResolveEverything(cfg, states, events, k - 1);
      RunsKeepInv(cfg, states, events, k - 1);
      EventRank(cfg, s, e);
      assert events[..k][..k - 1] == events[..k - 1];
    }
  }

  /** A run that has come to rest - no advancing event can happen - has resolved every request it was sent. */
  lemma RestMeansResolved(cfg: Config, states: seq<System>, events: seq<Event>, k: nat)
    requires IsSystemRun(cfg, states, events) && k < |states|
    requires forall e :: Advances(e) ==> !CanHappen(states[k], e)
    ensures |states[k].resolved| == |states[k].sent|
  {
    RunsKeepInv(cfg, states, events, k);
    if |states[k].resolved| < |states[k].sent| {
      var e := NeverStuck(cfg, states[k]);
    }
  }
}
