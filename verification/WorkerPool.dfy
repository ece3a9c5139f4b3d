/**
  The worker pool of src/worker.rs: a dispatcher that spreads handler requests
  over pinned workers, and the workers themselves.

  `Pool` is the value the proofs reason about: the dispatcher's `workers` vector
  and `next` counter, what every worker holds, and the history of what became of
  each request. `Dispatcher` is the event loop's own mutable state; each of its
  methods is proved to compute the corresponding function on `Pool`.
  */
module WorkerPool {
  import opened Wrappers
  import opened Arithmetic

  /** A handler request, named by the order in which it entered the system. */
  type Id = nat

  /** How many requests may wait behind the received one before the pool grows. */
  const INFLATE_BACKLOG := 5

  datatype Config = Config(min: nat, max: nat)

  /**
    One pinned worker: its unbounded channel, the request it is running, whether
    its receiver still exists, and whether its join handle reports completion.
    */
  datatype Worker = Worker(id: nat, queue: seq<Id>, executing: Option<Id>, alive: bool, finished: bool)

  /** What a handler call gave back; the error case includes Lua errors. */
  datatype Answer = Answer(id: Id, response: Result<seq<int>, string>)

  datatype Pool = Pool(
    workers: seq<Worker>,
    next: nat,
    spawned: nat,           // workers ever spawned; the next worker's id
    received: seq<Id>,      // requests the dispatcher took off its channel
    targets: seq<nat>,      // worker ids that requests were queued on, in order
    started: seq<Id>,       // requests whose handler call began, in order
    answered: seq<Answer>,  // one-shot replies that carry a value
    dropped: seq<Id>)       // one-shot replies that were closed without a value

  function NewWorker(id: nat): Worker {
    Worker(id, [], None, true, false)
  }

  function Spawn(p: Pool): Pool {
    p.(workers := p.workers + [NewWorker(p.spawned)], spawned := p.spawned + 1)
  }

  function SpawnMany(p: Pool, n: nat): Pool
    decreases n
  {
    if n == 0 then p else SpawnMany(Spawn(p), n - 1)
  }

  const EMPTY: Pool := Pool([], 0, 0, [], [], [], [], [])

  function InitialPool(cfg: Config): Pool {
    SpawnMany(EMPTY, cfg.min)
  }

  // ---------------------------------------------------------------------
  // The dispatcher's two event branches
  // ---------------------------------------------------------------------

  /** `Vec::swap_remove`: the last element takes the removed slot. */
  function SwapRemove<T>(s: seq<T>, i: nat): seq<T>
    requires i < |s|
  {
    if i == |s| - 1 then s[..i] else s[..|s| - 1][i := s[|s| - 1]]
  }

  predicate Inflates(cfg: Config, p: Pool, backlog: nat) {
    backlog > INFLATE_BACKLOG && |p.workers| < cfg.max
  }

  /** Round-robin dispatch once the pool has been inflated, if at all. */
  function Dispatch(p: Pool, id: Id): Pool {
    if p.workers == [] then
      p.(received := p.received + [id],
         answered := p.answered + [Answer(id, Failure("no workers available"))])
    else
      var slot := p.next % |p.workers|;
      var w := p.workers[slot];
      if w.alive then
        p.(received := p.received + [id],
           workers := p.workers[slot := w.(queue := w.queue + [id])],
           targets := p.targets + [w.id],
           next := slot + 1)
      else
        p.(received := p.received + [id],
           workers := SwapRemove(p.workers, slot),
           dropped := p.dropped + [id],
           next := slot)
  }

  function Receive(cfg: Config, p: Pool, id: Id, backlog: nat): Pool {
    Dispatch(if Inflates(cfg, p, backlog) then Spawn(p) else p, id)
  }

  /** `workers.retain(|(_, handle)| !handle.is_finished())`. */
  function Retain(ws: seq<Worker>): seq<Worker> {
    if ws == [] then []
    else if ws[0].finished then Retain(ws[1..])
    else [ws[0]] + Retain(ws[1..])
  }

  function Replenish(cfg: Config, p: Pool): Pool
    decreases cfg.min - |p.workers|
  {
    if |p.workers| < cfg.min && |p.workers| < cfg.max then Replenish(cfg, Spawn(p)) else p
  }

  function Tick(cfg: Config, p: Pool): Pool {
    Replenish(cfg, p.(workers := Retain(p.workers)))
  }

  // ---------------------------------------------------------------------
  // The workers
  // ---------------------------------------------------------------------

  datatype Action =
    | ReceiveRequest(id: Id, backlog: nat)
    | CleanupTick
    | Take(slot: nat)                              // a worker starts its next request
    | Finish(slot: nat, response: Result<seq<int>, string>)  // call_lua returned; reply sent
    | Die(slot: nat)                               // receiver dropped: idle TTL, failed start-up, panic
    | Join(slot: nat)                              // the join handle reports completion

  predicate Enabled(p: Pool, a: Action) {
    match a
    case ReceiveRequest(id, _) => id !in p.received
    case CleanupTick => true
    case Take(i) => i < |p.workers| && p.workers[i].alive && p.workers[i].executing.None? && p.workers[i].queue != []
    case Finish(i, _) => i < |p.workers| && p.workers[i].alive && p.workers[i].executing.Some?
    case Die(i) => i < |p.workers| && p.workers[i].alive
    case Join(i) => i < |p.workers| && !p.workers[i].alive
  }

  function Executing(w: Worker): seq<Id> {
    if w.executing.Some? then [w.executing.value] else []
  }

  function Step(cfg: Config, p: Pool, a: Action): Pool
    requires Enabled(p, a)
  {
    match a
    case ReceiveRequest(id, backlog) => Receive(cfg, p, id, backlog)
    case CleanupTick => Tick(cfg, p)
    case Take(i) =>
      var w := p.workers[i];
      p.(workers := p.workers[i := w.(queue := w.queue[1..], executing := Some(w.queue[0]))],
         started := p.started + [w.queue[0]])
    case Finish(i, r) =>
      var w := p.workers[i];
      p.(workers := p.workers[i := w.(executing := None)],
         answered := p.answered + [Answer(w.executing.value, r)])
    case Die(i) =>
      var w := p.workers[i];
      p.(workers := p.workers[i := w.(queue := [], executing := None, alive := false)],
         dropped := p.dropped + Executing(w) + w.queue)
    case Join(i) =>
      p.(workers := p.workers[i := p.workers[i].(finished := true)])
  }

  /** A run of the pool, as the list of its states. */
  ghost predicate IsRun(cfg: Config, states: seq<Pool>, actions: seq<Action>) {
    && |states| == |actions| + 1
    && forall k {:trigger actions[k]} :: 0 <= k < |actions| ==>
         Enabled(states[k], actions[k]) && states[k + 1] == Step(cfg, states[k], actions[k])
  }

  // ---------------------------------------------------------------------
  // Where a request is
  // ---------------------------------------------------------------------

  function Occurs(s: seq<Id>, id: Id): nat {
    if s == [] then 0
    else Occurs(s[..|s| - 1], id) + if s[|s| - 1] == id then 1 else 0
  }

  /** How often a worker holds a request: waiting in its channel or being run. */
  function Load(w: Worker, id: Id): nat {
    Occurs(w.queue, id) + if w.executing == Some(id) then 1 else 0
  }

  function TotalLoad(ws: seq<Worker>, id: Id): nat {
    if ws == [] then 0 else TotalLoad(ws[..|ws| - 1], id) + Load(ws[|ws| - 1], id)
  }

  function AnswersTo(answers: seq<Answer>, id: Id): nat {
    if answers == [] then 0
    else AnswersTo(answers[..|answers| - 1], id) + if answers[|answers| - 1].id == id then 1 else 0
  }

  /** The number of places a request is in: held by a worker, answered, or dropped. */
  function Places(p: Pool, id: Id): nat {
    TotalLoad(p.workers, id) + AnswersTo(p.answered, id) + Occurs(p.dropped, id)
  }

  /** A dead worker holds nothing: dropping its receiver drained its channel. */
  ghost predicate WorkerOk(w: Worker) {
    && (!w.alive ==> w.queue == [] && w.executing.None?)
    && (w.finished ==> !w.alive)
  }

  ghost predicate WorkersOk(ws: seq<Worker>) {
    forall i :: 0 <= i < |ws| ==> WorkerOk(ws[i])
  }

  /** Every received request is in exactly one place, every other one in none. */
  ghost predicate Conserved(p: Pool) {
    forall id: Id :: Places(p, id) == if id in p.received then 1 else 0
  }

  ghost predicate Valid(p: Pool) {
    WorkersOk(p.workers) && Conserved(p)
  }

  lemma {:induction false} OccursConcat(a: seq<Id>, b: seq<Id>, id: Id)
    ensures Occurs(a + b, id) == Occurs(a, id) + Occurs(b, id)
  {
    if b == [] {
      assert a + b == a;
    } else {
      assert (a + b)[..|a + b| - 1] == a + b[..|b| - 1];
      OccursConcat(a, b[..|b| - 1], id);
    }
  }

  lemma {:induction false} OccursIff(s: seq<Id>, id: Id)
    ensures id in s <==> Occurs(s, id) > 0
  {
    if s != [] {
      OccursIff(s[..|s| - 1], id);
      assert s == s[..|s| - 1] + [s[|s| - 1]];
    }
  }

  lemma {:induction false} TotalLoadUpdate(ws: seq<Worker>, i: nat, w: Worker, id: Id)
    requires i < |ws|
    ensures TotalLoad(ws[i := w], id) == TotalLoad(ws, id) - Load(ws[i], id) + Load(w, id)
    ensures TotalLoad(ws, id) >= Load(ws[i], id)
  {
    var n := |ws| - 1;
    if i == n {
      assert ws[i := w][..n] == ws[..n];
    } else {
      assert ws[i := w][..n] == ws[..n][i := w];
      TotalLoadUpdate(ws[..n], i, w, id);
    }
  }

  lemma TotalLoadPush(ws: seq<Worker>, w: Worker, id: Id)
    ensures TotalLoad(ws + [w], id) == TotalLoad(ws, id) + Load(w, id)
  {
    assert (ws + [w])[..|ws|] == ws;
  }

  lemma TotalLoadSwapRemove(ws: seq<Worker>, i: nat, id: Id)
    requires i < |ws|
    ensures TotalLoad(SwapRemove(ws, i), id) == TotalLoad(ws, id) - Load(ws[i], id)
  {
    var n := |ws| - 1;
    if i < n {
      TotalLoadUpdate(ws[..n], i, ws[n], id);
    }
  }

  lemma {:induction false} TotalLoadFront(ws: seq<Worker>, id: Id)
    requires ws != []
    ensures TotalLoad(ws, id) == Load(ws[0], id) + TotalLoad(ws[1..], id)
  {
    var n := |ws| - 1;
    if n > 0 {
      TotalLoadFront(ws[..n], id);
      assert ws[..n][1..] == ws[1..][..n - 1];
    }
  }

  lemma {:induction false} RetainLoad(ws: seq<Worker>, id: Id)
    requires WorkersOk(ws)
    ensures TotalLoad(Retain(ws), id) == TotalLoad(ws, id)
  {
    if ws != [] {
      TotalLoadFront(ws, id);
      RetainLoad(ws[1..], id);
      assert WorkerOk(ws[0]);
      if !ws[0].finished {
        TotalLoadFront(Retain(ws), id);
        assert Retain(ws)[1..] == Retain(ws[1..]);
      }
    }
  }

  lemma {:induction false} RetainOk(ws: seq<Worker>)
    requires WorkersOk(ws)
    ensures WorkersOk(Retain(ws)) && |Retain(ws)| <= |ws|
  {
    if ws != [] {
      assert WorkerOk(ws[0]);
      RetainOk(ws[1..]);
    }
  }

  /** Exactly the finished workers go. */
  lemma {:induction false} RetainMembers(ws: seq<Worker>)
    ensures forall w :: w in Retain(ws) <==> w in ws && !w.finished
  {
    if ws != [] {
      RetainMembers(ws[1..]);
      assert ws == [ws[0]] + ws[1..];
    }
  }

  /** And the others keep their order: cleaning up a vector is cleaning up its two halves. */
  lemma {:induction false} RetainConcat(a: seq<Worker>, b: seq<Worker>)
    ensures Retain(a + b) == Retain(a) + Retain(b)
  {
    if a == [] {
      assert a + b == b;
    } else {
      assert (a + b)[1..] == a[1..] + b;
      RetainConcat(a[1..], b);
    }
  }

  /** A worker that waits for its first request. */
  predicate IsReady(w: Worker) {
    w.alive && !w.finished && w.queue == [] && w.executing.None?
  }

  lemma {:induction false} ReplenishKeeps(cfg: Config, p: Pool, id: Id)
    requires WorkersOk(p.workers)
    ensures WorkersOk(Replenish(cfg, p).workers)
    ensures TotalLoad(Replenish(cfg, p).workers, id) == TotalLoad(p.workers, id)
    ensures Replenish(cfg, p) == p.(workers := Replenish(cfg, p).workers, spawned := Replenish(cfg, p).spawned)
    ensures |Replenish(cfg, p).workers| == Max(|p.workers|, Min(cfg.min, cfg.max))
    ensures p.workers <= Replenish(cfg, p).workers
    ensures forall i :: |p.workers| <= i < |Replenish(cfg, p).workers| ==>
              IsReady(Replenish(cfg, p).workers[i]) && Replenish(cfg, p).workers[i].id >= p.spawned
    decreases cfg.min - |p.workers|
  {
    if |p.workers| < cfg.min && |p.workers| < cfg.max {
      TotalLoadPush(p.workers, NewWorker(p.spawned), id);
      ReplenishKeeps(cfg, Spawn(p), id);
    }
  }

  /**
    After a cleanup tick no finished worker is left, the others stand in their old
    order, and fresh ones have been added until there are min - but never past max.
    */
  lemma TickRenews(cfg: Config, p: Pool)
    requires WorkersOk(p.workers)
    ensures var ws, kept := Tick(cfg, p).workers, Retain(p.workers);
            && kept <= ws && |ws| == Max(|kept|, Min(cfg.min, cfg.max))
            && (forall w :: w in kept <==> w in p.workers && !w.finished)
            && (forall i :: |kept| <= i < |ws| ==> IsReady(ws[i]) && ws[i].id >= p.spawned)
            && (forall i :: 0 <= i < |ws| ==> !ws[i].finished)
  {
    RetainOk(p.workers);
    RetainMembers(p.workers);
    ReplenishKeeps(cfg, p.(workers := Retain(p.workers)), 0);
    forall i | 0 <= i < |Retain(p.workers)|
      ensures !Retain(p.workers)[i].finished
    {
      assert Retain(p.workers)[i] in Retain(p.workers);
    }
  }

  lemma DispatchPlaces(p: Pool, r: Id, id: Id)
    requires WorkersOk(p.workers)
    ensures Places(Dispatch(p, r), id) == Places(p, id) + if id == r then 1 else 0
  {
    if p.workers != [] {
      var slot := p.next % |p.workers|;
      var w := p.workers[slot];
      assert WorkerOk(w);
      if w.alive {
        TotalLoadUpdate(p.workers, slot, w.(queue := w.queue + [r]), id);
      } else {
        TotalLoadSwapRemove(p.workers, slot, id);
      }
    }
  }

  lemma DispatchOk(p: Pool, id: Id)
    requires WorkersOk(p.workers)
    ensures WorkersOk(Dispatch(p, id).workers)
  {
  }

  lemma ReceivePlaces(cfg: Config, p: Pool, r: Id, backlog: nat, id: Id)
    requires WorkersOk(p.workers)
    ensures Places(Receive(cfg, p, r, backlog), id) == Places(p, id) + if id == r then 1 else 0
  {
    TotalLoadPush(p.workers, NewWorker(p.spawned), id);
    DispatchPlaces(if Inflates(cfg, p, backlog) then Spawn(p) else p, r, id);
  }

  lemma TickPlaces(cfg: Config, p: Pool, id: Id)
    requires WorkersOk(p.workers)
    ensures Places(Tick(cfg, p), id) == Places(p, id)
  {
    RetainLoad(p.workers, id);
    RetainOk(p.workers);
    ReplenishKeeps(cfg, p.(workers := Retain(p.workers)), id);
  }

  lemma TakePlaces(cfg: Config, p: Pool, i: nat, id: Id)
    requires Enabled(p, Take(i))
    ensures Places(Step(cfg, p, Take(i)), id) == Places(p, id)
  {
    var w := p.workers[i];
    assert w.queue == [w.queue[0]] + w.queue[1..];
    OccursConcat([w.queue[0]], w.queue[1..], id);
    TotalLoadUpdate(p.workers, i, w.(queue := w.queue[1..], executing := Some(w.queue[0])), id);
  }

  lemma DiePlaces(cfg: Config, p: Pool, i: nat, id: Id)
    requires Enabled(p, Die(i))
    ensures Places(Step(cfg, p, Die(i)), id) == Places(p, id)
  {
    var w := p.workers[i];
    TotalLoadUpdate(p.workers, i, w.(queue := [], executing := None, alive := false), id);
    OccursConcat(p.dropped + Executing(w), w.queue, id);
    OccursConcat(p.dropped, Executing(w), id);
  }

  /** No step of the dispatcher or of a worker loses or duplicates a request. */
  lemma StepPlaces(cfg: Config, p: Pool, a: Action, id: Id)
    requires WorkersOk(p.workers) && Enabled(p, a)
    ensures Places(Step(cfg, p, a), id) == Places(p, id) + if a.ReceiveRequest? && a.id == id then 1 else 0
  {
    match a
    case ReceiveRequest(r, backlog) => ReceivePlaces(cfg, p, r, backlog, id);
    case CleanupTick => TickPlaces(cfg, p, id);
    case Take(i) => TakePlaces(cfg, p, i, id);
    case Finish(i, r) => TotalLoadUpdate(p.workers, i, p.workers[i].(executing := None), id);
    case Die(i) => DiePlaces(cfg, p, i, id);
    case Join(i) => TotalLoadUpdate(p.workers, i, p.workers[i].(finished := true), id);
  }

  lemma StepWorkersOk(cfg: Config, p: Pool, a: Action)
    requires WorkersOk(p.workers) && Enabled(p, a)
    ensures WorkersOk(Step(cfg, p, a).workers)
  {
    match a
    case ReceiveRequest(r, backlog) => DispatchOk(if Inflates(cfg, p, backlog) then Spawn(p) else p, r);
    case CleanupTick =>
      RetainOk(p.workers);
      ReplenishKeeps(cfg, p.(workers := Retain(p.workers)), 0);
    case _ =>
  }

  lemma StepReceived(cfg: Config, p: Pool, a: Action)
    requires WorkersOk(p.workers) && Enabled(p, a)
    ensures Step(cfg, p, a).received == p.received + if a.ReceiveRequest? then [a.id] else []
  {
    if a.CleanupTick? {
      RetainOk(p.workers);
      ReplenishKeeps(cfg, p.(workers := Retain(p.workers)), 0);
    }
  }

  /** Every received request stays in exactly one place. */
  lemma StepValid(cfg: Config, p: Pool, a: Action)
    requires Valid(p) && Enabled(p, a)
    ensures Valid(Step(cfg, p, a))
  {
    StepWorkersOk(cfg, p, a);
    StepReceived(cfg, p, a);
    forall id: Id
      ensures Places(Step(cfg, p, a), id) == if id in Step(cfg, p, a).received then 1 else 0
    {
      StepPlaces(cfg, p, a, id);
    }
  }

  lemma StepGrows(cfg: Config, p: Pool, a: Action)
    requires WorkersOk(p.workers) && Enabled(p, a)
    ensures p.answered <= Step(cfg, p, a).answered && p.dropped <= Step(cfg, p, a).dropped
    ensures Step(cfg, p, a).started == p.started + if a.Take? then [p.workers[a.slot].queue[0]] else []
  {
    if a.CleanupTick? {
      RetainOk(p.workers);
      ReplenishKeeps(cfg, p.(workers := Retain(p.workers)), 0);
    }
  }

  lemma {:induction false} AnswersToMonotone(a: seq<Answer>, b: seq<Answer>, id: Id)
    requires a <= b
    ensures AnswersTo(a, id) <= AnswersTo(b, id)
  {
    if |a| < |b| {
      AnswersToMonotone(a, b[..|b| - 1], id);
    } else {
      assert a == b;
    }
  }

  /** What the workers hold only grows by the request being received. */
  lemma StepLoad(cfg: Config, p: Pool, a: Action, id: Id)
    requires WorkersOk(p.workers) && Enabled(p, a)
    ensures TotalLoad(Step(cfg, p, a).workers, id)
            <= TotalLoad(p.workers, id) + if a.ReceiveRequest? && a.id == id then 1 else 0
  {
    var q := Step(cfg, p, a);
    StepPlaces(cfg, p, a, id);
    StepGrows(cfg, p, a);
    AnswersToMonotone(p.answered, q.answered, id);
    assert q.dropped == p.dropped + q.dropped[|p.dropped|..];
    OccursConcat(p.dropped, q.dropped[|p.dropped|..], id);
  }

  lemma LoadPair(ws: seq<Worker>, i: nat, k: nat, id: Id)
    requires i < |ws| && k < |ws| && i != k
    ensures TotalLoad(ws, id) >= Load(ws[i], id) + Load(ws[k], id)
  {
    var ws' := ws[i := NewWorker(0)];
    TotalLoadUpdate(ws, i, NewWorker(0), id);
    TotalLoadUpdate(ws', k, NewWorker(0), id);
  }

  /** A request waits in some worker's channel. */
  ghost predicate QueuedIn(ws: seq<Worker>, id: Id) {
    exists i :: 0 <= i < |ws| && id in ws[i].queue
  }

  lemma QueuedIsLoad(ws: seq<Worker>, i: nat, id: Id)
    requires i < |ws|
    ensures id in ws[i].queue || ws[i].executing == Some(id) ==> TotalLoad(ws, id) >= 1
    ensures id in ws[i].queue && ws[i].executing == Some(id) ==> TotalLoad(ws, id) >= 2
  {
    OccursIff(ws[i].queue, id);
    TotalLoadUpdate(ws, i, ws[i], id);
  }

  /** A request that is being run and held only once is in no channel. */
  lemma ExecutingNotQueued(ws: seq<Worker>, i: nat, id: Id)
    requires i < |ws| && ws[i].executing == Some(id) && TotalLoad(ws, id) <= 1
    ensures !QueuedIn(ws, id)
  {
    forall k | 0 <= k < |ws| && id in ws[k].queue
      ensures false
    {
      OccursIff(ws[k].queue, id);
      if k == i {
        QueuedIsLoad(ws, i, id);
      } else {
        LoadPair(ws, i, k, id);
      }
    }
  }

  lemma {:induction false} RetainQueued(ws: seq<Worker>, id: Id)
    requires QueuedIn(Retain(ws), id)
    ensures QueuedIn(ws, id)
  {
    if ws != [] && !QueuedIn(ws[..1], id) {
      var i :| 0 <= i < |Retain(ws)| && id in Retain(ws)[i].queue;
      if !ws[0].finished {
        assert ws[..1][0] == ws[0];
        assert Retain(ws)[i] == Retain(ws[1..])[i - 1];
      }
      RetainQueued(ws[1..], id);
      var k :| 0 <= k < |ws[1..]| && id in ws[1..][k].queue;
      assert id in ws[k + 1].queue;
    }
  }

  lemma {:induction false} ReplenishQueued(cfg: Config, p: Pool, id: Id)
    requires QueuedIn(Replenish(cfg, p).workers, id)
    ensures QueuedIn(p.workers, id)
    decreases cfg.min - |p.workers|
  {
    if |p.workers| < cfg.min && |p.workers| < cfg.max {
      ReplenishQueued(cfg, Spawn(p), id);
      var k :| 0 <= k < |Spawn(p).workers| && id in Spawn(p).workers[k].queue;
      assert id in p.workers[k].queue;
    }
  }

  lemma DispatchQueued(p: Pool, r: Id, id: Id)
    requires QueuedIn(Dispatch(p, r).workers, id)
    ensures QueuedIn(p.workers, id) || id == r
  {
    var ws := Dispatch(p, r).workers;
    var k :| 0 <= k < |ws| && id in ws[k].queue;
    if p.workers != [] && id != r {
      var slot := p.next % |p.workers|;
      var from := if k == slot && !p.workers[slot].alive then |p.workers| - 1 else k;
      assert id in p.workers[from].queue;
    }
  }

  /** Only a receive can put a request into a worker's channel. */
  lemma StepQueued(cfg: Config, p: Pool, a: Action, id: Id)
    requires Enabled(p, a) && QueuedIn(Step(cfg, p, a).workers, id)
    ensures QueuedIn(p.workers, id) || (a.ReceiveRequest? && a.id == id)
  {
    match a
    case ReceiveRequest(r, backlog) =>
      var p' := if Inflates(cfg, p, backlog) then Spawn(p) else p;
      DispatchQueued(p', r, id);
      if QueuedIn(p'.workers, id) {
        var k :| 0 <= k < |p'.workers| && id in p'.workers[k].queue;
        assert id in p.workers[k].queue;
      }
    case CleanupTick =>
      ReplenishQueued(cfg, p.(workers := Retain(p.workers)), id);
      RetainQueued(p.workers, id);
    case _ =>
      var ws := Step(cfg, p, a).workers;
      var k :| 0 <= k < |ws| && id in ws[k].queue;
      assert id in p.workers[k].queue;
  }

  // ---------------------------------------------------------------------
  // Pool size, and whole runs
  // ---------------------------------------------------------------------

  lemma {:induction false} SpawnManyValid(p: Pool, n: nat)
    requires Valid(p)
    ensures Valid(SpawnMany(p, n)) && |SpawnMany(p, n).workers| == |p.workers| + n
    decreases n
  {
    if n > 0 {
      forall id: Id
        ensures Places(Spawn(p), id) == if id in Spawn(p).received then 1 else 0
      {
        TotalLoadPush(p.workers, NewWorker(p.spawned), id);
      }
      SpawnManyValid(Spawn(p), n - 1);
    }
  }

  lemma InitialValid(cfg: Config)
    ensures Valid(InitialPool(cfg)) && |InitialPool(cfg).workers| == cfg.min
    ensures forall i :: 0 <= i < cfg.min ==> IsReady(InitialPool(cfg).workers[i])
  {
    SpawnManyReady(EMPTY, cfg.min);
    assert Valid(EMPTY);
    SpawnManyValid(EMPTY, cfg.min);
  }

  /**
    How the size of the pool changes: a receive behind more than five requests adds
    a worker below `max`, and a request that meets a dead worker costs that worker;
    a tick leaves the unfinished ones, topped up to min(min, max).
    */
  lemma StepSize(cfg: Config, p: Pool, a: Action)
    requires WorkersOk(p.workers) && Enabled(p, a)
    ensures var q := Step(cfg, p, a);
            var n, n' := |p.workers|, |q.workers|;
            match a
            case ReceiveRequest(_, backlog) =>
              n' + |q.dropped| - |p.dropped| == n + if backlog > 5 && n < cfg.max then 1 else 0
            case CleanupTick =>
              && Min(cfg.min, cfg.max) <= n' <= Max(n, Min(cfg.min, cfg.max))
              && forall i :: 0 <= i < n' ==> !q.workers[i].finished
            case _ => n' == n
  {
    if a.CleanupTick? {
      RetainOk(p.workers);
      TickRenews(cfg, p);
    }
  }

  /**
    The dispatcher with an arbitrary producer and arbitrarily dying workers: in
    every state of every run each received request is in exactly one place, and
    the pool stays within its bounds; after each tick no finished worker is left,
    and at least min(min, max) unfinished ones exist.
    */
  lemma {:induction false} RunsConserveRequests(cfg: Config, states: seq<Pool>, actions: seq<Action>, k: nat)
    requires IsRun(cfg, states, actions) && states[0] == InitialPool(cfg) && k < |states|
    ensures Valid(states[k])
    ensures |states[k].workers| <= Max(cfg.min, cfg.max)
    ensures k > 0 && actions[k - 1].CleanupTick? ==>
              && |states[k].workers| >= Min(cfg.min, cfg.max)
              && forall i :: 0 <= i < |states[k].workers| ==> !states[k].workers[i].finished
  {
    if k == 0 {
      InitialValid(cfg);
    } else {
      RunsConserveRequests(cfg, states, actions, k - 1);
      StepValid(cfg, states[k - 1], actions[k - 1]);
      StepSize(cfg, states[k - 1], actions[k - 1]);
    }
  }

  /** Start-up gives `min` workers, each ready for its first request. */
  lemma {:induction false} SpawnManyReady(p: Pool, n: nat)
    ensures var ws := SpawnMany(p, n).workers;
            && p.workers <= ws && |ws| == |p.workers| + n
            && forall i :: |p.workers| <= i < |ws| ==> IsReady(ws[i])
    decreases n
  {
    if n > 0 {
      SpawnManyReady(Spawn(p), n - 1);
    }
  }

  /** The requests a worker holds, in the order in which it deals with them. */
  function Line(w: Worker): seq<Id> {
    Executing(w) + w.queue
  }

  /**
    Every worker serves first come, first served: a request joins the end of one
    line; what is started, and then answered with the call's own result, is the
    front of a line; and a worker that dies drops its whole line.
    */
  lemma WorkersServeInOrder(cfg: Config, p: Pool, a: Action, i: nat)
    requires WorkersOk(p.workers) && Enabled(p, a) && i < |p.workers| && |Step(cfg, p, a).workers| == |p.workers|
    requires !a.CleanupTick? && (a.ReceiveRequest? ==> a.backlog <= 5)
    ensures var q := Step(cfg, p, a);
            var line, line' := Line(p.workers[i]), Line(q.workers[i]);
            match a
            case ReceiveRequest(id, _) =>
              if i == p.next % |p.workers| then line' == line + [id] && q.targets == p.targets + [p.workers[i].id]
              else line' == line
            case Take(k) => line' == line && (k == i ==> line != [] && q.started == p.started + [line[0]])
            case Finish(k, r) =>
              if k == i then line != [] && line' == line[1..] && q.answered == p.answered + [Answer(line[0], r)]
              else line' == line
            case Die(k) => if k == i then line' == [] && q.dropped == p.dropped + line else line' == line
            case Join(_) => line' == line
  {
    assert WorkerOk(p.workers[i]);
    if a.Take? && a.slot == i {
      assert [p.workers[i].queue[0]] + p.workers[i].queue[1..] == p.workers[i].queue;
    }
  }

  /** With no worker at all, and none added, the caller is told so. */
  lemma NoWorkersMeansError(cfg: Config, p: Pool, id: Id, backlog: nat)
    requires p.workers == [] && (backlog <= 5 || cfg.max == 0)
    ensures Receive(cfg, p, id, backlog)
         == p.(received := p.received + [id], answered := p.answered + [Answer(id, Failure("no workers available"))])
  {
  }

  /**
    A request that meets a dead worker is lost with it; the last worker moves into
    the free slot and gets the next request, or the first one if the slot was last.
    */
  lemma DeadWorkerIsReplaced(cfg: Config, p: Pool, a: Id, b: Id)
    requires |p.workers| > 1 && !p.workers[p.next % |p.workers|].alive
    requires var slot, last := p.next % |p.workers|, |p.workers| - 1;
             p.workers[if slot == last then 0 else last].alive
    ensures var slot, last := p.next % |p.workers|, |p.workers| - 1;
            var q := Receive(cfg, Receive(cfg, p, a, 0), b, 0);
            && q.dropped == p.dropped + [a] && |q.workers| == last
            && q.targets == p.targets + [p.workers[if slot == last then 0 else last].id]
            && forall i :: 0 <= i < last && i != slot ==> q.workers[i].id == p.workers[i].id
  {
    var n, slot := |p.workers|, p.next % |p.workers|;
    var p1 := Receive(cfg, p, a, 0);
    assert |p1.workers| == n - 1 && p1.next == slot;
    if slot < n - 1 {
      DivModUnique(slot, n - 1, 0, slot);
    } else {
      DivModUnique(slot, n - 1, 1, 0);
    }
  }

  // ---------------------------------------------------------------------
  // Round-robin fairness
  // ---------------------------------------------------------------------

  function Ids(ws: seq<Worker>): seq<nat> {
    seq(|ws|, i requires 0 <= i < |ws| => ws[i].id)
  }

  ghost predicate Distinct(ids: seq<nat>) {
    forall i, j :: 0 <= i < j < |ids| ==> ids[i] != ids[j]
  }

  ghost predicate Fresh(ws: seq<Worker>, bound: nat) {
    forall i :: 0 <= i < |ws| ==> ws[i].id < bound
  }

  /** Growing the pool always shows: the new worker's id was never used before. */
  lemma InflationChangesIds(cfg: Config, p: Pool, id: Id, backlog: nat)
    requires Fresh(p.workers, p.spawned) && Inflates(cfg, p, backlog)
    ensures Ids(Receive(cfg, p, id, backlog).workers) != Ids(p.workers)
  {
    var ws := p.workers + [NewWorker(p.spawned)];
    var slot := p.next % |ws|;
    var ws' := Receive(cfg, p, id, backlog).workers;
    if !ws[slot].alive {
      assert ws'[slot].id == p.spawned != p.workers[slot].id;
      assert Ids(ws')[slot] != Ids(p.workers)[slot];
    } else {
      assert |Ids(ws')| != |Ids(p.workers)|;
    }
  }

  /**
    A receive that leaves the vector of workers as it was has queued its request
    on the worker that `next` pointed at; no other step touches the rotation.
    */
  lemma StepRotates(cfg: Config, p: Pool, a: Action)
    requires WorkersOk(p.workers) && Fresh(p.workers, p.spawned) && Enabled(p, a) && p.workers != []
    requires Ids(Step(cfg, p, a).workers) == Ids(p.workers)
    ensures var q := Step(cfg, p, a);
            var slot := p.next % |p.workers|;
            if a.ReceiveRequest? then q.targets == p.targets + [Ids(p.workers)[slot]] && q.next == slot + 1
            else q.targets == p.targets && q.next == p.next
  {
    assert |Ids(Step(cfg, p, a).workers)| == |Ids(p.workers)|;
    if a.CleanupTick? {
      RetainOk(p.workers);
      ReplenishKeeps(cfg, p.(workers := Retain(p.workers)), 0);
    } else if a.ReceiveRequest? && Inflates(cfg, p, a.backlog) {
      InflationChangesIds(cfg, p, a.id, a.backlog);
    }
  }

  function NextSlot(slot: nat, n: nat): nat {
    if slot + 1 == n then 0 else slot + 1
  }

  function SlotAfter(slot: nat, n: nat, turns: nat): (slot': nat)
    requires slot < n
    ensures slot' < n
  {
    if turns == 0 then slot else NextSlot(SlotAfter(slot, n, turns - 1), n)
  }

  /** The targets of `turns` turns of a round robin over `ids` that begins at `slot`. */
  function Rotation(ids: seq<nat>, slot: nat, turns: nat): seq<nat>
    requires slot < |ids|
  {
    if turns == 0 then []
    else Rotation(ids, slot, turns - 1) + [ids[SlotAfter(slot, |ids|, turns - 1)]]
  }

  lemma {:induction false} SlotAfterFront(slot: nat, n: nat, turns: nat)
    requires slot < n && turns > 0
    ensures SlotAfter(slot, n, turns) == SlotAfter(NextSlot(slot, n), n, turns - 1)
  {
    if turns > 1 {
      SlotAfterFront(slot, n, turns - 1);
    }
  }

  lemma {:induction false} RotationFront(ids: seq<nat>, slot: nat, turns: nat)
    requires slot < |ids| && turns > 0
    ensures Rotation(ids, slot, turns) == [ids[slot]] + Rotation(ids, NextSlot(slot, |ids|), turns - 1)
  {
    if turns > 1 {
      RotationFront(ids, slot, turns - 1);
      SlotAfterFront(slot, |ids|, turns - 1);
    }
  }

  /** How often a slot that is `d` turns away comes up in `k` turns over `n` slots. */
  function Share(k: nat, d: nat, n: nat): nat
    requires n > 0
  {
    if k <= d then 0 else 1 + (k - 1 - d) / n
  }

  lemma ShareAfterVisit(k: nat, n: nat)
    requires k > 0 && n > 0
    ensures Share(k, 0, n) == 1 + Share(k - 1, n - 1, n)
  {
    var q, r := (k - 1) / n, (k - 1) % n;
    if k - 1 < n {
      DivModUnique(k - 1, n, 0, k - 1);
    } else {
      assert n * (q - 1) == n * q - n;
      DivModUnique(k - 1 - n, n, q - 1, r);
    }
  }

  lemma ShareIsBalanced(k: nat, d: nat, n: nat)
    requires d < n
    ensures Share(k, d, n) == k / n || (Share(k, d, n) == k / n + 1 && k % n != 0)
  {
    var q, r := k / n, k % n;
    if k <= d {
      DivModUnique(k, n, 0, k);
    } else if r > d {
      DivModUnique(k - 1 - d, n, q, r - 1 - d);
    } else {
      assert n * (q - 1) == n * q - n;
      DivModUnique(k - 1 - d, n, q - 1, n + r - 1 - d);
    }
  }

  function Distance(slot: nat, j: nat, n: nat): nat
    requires slot < n && j < n
  {
    if slot <= j then j - slot else j + n - slot
  }

  lemma ShareStep(slot: nat, j: nat, k: nat, n: nat)
    requires slot < n && j < n && k > 0
    ensures Share(k, Distance(slot, j, n), n)
            == Share(k - 1, Distance(NextSlot(slot, n), j, n), n) + if slot == j then 1 else 0
  {
    if slot == j {
      ShareAfterVisit(k, n);
    }
  }

  lemma RotationFirst(ids: seq<nat>, slot: nat, k: nat, j: nat)
    requires Distinct(ids) && slot < |ids| && j < |ids| && k > 0
    ensures Occurs(Rotation(ids, slot, k), ids[j])
            == Occurs(Rotation(ids, NextSlot(slot, |ids|), k - 1), ids[j]) + if slot == j then 1 else 0
  {
    var rest := Rotation(ids, NextSlot(slot, |ids|), k - 1);
    RotationFront(ids, slot, k);
    OccursConcat([ids[slot]], rest, ids[j]);
    assert Occurs([ids[slot]], ids[j]) == if slot == j then 1 else 0;
  }

  lemma {:induction false} RotationShare(ids: seq<nat>, slot: nat, k: nat, j: nat)
    requires Distinct(ids) && slot < |ids| && j < |ids|
    ensures Occurs(Rotation(ids, slot, k), ids[j]) == Share(k, Distance(slot, j, |ids|), |ids|)
    decreases k
  {
    if k > 0 {
      RotationFirst(ids, slot, k, j);
      RotationShare(ids, NextSlot(slot, |ids|), k - 1, j);
      ShareStep(slot, j, k, |ids|);
    }
  }

  function Receives(actions: seq<Action>): nat {
    if actions == [] then 0
    else Receives(actions[..|actions| - 1]) + if actions[|actions| - 1].ReceiveRequest? then 1 else 0
  }

  lemma ReceivesSnoc(actions: seq<Action>, lo: nat, hi: nat)
    requires lo < hi <= |actions|
    ensures Receives(actions[lo..hi])
         == Receives(actions[lo..hi - 1]) + if actions[hi - 1].ReceiveRequest? then 1 else 0
  {
    assert actions[lo..hi][..hi - lo - 1] == actions[lo..hi - 1];
  }

  /** No two workers share an id, and the next id is unused: the vector's ids identify its workers. */
  ghost predicate IdsOk(p: Pool) {
    Fresh(p.workers, p.spawned) && Distinct(Ids(p.workers))
  }

  lemma {:induction false} RetainIds(ws: seq<Worker>, bound: nat)
    requires Fresh(ws, bound) && Distinct(Ids(ws))
    ensures Fresh(Retain(ws), bound) && Distinct(Ids(Retain(ws)))
    ensures forall id :: id in Ids(Retain(ws)) ==> id in Ids(ws)
  {
    if ws != [] {
      var ids, tail := Ids(ws), Ids(ws[1..]);
      assert forall i :: 0 <= i < |tail| ==> tail[i] == ids[i + 1];
      RetainIds(ws[1..], bound);
      if !ws[0].finished {
        assert Ids(Retain(ws)) == [ids[0]] + Ids(Retain(ws[1..]));
        assert ids[0] !in tail;
      }
    }
  }

  lemma SpawnIds(p: Pool)
    requires IdsOk(p)
    ensures IdsOk(Spawn(p))
  {
    var ids, ids' := Ids(p.workers), Ids(Spawn(p).workers);
    assert ids' == ids + [p.spawned];
    assert forall i :: 0 <= i < |ids| ==> ids[i] == p.workers[i].id;
  }

  lemma {:induction false} ReplenishIds(cfg: Config, p: Pool)
    requires IdsOk(p)
    ensures IdsOk(Replenish(cfg, p))
    decreases cfg.min - |p.workers|
  {
    if |p.workers| < cfg.min && |p.workers| < cfg.max {
      SpawnIds(p);
      ReplenishIds(cfg, Spawn(p));
    }
  }

  lemma {:induction false} SpawnManyIds(p: Pool, n: nat)
    requires IdsOk(p)
    ensures IdsOk(SpawnMany(p, n))
    decreases n
  {
    if n > 0 {
      SpawnIds(p);
      SpawnManyIds(Spawn(p), n - 1);
    }
  }

  lemma SwapRemoveIds(ws: seq<Worker>, i: nat)
    requires i < |ws| && Distinct(Ids(ws))
    ensures Distinct(Ids(SwapRemove(ws, i)))
  {
    var ids, ids' := Ids(ws), Ids(SwapRemove(ws, i));
    assert ids' == SwapRemove(ids, i);
  }

  lemma DispatchIds(p: Pool, id: Id)
    requires IdsOk(p)
    ensures IdsOk(Dispatch(p, id))
  {
    if p.workers != [] {
      var slot := p.next % |p.workers|;
      SwapRemoveIds(p.workers, slot);
      if p.workers[slot].alive {
        assert Ids(Dispatch(p, id).workers) == Ids(p.workers);
      }
    }
  }

  lemma StepIds(cfg: Config, p: Pool, a: Action)
    requires IdsOk(p) && Enabled(p, a)
    ensures IdsOk(Step(cfg, p, a))
  {
    match a
    case ReceiveRequest(id, backlog) =>
      SpawnIds(p);
      DispatchIds(if Inflates(cfg, p, backlog) then Spawn(p) else p, id);
    case CleanupTick =>
      RetainIds(p.workers, p.spawned);
      ReplenishIds(cfg, p.(workers := Retain(p.workers)));
    case _ =>
      assert Ids(Step(cfg, p, a).workers) == Ids(p.workers);
  }

  lemma {:induction false} RunsKeepIds(cfg: Config, states: seq<Pool>, actions: seq<Action>, k: nat)
    requires IsRun(cfg, states, actions) && states[0] == InitialPool(cfg) && k < |states|
    ensures IdsOk(states[k]) && WorkersOk(states[k].workers)
  {
    RunsConserveRequests(cfg, states, actions, k);
    if k == 0 {
      assert Ids(EMPTY.workers) == [];
      SpawnManyIds(EMPTY, cfg.min);
    } else {
      RunsKeepIds(cfg, states, actions, k - 1);
      StepIds(cfg, states[k - 1], actions[k - 1]);
    }
  }

  /** The vector of workers is the same in all of `states[lo..hi + 1]`. */
  ghost predicate Unchanged(states: seq<Pool>, ids: seq<nat>, lo: nat, hi: nat) {
    && lo <= hi < |states|
    && forall i :: lo <= i <= hi ==> Ids(states[i].workers) == ids
  }

  /** `p` is reached from `base` by `r` turns of the rotation over `ids`. */
  ghost predicate Rotated(base: Pool, p: Pool, ids: seq<nat>, r: nat)
    requires ids != []
  {
    var slot := base.next % |ids|;
    && p.targets == base.targets + Rotation(ids, slot, r)
    && p.next % |ids| == SlotAfter(slot, |ids|, r)
  }

  lemma WrapsAround(slot: nat, n: nat)
    requires slot < n
    ensures (slot + 1) % n == NextSlot(slot, n)
  {
    if slot + 1 == n {
      DivModUnique(n, n, 1, 0);
    } else {
      DivModUnique(slot + 1, n, 0, slot + 1);
    }
  }

  lemma RotationStep(cfg: Config, base: Pool, p: Pool, a: Action, ids: seq<nat>, r: nat)
    requires WorkersOk(p.workers) && Fresh(p.workers, p.spawned) && Enabled(p, a) && ids != []
    requires Ids(p.workers) == Ids(Step(cfg, p, a).workers) == ids
    requires Rotated(base, p, ids, r)
    ensures Rotated(base, Step(cfg, p, a), ids, if a.ReceiveRequest? then r + 1 else r)
  {
    StepRotates(cfg, p, a);
    WrapsAround(p.next % |ids|, |ids|);
  }

  /** Nothing but the rotation decides the targets while the vector of workers is unchanged. */
  lemma {:induction false} RunRotates(
    cfg: Config, states: seq<Pool>, actions: seq<Action>, ids: seq<nat>, lo: nat, hi: nat)
    requires IsRun(cfg, states, actions) && states[0] == InitialPool(cfg)
    requires Unchanged(states, ids, lo, hi) && ids != []
    ensures Rotated(states[lo], states[hi], ids, Receives(actions[lo..hi]))
    decreases hi
  {
    if lo == hi {
      assert actions[lo..hi] == [];
    } else {
      var p, a, r := states[hi - 1], actions[hi - 1], Receives(actions[lo..hi - 1]);
      assert Enabled(p, a) && states[hi] == Step(cfg, p, a);
      RunsKeepIds(cfg, states, actions, hi - 1);
      assert Rotated(states[lo], p, ids, r) by { RunRotates(cfg, states, actions, ids, lo, hi - 1); }
      assert Receives(actions[lo..hi]) == if a.ReceiveRequest? then r + 1 else r by { ReceivesSnoc(actions, lo, hi); }
      RotationStep(cfg, states[lo], p, a, ids, r);
    }
  }

  /**
    Over any stretch of any run in which the set of `n` workers is unchanged -
    whatever else the workers do meanwhile - the `k` requests dispatched give
    each worker floor(k/n) or ceil(k/n) of them.
    */
  lemma RoundRobinIsFair(cfg: Config, states: seq<Pool>, actions: seq<Action>, ids: seq<nat>, lo: nat, hi: nat, j: nat)
    requires IsRun(cfg, states, actions) && states[0] == InitialPool(cfg)
    requires Unchanged(states, ids, lo, hi) && j < |ids|
    ensures var k := Receives(actions[lo..hi]);
            var n := |ids|;
            && states[lo].targets <= states[hi].targets
            && var share := Occurs(states[hi].targets[|states[lo].targets|..], ids[j]);
               share == k / n || (share == k / n + 1 && k % n != 0)
  {
    RunRotates(cfg, states, actions, ids, lo, hi);
    RunsKeepIds(cfg, states, actions, lo);
    var k, slot := Receives(actions[lo..hi]), states[lo].next % |ids|;
    assert states[hi].targets[|states[lo].targets|..] == Rotation(ids, slot, k);
    RotationShare(ids, slot, k, j);
    ShareIsBalanced(k, Distance(slot, j, |ids|), |ids|);
  }

  /**
    A worker that exits - its idle time is over, say - is reported finished and gone
    after the next tick; if the pool then falls short, a fresh one takes its place.
    */
  lemma DeadWorkerGoesAtTick(cfg: Config, p: Pool, i: nat)
    requires WorkersOk(p.workers) && IdsOk(p) && i < |p.workers| && p.workers[i].alive
    ensures Enabled(p, Die(i))
    ensures var dead := Step(cfg, p, Die(i));
            && Enabled(dead, Join(i))
            && var q := Tick(cfg, Step(cfg, dead, Join(i)));
               && |q.workers| >= Min(cfg.min, cfg.max)
               && (forall k :: 0 <= k < |q.workers| ==>
                     q.workers[k].id != p.workers[i].id && (q.workers[k] in p.workers || IsReady(q.workers[k])))
  {
    var w := p.workers[i].(queue := [], executing := None, alive := false, finished := true);
    var joined := Step(cfg, Step(cfg, p, Die(i)), Join(i));
    assert joined.workers == p.workers[i := w];
    assert WorkerOk(w);
    TickRenews(cfg, joined);
    var kept, ws := Retain(joined.workers), Tick(cfg, joined).workers;
    forall k | 0 <= k < |ws|
      ensures ws[k].id != p.workers[i].id && (ws[k] in p.workers || IsReady(ws[k]))
    {
      if k < |kept| {
        assert kept[k] in kept;
        OtherWorkerStays(p, i, w, kept[k]);
      }
    }
  }

  lemma OtherWorkerStays(p: Pool, i: nat, w: Worker, v: Worker)
    requires IdsOk(p) && i < |p.workers| && w.finished && v in p.workers[i := w] && !v.finished
    ensures v in p.workers && v.id != p.workers[i].id
  {
    var j :| 0 <= j < |p.workers| && p.workers[i := w][j] == v;
    assert Ids(p.workers)[j] != Ids(p.workers)[i];
  }

  // ---------------------------------------------------------------------
  // The event loop's mutable state
  // ---------------------------------------------------------------------

  /** `retain` over a vector, element by element. */
  method RetainUnfinished(ws: seq<Worker>) returns (kept: seq<Worker>)
    ensures kept == Retain(ws)
    ensures forall w :: w in kept <==> w in ws && !w.finished
  {
    RetainMembers(ws);
    kept := [];
    for i := 0 to |ws|
      invariant kept + Retain(ws[i..]) == Retain(ws)
    {
      assert ws[i..][1..] == ws[i + 1..];
      if !ws[i].finished {
        kept := kept + [ws[i]];
      }
    }
  }

  /** The locals of `dispatcher_loop`, with the fate of each request as history. */
  class Dispatcher {
    const cfg: Config
    var workers: seq<Worker>
    var next: nat
    var spawned: nat
    ghost var received: seq<Id>
    ghost var targets: seq<nat>
    ghost var started: seq<Id>
    ghost var answered: seq<Answer>
    ghost var dropped: seq<Id>

    ghost function View(): Pool
      reads this
    {
      Pool(workers, next, spawned, received, targets, started, answered, dropped)
    }

    /** Start-up spawns `min` workers whatever `max` says. */
    constructor (cfg: Config)
      ensures this.cfg == cfg && View() == InitialPool(cfg)
    {
      this.cfg := cfg;
      workers, next, spawned := [], 0, 0;
      received, targets, started, answered, dropped := [], [], [], [], [];
      new;
      for i := 0 to cfg.min
        invariant this.cfg == cfg && SpawnMany(View(), cfg.min - i) == InitialPool(cfg)
      {
        SpawnWorker();
      }
    }

    method SpawnWorker()
      modifies `workers, `spawned
      ensures View() == Spawn(old(View()))
    {
      workers := workers + [NewWorker(spawned)];
      spawned := spawned + 1;
    }

    /** The receive branch: inflate on a long backlog, then hand the request to the next worker. */
    method OnRequest(id: Id, backlog: nat)
      modifies this
      ensures View() == Receive(cfg, old(View()), id, backlog)
    {
      received := received + [id];
      if backlog > INFLATE_BACKLOG && |workers| < cfg.max {
        SpawnWorker();
      }
      if workers == [] {
        answered := answered + [Answer(id, Failure("no workers available"))];
        return;
      }
      next := next % |workers|;
      var w := workers[next];
      if !w.alive {
        dropped := dropped + [id];
        workers := SwapRemove(workers, next);
        return;
      }
      targets := targets + [w.id];
      workers := workers[next := w.(queue := w.queue + [id])];
      next := next + 1;
    }

    /** The cleanup branch: forget finished workers, then spawn up to `min`, never past `max`. */
    method OnTick()
      modifies this
      ensures View() == Tick(cfg, old(View()))
      ensures WorkersOk(old(workers)) ==> forall i :: 0 <= i < |workers| ==> !workers[i].finished
    {
      if WorkersOk(workers) {
        TickRenews(cfg, View());
      }
      workers := RetainUnfinished(workers);
      while |workers| < cfg.min && |workers| < cfg.max
        invariant Replenish(cfg, View()) == Tick(cfg, old(View()))
        decreases cfg.min - |workers|
      {
        SpawnWorker();
      }
    }
  }
}
