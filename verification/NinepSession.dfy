/**
  The 9P2000 server as a step machine: any number of connections, each running
  one handler at a time (`run_connection`), all sharing one fid and path table.

  A handler is cut at every point where it gives up the lock or waits for the
  router, so each event below is one lock section or one router answer, and
  handlers of different connections interleave freely between them.
  */
module NinepSession {
  import opened Wrappers
  import opened Bytes
  import opened NinepTable
  import opened NinepMessages

  /** A qid sent to a client, with the path the server issued it for. */
  datatype Report = Report(path: Path, qid: nat)

  datatype Payload =
    | Plain
    | Failed
    | Qids(reports: seq<Report>)
    | Listing(children: map<nat, Path>)

  datatype Reply = Reply(ty: nat, tag: nat, payload: Payload)

  /** What a handler still has to do under the lock once the router has answered. */
  datatype Tail =
    | OnlyReply(ty: byte, payload: Payload)              // read of a file, write, remove, stat, setattr
    | OpenFid(fid: nat)
    | CreateFile(fid: nat, path: Path, isDir: bool)
    | ListDir(path: Path)
    | DropFid(fid: nat)
    | RenameFid(fid: nat, qid: nat, newPath: Path)

  /** The locals of `handle_walk` between two names. */
  datatype WalkState = WalkState(
    newFid: nat, names: seq<Path>, count: nat,
    done: nat, lookedUp: bool,
    path: Path, qid: nat, isDir: bool, reports: seq<Report>)

  datatype Handler =
    | Idle
    | Panicked
    | Awaiting(tail: Tail)     // the router has the request
    | Ready(tail: Tail)        // answered, or no router call needed
    | Walking(walk: WalkState)

  /** One connection: every message it was sent, how many were taken up, and its replies. */
  datatype Conn = Conn(sent: seq<Message>, taken: nat, handler: Handler, outbox: seq<Reply>)

  datatype Server = Server(table: Table, conns: seq<Conn>)

  datatype Event =
    | Deliver(c: nat, message: Message)
    | Begin(c: nat)                      // header and body read; first lock section
    | Routed(c: nat, ok: bool)           // the router answered, refused, or is gone
    | AllocName(c: nat, qid: nat)        // walk: allocate the next name's qid
    | EndWalk(c: nat)                    // walk: bind the new fid, or a name was cut short
    | Commit(c: nat, qid: nat)           // last lock section of the other handlers

  /** The message a connection's handler is working on. */
  function Current(k: Conn): Message
    requires 0 < k.taken <= |k.sent|
  {
    k.sent[k.taken - 1]
  }

  /** `send_reply` with the type constant that the handler passes. */
  function Answer(k: Conn, ty: byte, payload: Payload): Conn
    requires 0 < k.taken <= |k.sent|
  {
    k.(outbox := k.outbox + [Reply(ty, Current(k).tag, payload)], handler := Idle)
  }

  /** `send_error`. */
  function Refuse(k: Conn): Conn
    requires 0 < k.taken <= |k.sent|
  {
    k.(outbox := k.outbox + [Reply(RERROR, Current(k).tag, Failed)], handler := Idle)
  }

  function Await(k: Conn, tail: Tail): Conn {
    k.(handler := Awaiting(tail))
  }

  function BeginWstat(t: Table, k: Conn, fid: nat, args: WstatArgs): Conn
    requires 0 < k.taken <= |k.sent| && fid in t.fids
  {
    var e := t.fids[fid];
    match args
    case TooShort => Refuse(k)
    case Nothing => Answer(k, RWSTAT, Plain)
    case Args(name, attrs) =>
      if name.Some? && IsRename(e.path, name.value)
      then Await(k, RenameFid(fid, e.qid, RenameTarget(e.path, name.value)))
      else if attrs then Await(k, OnlyReply(RWSTAT, Plain))
      else Answer(k, RWSTAT, Plain)
  }

  /** First lock section of the handlers that need a known fid. */
  function BeginWithFid(t: Table, k: Conn, r: Request, e: FidEntry): Conn
    requires 0 < k.taken <= |k.sent| && NeedsFid(r)
  {
    match r
    case Walk(_, newFid, names, count) =>
      k.(handler := Walking(WalkState(newFid, names, count, 0, false, e.path, e.qid, e.isDir, [])))
    case Open(fid) => Await(k, OpenFid(fid))
    case Create(fid, name, isDir) => Await(k, CreateFile(fid, Join(e.path, name), isDir))
    case Read(_, _) => Await(k, if e.isDir then ListDir(e.path) else OnlyReply(RREAD, Plain))
    case Write(_, _, _, _) => Await(k, OnlyReply(RWRITE, Plain))
    case Remove(_) => Await(k, OnlyReply(RREMOVE, Plain))
    case Stat(_) => Await(k, OnlyReply(RSTAT, Qids([Report(e.path, e.qid)])))
  }

  predicate NeedsFid(r: Request) {
    r.Walk? || r.Open? || r.Create? || r.Read? || r.Write? || r.Remove? || r.Stat?
  }

  function BeginRequest(t: Table, k: Conn, r: Request): (Table, Conn)
    requires 0 < k.taken <= |k.sent|
  {
    match r
    case Version(_) => (t, Answer(k, RVERSION, Plain))
    case Flush => (t, Answer(k, RFLUSH, Plain))
    case Attach(fid) => (SetFid(t, fid, 0, ROOT, true), Answer(k, RATTACH, Qids([Report(ROOT, 0)])))
    case Clunk(fid) => (t, k.(handler := if fid in t.fids then Awaiting(DropFid(fid)) else Ready(DropFid(fid))))
    case Wstat(fid, args) => (t, if fid in t.fids then BeginWstat(t, k, fid, args) else Refuse(k))
    case _ => (t, if r.fid in t.fids then BeginWithFid(t, k, r, t.fids[r.fid]) else Refuse(k))
  }

  /** Direct children of a directory, as the listing loop finds them in the path table. */
  predicate IsChild(dir: Path, path: Path) {
    var prefix := Join(dir, []);
    path != dir && prefix <= path && SLASH !in path[|prefix|..]
  }

  /** A direct child is the directory's path with one more name, which has no slash. */
  lemma ChildIsJoin(dir: Path, path: Path)
    ensures IsChild(dir, path) <==> path != dir && exists name :: SLASH !in name && path == Join(dir, name)
  {
    var prefix := Join(dir, []);
    if IsChild(dir, path) {
      var rest := path[|prefix|..];
      assert path == prefix + rest;
      assert SLASH !in rest && path == Join(dir, rest);
    }
    if name :| SLASH !in name && path == Join(dir, name) {
      assert path == prefix + name;
      assert path[|prefix|..] == name;
    }
  }

  function Children(t: Table, dir: Path): map<nat, Path> {
    map q | q in t.paths && IsChild(dir, t.paths[q].path) :: t.paths[q].path
  }

  function CommitTail(t: Table, k: Conn, tail: Tail, qid: nat): (Table, Conn)
    requires 0 < k.taken <= |k.sent|
  {
    match tail
    case OnlyReply(ty, payload) => (t, Answer(k, ty, payload))
    case OpenFid(fid) => (MarkOpen(t, fid), Answer(k, ROPEN, Plain))
    case CreateFile(fid, path, isDir) =>
      (CommitCreate(t, fid, qid, path, isDir), Answer(k, RCREATE, Qids([Report(path, qid)])))
    case ListDir(path) => (t, Answer(k, RREAD, Listing(Children(t, path))))
    case DropFid(fid) => (RemoveFid(t, fid), Answer(k, RCLUNK, Plain))
    case RenameFid(fid, q, newPath) => (CommitRename(t, fid, q, newPath), Answer(k, RWSTAT, Plain))
  }

  /** The router is asked only about the last name of a walk. */
  predicate NeedsLookup(w: WalkState) {
    w.done < |w.names| && w.done + 1 == w.count && !w.lookedUp
  }

  predicate IsSpecial(name: Path) {
    name == [] || name == [DOT] || name == [DOT, DOT]
  }

  predicate CanHappen(s: Server, e: Event) {
    && e.c < |s.conns|
    && var k := s.conns[e.c];
       k.taken <= |k.sent| && (!k.handler.Idle? ==> k.taken > 0) &&
       match e
       case Deliver(_, _) => true
       case Begin(_) => k.handler.Idle? && k.taken < |k.sent|
       case Routed(_, _) => k.handler.Awaiting? || (k.handler.Walking? && NeedsLookup(k.handler.walk))
       case AllocName(_, q) =>
         && k.handler.Walking?
         && var w := k.handler.walk;
            w.done < |w.names| && w.done < w.count && !NeedsLookup(w) &&
            IsQidFor(s.table, Join(w.path, w.names[w.done]), q)
       case EndWalk(_) =>
         k.handler.Walking? && var w := k.handler.walk; w.done == w.count || w.done >= |w.names|
       case Commit(_, q) =>
         k.handler.Ready? && (k.handler.tail.CreateFile? ==> IsQidFor(s.table, k.handler.tail.path, q))
  }

  function Update(s: Server, c: nat, t: Table, k: Conn): Server
    requires c < |s.conns|
  {
    Server(t, s.conns[c := k])
  }

  function WalkOn(w: WalkState, q: nat): WalkState
    requires w.done < |w.names|
  {
    var name := w.names[w.done];
    var path := Join(w.path, name);
    w.(done := w.done + 1, lookedUp := false, path := path, qid := q, isDir := IsSpecial(name),
       reports := w.reports + [Report(path, q)])
  }

  function BeginParsed(t: Table, k: Conn, parsed: Parsed): (Table, Conn)
    requires 0 < k.taken <= |k.sent|
  {
    match parsed
    case Panics => (t, k.(handler := Panicked))
    case Malformed => (t, Refuse(k))
    case Parsed(r) => BeginRequest(t, k, r)
  }

  /** Taking up the next message: parse it and run its first lock section. */
  function Take(t: Table, k: Conn): (Table, Conn)
    requires k.taken < |k.sent|
  {
    var k' := k.(taken := k.taken + 1);
    BeginParsed(t, k', ParseMessage(Current(k')))
  }

  function Happen(s: Server, e: Event): Server
    requires CanHappen(s, e)
  {
    var k := s.conns[e.c];
    match e
    case Deliver(c, m) => Update(s, c, s.table, k.(sent := k.sent + [m]))
    case Begin(c) => var (t, k') := Take(s.table, k); Update(s, c, t, k')
    case Routed(c, ok) =>
      Update(s, c, s.table,
        if k.handler.Walking? then
          (if ok then k.(handler := Walking(k.handler.walk.(lookedUp := true))) else Refuse(k))
        else if ok || k.handler.tail.DropFid? then k.(handler := Ready(k.handler.tail))
        else Refuse(k))
    case AllocName(c, q) =>
      var w := k.handler.walk;
      Update(s, c, Alloc(s.table, Join(w.path, w.names[w.done]), IsSpecial(w.names[w.done])),
             k.(handler := Walking(WalkOn(w, q))))
    case EndWalk(c) =>
      var w := k.handler.walk;
      if w.done == w.count
      then Update(s, c, SetFid(s.table, w.newFid, w.qid, w.path, w.isDir), Answer(k, RWALK, Qids(w.reports)))
      else Update(s, c, s.table, Refuse(k))
    case Commit(c, q) => var (t, k') := CommitTail(s.table, k, k.handler.tail, q); Update(s, c, t, k')
  }

  function NewConn(): Conn {
    Conn([], 0, Idle, [])
  }

  /** A run of a fresh server with `|states[0].conns|` connections. */
  ghost predicate IsRun(states: seq<Server>, events: seq<Event>) {
    && |states| == |events| + 1
    && states[0].table == INITIAL
    && (forall c :: 0 <= c < |states[0].conns| ==> states[0].conns[c] == NewConn())
    && forall i {:trigger events[i]} :: 0 <= i < |events| ==>
         CanHappen(states[i], events[i]) && states[i + 1] == Happen(states[i], events[i])
  }

  // ---------------------------------------------------------------------
  // Replies: one per request, in order, with the request's tag
  // ---------------------------------------------------------------------

  predicate Matches(r: Reply, m: Message) {
    r.tag == m.tag && (r.ty == m.ty + 1 || (r.ty == RERROR && r.payload.Failed?))
  }

  /** A walk stops at the last name it was given, or where its names were cut short. */
  predicate WalkOk(w: WalkState) {
    w.done <= |w.names| <= w.count
  }

  /** The request that a handler with this much left to do was started by. */
  predicate TailFor(tail: Tail, r: Request) {
    match tail
    case OnlyReply(ty, _) => ty == TypeOf(r) + 1 && (r.Read? || r.Write? || r.Remove? || r.Stat? || r.Wstat?)
    case OpenFid(fid) => r == Open(fid)
    case CreateFile(fid, _, isDir) => r.Create? && r.fid == fid && r.isDir == isDir
    case ListDir(_) => r.Read?
    case DropFid(fid) => r == Clunk(fid)
    case RenameFid(fid, _, _) => r.Wstat? && r.fid == fid
  }

  ghost predicate HandlerFor(h: Handler, parsed: Parsed) {
    match h
    case Idle => true
    case Panicked => parsed.Panics?
    case Awaiting(tail) => parsed.Parsed? && TailFor(tail, parsed.request)
    case Ready(tail) => parsed.Parsed? && TailFor(tail, parsed.request)
    case Walking(w) =>
      && WalkOk(w) && parsed.Parsed? && parsed.request.Walk?
      && w.newFid == parsed.request.newFid && w.names == parsed.request.names && w.count == parsed.request.count
  }

  function ParseMessage(m: Message): Parsed {
    Parse(m.ty, m.body)
  }

  /** Every message taken up has its reply, except the one still being handled. */
  ghost predicate RepliesOk(k: Conn) {
    && k.taken <= |k.sent|
    && |k.outbox| + (if k.handler.Idle? then 0 else 1) == k.taken
    && (forall i :: 0 <= i < |k.outbox| ==> Matches(k.outbox[i], k.sent[i]))
    && (!k.handler.Idle? ==> HandlerFor(k.handler, ParseMessage(Current(k))))
  }

  lemma AnswerOk(k: Conn, ty: byte, payload: Payload)
    requires 0 < k.taken <= |k.sent| && |k.outbox| + 1 == k.taken && ty == Current(k).ty + 1
    requires forall i :: 0 <= i < |k.outbox| ==> Matches(k.outbox[i], k.sent[i])
    ensures RepliesOk(Answer(k, ty, payload))
  {
  }

  lemma RefuseOk(k: Conn)
    requires 0 < k.taken <= |k.sent| && |k.outbox| + 1 == k.taken
    requires forall i :: 0 <= i < |k.outbox| ==> Matches(k.outbox[i], k.sent[i])
    ensures RepliesOk(Refuse(k))
  {
  }

  lemma {:induction false} ParseNamesCount(body: seq<byte>, at: nat, count: nat)
    requires at <= |body|
    ensures |ParseNames(body, at, count)| <= count
    decreases count
  {
    if count > 0 && at + 2 <= |body| && at + 2 + Field(body, at, 2) <= |body| {
      ParseNamesCount(body, at + 2 + Field(body, at, 2), count - 1);
    }
  }

  lemma ParsedWalkOk(ty: byte, body: seq<byte>)
    requires Parse(ty, body).Parsed? && Parse(ty, body).request.Walk?
    ensures |Parse(ty, body).request.names| <= Parse(ty, body).request.count
  {
    assert ty == TWALK;
    ParseNamesCount(body, 10, Field(body, 8, 2));
  }

  /** All of `RepliesOk` but what concerns the handler, for a connection that owes one reply. */
  ghost predicate OwesOne(k: Conn) {
    && 0 < k.taken <= |k.sent| && |k.outbox| + 1 == k.taken
    && forall i :: 0 <= i < |k.outbox| ==> Matches(k.outbox[i], k.sent[i])
  }

  lemma BeginWstatRepliesOk(t: Table, k: Conn, fid: nat, args: WstatArgs)
    requires OwesOne(k) && ParseMessage(Current(k)) == Parsed(Wstat(fid, args)) && fid in t.fids
    requires Current(k).ty == TWSTAT
    ensures RepliesOk(BeginWstat(t, k, fid, args))
  {
    AnswerOk(k, RWSTAT, Plain);
    RefuseOk(k);
  }

  lemma BeginRepliesOk(t: Table, k: Conn, r: Request)
    requires OwesOne(k) && ParseMessage(Current(k)) == Parsed(r) && Current(k).ty == TypeOf(r)
    requires r.Walk? ==> |r.names| <= r.count
    ensures RepliesOk(BeginRequest(t, k, r).1)
  {
    RefuseOk(k);
    match r
    case Version(_) => AnswerOk(k, RVERSION, Plain);
    case Flush => AnswerOk(k, RFLUSH, Plain);
    case Attach(_) => AnswerOk(k, RATTACH, Qids([Report(ROOT, 0)]));
    case Wstat(fid, args) =>
      if fid in t.fids {
        BeginWstatRepliesOk(t, k, fid, args);
      }
    case _ =>
  }

  lemma BeginParsedRepliesOk(t: Table, k: Conn, parsed: Parsed)
    requires OwesOne(k) && parsed == ParseMessage(Current(k))
    ensures RepliesOk(BeginParsed(t, k, parsed).1)
  {
    if parsed.Parsed? {
      ParsedType(Current(k).ty, Current(k).body);
      if parsed.request.Walk? {
        ParsedWalkOk(Current(k).ty, Current(k).body);
      }
      BeginRepliesOk(t, k, parsed.request);
    } else {
      RefuseOk(k);
    }
  }

  lemma TakeRepliesOk(t: Table, k: Conn)
    requires RepliesOk(k) && k.handler.Idle? && k.taken < |k.sent|
    ensures RepliesOk(Take(t, k).1)
  {
    var k' := k.(taken := k.taken + 1);
    BeginParsedRepliesOk(t, k', ParseMessage(Current(k')));
  }

  lemma CommitRepliesOk(t: Table, k: Conn, q: nat)
    requires RepliesOk(k) && k.handler.Ready? && k.taken > 0
    ensures RepliesOk(CommitTail(t, k, k.handler.tail, q).1)
  {
    ParsedType(Current(k).ty, Current(k).body);
    match k.handler.tail
    case OnlyReply(ty, payload) => AnswerOk(k, ty, payload);
    case OpenFid(_) => AnswerOk(k, ROPEN, Plain);
    case CreateFile(_, path, _) => AnswerOk(k, RCREATE, Qids([Report(path, q)]));
    case ListDir(path) => AnswerOk(k, RREAD, Listing(Children(t, path)));
    case DropFid(_) => AnswerOk(k, RCLUNK, Plain);
    case RenameFid(_, _, _) => AnswerOk(k, RWSTAT, Plain);
  }

  lemma EventRepliesOk(s: Server, e: Event)
    requires CanHappen(s, e) && RepliesOk(s.conns[e.c])
    ensures RepliesOk(Happen(s, e).conns[e.c])
    ensures forall c :: 0 <= c < |s.conns| && c != e.c ==> Happen(s, e).conns[c] == s.conns[c]
    ensures |Happen(s, e).conns| == |s.conns|
  {
    var k := s.conns[e.c];
    match e
    case Deliver(_, m) =>
      assert forall i :: 0 <= i < |k.outbox| ==> (k.sent + [m])[i] == k.sent[i];
    case Begin(_) => TakeRepliesOk(s.table, k);
    case Routed(_, _) => RefuseOk(k);
    case AllocName(_, _) =>
    case EndWalk(_) =>
      ParsedType(Current(k).ty, Current(k).body);
      RefuseOk(k);
      AnswerOk(k, RWALK, Qids(k.handler.walk.reports));
    case Commit(_, q) => CommitRepliesOk(s.table, k, q);
  }

  /**
    Over every interleaving, on every connection: the replies sent so far answer
    the first requests one by one, in order, with the request's own tag and either
    its type plus one or Rerror; and a handler that has not replied is still
    waiting, or indexed past a body whose fixed fields were cut short.
    */
  lemma {:induction false} RepliesMatchRequests(states: seq<Server>, events: seq<Event>, n: nat, c: nat)
    requires IsRun(states, events) && n < |states| && c < |states[0].conns|
    ensures |states[n].conns| == |states[0].conns| && RepliesOk(states[n].conns[c])
  {
    if n > 0 {
      var s, e := states[n - 1], events[n - 1];
      assert CanHappen(s, e) && states[n] == Happen(s, e);
      RepliesMatchRequests(states, events, n - 1, c);
      RepliesMatchRequests(states, events, n - 1, e.c);
      EventRepliesOk(s, e);
    }
  }

  /** A request whose handler is alive always has a next event: nothing but the router can hold it up. */
  lemma HandlersMoveOn(s: Server, c: nat) returns (e: Event)
    requires c < |s.conns| && RepliesOk(s.conns[c])
    requires !s.conns[c].handler.Idle? && !s.conns[c].handler.Panicked?
    ensures e.c == c && !e.Deliver? && CanHappen(s, e)
  {
    var k := s.conns[c];
    match k.handler
    case Awaiting(_) => e := Routed(c, true);
    case Ready(tail) =>
      e := Commit(c, if tail.CreateFile? then SomeQid(s.table, tail.path) else 0);
    case Walking(w) =>
      if w.done == w.count || w.done >= |w.names| {
        e := EndWalk(c);
      } else if NeedsLookup(w) {
        e := Routed(c, true);
      } else {
        e := AllocName(c, SomeQid(s.table, Join(w.path, w.names[w.done])));
      }
  }

  /** How many more events a handler needs at most before it has replied. */
  function Remaining(h: Handler): nat {
    match h
    case Awaiting(_) => 2
    case Ready(_) => 1
    case Walking(w) => (if w.done < w.count then 2 * (w.count - w.done) else 0) + (if w.lookedUp then 1 else 2)
    case _ => 0
  }

  /** With `HandlersMoveOn`: a handler whose router calls resolve always reaches its reply. */
  lemma HandlersFinish(s: Server, e: Event)
    requires CanHappen(s, e) && RepliesOk(s.conns[e.c]) && !e.Deliver? && !e.Begin?
    ensures Remaining(Happen(s, e).conns[e.c].handler) < Remaining(s.conns[e.c].handler)
  {
  }

  // ---------------------------------------------------------------------
  // Qids: one per path, for the whole run
  // ---------------------------------------------------------------------

  /** Each qid given out names the path it was given out for. */
  ghost predicate PayloadOk(t: Table, p: Payload) {
    match p
    case Qids(reports) => forall i :: 0 <= i < |reports| ==> Names(t, reports[i].qid, reports[i].path)
    case Listing(children) => forall q :: q in children ==> Names(t, q, children[q])
    case _ => true
  }

  /** A walk in flight stands on a path that its qid names; a rename in flight knows its file. */
  ghost predicate Stands(t: Table, h: Handler) {
    match h
    case Awaiting(tail) => tail.RenameFid? ==> tail.qid in t.paths
    case Ready(tail) => tail.RenameFid? ==> tail.qid in t.paths
    case Walking(w) => Names(t, w.qid, w.path)
    case _ => true
  }

  /** What a handler is going to tell its client. */
  ghost predicate HandlerTells(t: Table, h: Handler) {
    match h
    case Awaiting(tail) => tail.OnlyReply? ==> PayloadOk(t, tail.payload)
    case Ready(tail) => tail.OnlyReply? ==> PayloadOk(t, tail.payload)
    case Walking(w) => PayloadOk(t, Qids(w.reports))
    case _ => true
  }

  /** What a connection has told and is going to tell its client agrees with the table. */
  ghost predicate Tells(t: Table, k: Conn) {
    && HandlerTells(t, k.handler)
    && forall i :: 0 <= i < |k.outbox| ==> PayloadOk(t, k.outbox[i].payload)
  }

  /** The tables are consistent, and so are the snapshots that handlers in flight rely on. */
  ghost predicate TablesOk(s: Server) {
    TableOk(s.table) && forall c :: 0 <= c < |s.conns| ==> Stands(s.table, s.conns[c].handler)
  }

  ghost predicate AllTell(s: Server) {
    forall c :: 0 <= c < |s.conns| ==> Tells(s.table, s.conns[c])
  }

  ghost predicate ServerOk(s: Server) {
    TablesOk(s) && AllTell(s)
  }

  predicate IsRenameEvent(s: Server, e: Event) {
    e.Commit? && e.c < |s.conns| && s.conns[e.c].handler.Ready? && s.conns[e.c].handler.tail.RenameFid?
  }

  lemma PayloadStays(t: Table, t': Table, p: Payload)
    requires Grows(t, t') && PayloadOk(t, p)
    ensures PayloadOk(t', p)
  {
    match p
    case Qids(reports) =>
      forall i | 0 <= i < |reports|
        ensures Names(t', reports[i].qid, reports[i].path)
      {
        assert Names(t, reports[i].qid, reports[i].path);
      }
    case _ =>
  }

  lemma ConnStays(t: Table, t': Table, k: Conn)
    requires Grows(t, t')
    ensures Stands(t, k.handler) ==> Stands(t', k.handler)
    ensures Tells(t, k) ==> Tells(t', k)
  {
    if Tells(t, k) {
      match k.handler {
        case Awaiting(tail) => if tail.OnlyReply? { PayloadStays(t, t', tail.payload); }
        case Ready(tail) => if tail.OnlyReply? { PayloadStays(t, t', tail.payload); }
        case Walking(w) => PayloadStays(t, t', Qids(w.reports));
        case _ =>
      }
      forall i | 0 <= i < |k.outbox|
        ensures PayloadOk(t', k.outbox[i].payload)
      {
        PayloadStays(t, t', k.outbox[i].payload);
      }
    }
  }

  /** How a lock section may change the tables and its own connection. */
  ghost predicate Keeps(t: Table, k: Conn, t': Table, k': Conn) {
    && TableOk(t') && Grows(t, t')
    && Stands(t', k'.handler)
    && (Tells(t, k) ==> Tells(t', k'))
  }

  lemma AnswerKeeps(t: Table, k: Conn, t': Table, ty: byte, payload: Payload)
    requires TableOk(t') && Grows(t, t') && 0 < k.taken <= |k.sent|
    requires Tells(t, k) ==> PayloadOk(t', payload)
    ensures Keeps(t, k, t', Answer(k, ty, payload))
  {
    ConnStays(t, t', k);
  }

  lemma RefuseKeeps(t: Table, k: Conn)
    requires TableOk(t) && 0 < k.taken <= |k.sent|
    ensures Keeps(t, k, t, Refuse(k))
  {
  }

  /** Storing what one lock section did keeps the whole server consistent. */
  lemma UpdateOk(s: Server, c: nat, t: Table, k: Conn)
    requires TablesOk(s) && c < |s.conns| && Keeps(s.table, s.conns[c], t, k)
    ensures TablesOk(Update(s, c, t, k))
    ensures AllTell(s) ==> AllTell(Update(s, c, t, k))
  {
    var conns := s.conns[c := k];
    forall d | 0 <= d < |conns|
      ensures Stands(t, conns[d].handler)
      ensures AllTell(s) ==> Tells(t, conns[d])
    {
      if d != c {
        assert conns[d] == s.conns[d] && Stands(s.table, s.conns[d].handler);
        ConnStays(s.table, t, s.conns[d]);
      }
    }
  }

  lemma BeginWithFidOk(t: Table, k: Conn, r: Request, e: FidEntry)
    requires TableOk(t) && 0 < k.taken <= |k.sent| && NeedsFid(r) && Names(t, e.qid, e.path)
    ensures Keeps(t, k, t, BeginWithFid(t, k, r, e))
  {
  }

  lemma BeginWstatOk(t: Table, k: Conn, fid: nat, args: WstatArgs)
    requires TableOk(t) && 0 < k.taken <= |k.sent| && fid in t.fids
    ensures Keeps(t, k, t, BeginWstat(t, k, fid, args))
  {
    assert Names(t, t.fids[fid].qid, t.fids[fid].path);
    RefuseKeeps(t, k);
    AnswerKeeps(t, k, t, RWSTAT, Plain);
  }

  lemma BeginRequestOk(t: Table, k: Conn, r: Request)
    requires TableOk(t) && 0 < k.taken <= |k.sent|
    ensures var (t', k') := BeginRequest(t, k, r);
            Keeps(t, k, t', k')
  {
    RefuseKeeps(t, k);
    if r.Version? {
      AnswerKeeps(t, k, t, RVERSION, Plain);
    } else if r.Flush? {
      AnswerKeeps(t, k, t, RFLUSH, Plain);
    } else if r.Attach? {
      SetFidOk(t, r.fid, 0, ROOT, true);
      AnswerKeeps(t, k, SetFid(t, r.fid, 0, ROOT, true), RATTACH, Qids([Report(ROOT, 0)]));
    } else if r.Wstat? {
      if r.fid in t.fids {
        BeginWstatOk(t, k, r.fid, r.args);
      }
    } else if !r.Clunk? && r.fid in t.fids {
      assert Names(t, t.fids[r.fid].qid, t.fids[r.fid].path);
      BeginWithFidOk(t, k, r, t.fids[r.fid]);
    }
  }

  lemma TakeOk(t: Table, k: Conn)
    requires TableOk(t) && k.taken < |k.sent| && k.handler.Idle?
    ensures var (t', k') := Take(t, k);
            Keeps(t, k, t', k')
  {
    var k' := k.(taken := k.taken + 1);
    BeginParsedOk(t, k', ParseMessage(Current(k')));
    assert Tells(t, k) == Tells(t, k');
  }

  lemma BeginParsedOk(t: Table, k: Conn, parsed: Parsed)
    requires TableOk(t) && 0 < k.taken <= |k.sent|
    ensures var (t', k') := BeginParsed(t, k, parsed);
            Keeps(t, k, t', k')
  {
    RefuseKeeps(t, k);
    if parsed.Parsed? {
      BeginRequestOk(t, k, parsed.request);
    }
  }

  lemma CommitOk(t: Table, k: Conn, q: nat)
    requires TableOk(t) && 0 < k.taken <= |k.sent|
    requires k.handler.Ready? && !k.handler.tail.RenameFid?
    requires k.handler.tail.CreateFile? ==> IsQidFor(t, k.handler.tail.path, q)
    ensures var (t', k') := CommitTail(t, k, k.handler.tail, q);
            Keeps(t, k, t', k')
  {
    match k.handler.tail
    case CreateFile(fid, path, isDir) =>
      CommitCreateOk(t, fid, q, path, isDir);
      AnswerKeeps(t, k, CommitCreate(t, fid, q, path, isDir), RCREATE, Qids([Report(path, q)]));
    case ListDir(path) => AnswerKeeps(t, k, t, RREAD, Listing(Children(t, path)));
    case OnlyReply(ty, payload) => AnswerKeeps(t, k, t, ty, payload);
    case OpenFid(fid) =>
      MarkOpenOk(t, fid);
      AnswerKeeps(t, k, MarkOpen(t, fid), ROPEN, Plain);
    case DropFid(fid) => AnswerKeeps(t, k, RemoveFid(t, fid), RCLUNK, Plain);
  }

  lemma AllocNameOk(t: Table, k: Conn, q: nat)
    requires TableOk(t) && k.handler.Walking?
    requires var w := k.handler.walk; w.done < |w.names| && IsQidFor(t, Join(w.path, w.names[w.done]), q)
    ensures var w := k.handler.walk;
            var t' := Alloc(t, Join(w.path, w.names[w.done]), IsSpecial(w.names[w.done]));
            Keeps(t, k, t', k.(handler := Walking(WalkOn(w, q))))
  {
    var w := k.handler.walk;
    var path, special := Join(w.path, w.names[w.done]), IsSpecial(w.names[w.done]);
    AllocOk(t, path, special, q);
    ConnStays(t, Alloc(t, path, special), k);
  }

  lemma EndWalkOk(t: Table, k: Conn)
    requires TableOk(t) && k.handler.Walking? && Stands(t, k.handler) && 0 < k.taken <= |k.sent|
    ensures var w := k.handler.walk;
            var t' := SetFid(t, w.newFid, w.qid, w.path, w.isDir);
            Keeps(t, k, t', Answer(k, RWALK, Qids(w.reports)))
  {
    var w := k.handler.walk;
    var t' := SetFid(t, w.newFid, w.qid, w.path, w.isDir);
    SetFidOk(t, w.newFid, w.qid, w.path, w.isDir);
    ConnStays(t, t', k);
    AnswerKeeps(t, k, t', RWALK, Qids(w.reports));
  }

  /** What one event does to the tables and to the connection it belongs to. */
  lemma EventKeeps(s: Server, e: Event)
    requires TablesOk(s) && CanHappen(s, e) && !IsRenameEvent(s, e)
    ensures Keeps(s.table, s.conns[e.c], Happen(s, e).table, Happen(s, e).conns[e.c])
  {
    var k := s.conns[e.c];
    assert Stands(s.table, k.handler);
    match e
    case Deliver(_, _) =>
    case Begin(_) => TakeOk(s.table, k);
    case Routed(_, _) => RefuseKeeps(s.table, k);
    case AllocName(_, q) => AllocNameOk(s.table, k, q);
    case EndWalk(_) =>
      EndWalkOk(s.table, k);
      RefuseKeeps(s.table, k);
    case Commit(_, q) => CommitOk(s.table, k, q);
  }

  /**
    Every lock section but a rename's keeps the tables and the snapshots in flight
    consistent and only adds to the path table; and if everything clients were told
    so far agrees with the table, it still does.
    */
  lemma EventKeepsServer(s: Server, e: Event)
    requires TablesOk(s) && CanHappen(s, e) && !IsRenameEvent(s, e)
    ensures TablesOk(Happen(s, e)) && Grows(s.table, Happen(s, e).table)
    ensures AllTell(s) ==> AllTell(Happen(s, e))
  {
    EventKeeps(s, e);
    var s' := Happen(s, e);
    assert s' == Update(s, e.c, s'.table, s'.conns[e.c]);
    UpdateOk(s, e.c, s'.table, s'.conns[e.c]);
  }

  // ---------------------------------------------------------------------
  // Renames in flight
  // ---------------------------------------------------------------------

  /** No walk stands on the file: it would finish on a path that the file no longer has. */
  ghost predicate NoWalkOn(s: Server, q: nat) {
    forall c :: 0 <= c < |s.conns| && s.conns[c].handler.Walking? ==> s.conns[c].handler.walk.qid != q
  }

  /** What would have to be checked before a rename's commit while other handlers are at work. */
  ghost predicate RenameEventIsSafe(s: Server, e: Event)
    requires IsRenameEvent(s, e) && s.conns[e.c].handler.tail.qid in s.table.paths
  {
    var tail := s.conns[e.c].handler.tail;
    && RenameIsSafe(s.table, tail.fid, tail.qid, tail.newPath)
    && (tail.newPath == s.table.paths[tail.qid].path || NoWalkOn(s, tail.qid))
  }

  lemma RenameMovesWalks(s: Server, e: Event)
    requires TablesOk(s) && CanHappen(s, e) && IsRenameEvent(s, e)
    ensures var tail := s.conns[e.c].handler.tail;
            var s' := Happen(s, e);
            && s'.table == CommitRename(s.table, tail.fid, tail.qid, tail.newPath)
            && ((forall c :: 0 <= c < |s'.conns| ==> Stands(s'.table, s'.conns[c].handler))
                <==> tail.newPath == s.table.paths[tail.qid].path || NoWalkOn(s, tail.qid))
  {
    var tail, s' := s.conns[e.c].handler.tail, Happen(s, e);
    assert Stands(s.table, s.conns[e.c].handler);
    forall c | 0 <= c < |s.conns| && c != e.c
      ensures Stands(s.table, s.conns[c].handler) && s'.conns[c] == s.conns[c]
      ensures Stands(s'.table, s'.conns[c].handler) <==>
                (s.conns[c].handler.Walking? && s.conns[c].handler.walk.qid == tail.qid ==>
                   tail.newPath == s.table.paths[tail.qid].path)
    {
    }
  }

  /**
    The commit of a rename, whatever other handlers did since the rename began,
    keeps the tables and the snapshots in flight consistent if and only if the fid
    still names the file, and the path stays the same or it is unused, no other fid
    holds the file, no walk stands on it, and it is not the root.
    */
  lemma RenameEventKeepsTablesIff(s: Server, e: Event)
    requires TablesOk(s) && CanHappen(s, e) && IsRenameEvent(s, e)
    ensures s.conns[e.c].handler.tail.qid in s.table.paths
    ensures TablesOk(Happen(s, e)) <==> RenameEventIsSafe(s, e)
  {
    assert Stands(s.table, s.conns[e.c].handler);
    var tail := s.conns[e.c].handler.tail;
    RenameMovesWalks(s, e);
    RenameKeepsTableIff(s.table, tail.fid, tail.qid, tail.newPath);
  }

  /** Event `i` of a run is no rename, or a safe one. */
  ghost predicate SafeEvent(s: Server, e: Event) {
    IsRenameEvent(s, e) ==> s.conns[e.c].handler.tail.qid in s.table.paths && RenameEventIsSafe(s, e)
  }

  lemma {:induction false} SafeRunsKeepTables(states: seq<Server>, events: seq<Event>, n: nat)
    requires IsRun(states, events) && n < |states|
    requires forall i :: 0 <= i < n ==> SafeEvent(states[i], events[i])
    ensures TablesOk(states[n])
  {
    if n > 0 {
      var s, e := states[n - 1], events[n - 1];
      SafeRunsKeepTables(states, events, n - 1);
      assert CanHappen(s, e) && states[n] == Happen(s, e) && SafeEvent(s, e);
      if IsRenameEvent(s, e) {
        RenameEventKeepsTablesIff(s, e);
      } else {
        EventKeepsServer(s, e);
      }
    }
  }

  /**
    Over every run of any number of connections, renames included: the tables and
    the snapshots in flight are consistent throughout if and only if every rename
    was safe at the moment it was committed.
    */
  lemma RunsKeepTablesIff(states: seq<Server>, events: seq<Event>)
    requires IsRun(states, events)
    ensures (forall n :: 0 <= n < |states| ==> TablesOk(states[n]))
       <==> (forall i :: 0 <= i < |events| ==> SafeEvent(states[i], events[i]))
  {
    if forall i :: 0 <= i < |events| ==> SafeEvent(states[i], events[i]) {
      forall n | 0 <= n < |states|
        ensures TablesOk(states[n])
      {
        SafeRunsKeepTables(states, events, n);
      }
    }
    if forall n :: 0 <= n < |states| ==> TablesOk(states[n]) {
      forall i | 0 <= i < |events|
        ensures SafeEvent(states[i], events[i])
      {
        assert CanHappen(states[i], events[i]) && TablesOk(states[i]) && TablesOk(states[i + 1]);
        if IsRenameEvent(states[i], events[i]) {
          RenameEventKeepsTablesIff(states[i], events[i]);
        }
      }
    }
  }

  // ---------------------------------------------------------------------
  // Runs without renames
  // ---------------------------------------------------------------------

  ghost predicate NoRenames(states: seq<Server>, events: seq<Event>)
    requires |states| == |events| + 1
  {
    forall i {:trigger events[i]} :: 0 <= i < |events| ==> !IsRenameEvent(states[i], events[i])
  }

  lemma {:induction false} RunsKeepServer(states: seq<Server>, events: seq<Event>, n: nat)
    requires IsRun(states, events) && NoRenames(states, events) && n < |states|
    ensures ServerOk(states[n])
  {
    if n > 0 {
      assert !IsRenameEvent(states[n - 1], events[n - 1]);
      RunsKeepServer(states, events, n - 1);
      EventKeepsServer(states[n - 1], events[n - 1]);
    }
  }

  lemma {:induction false} RunsOnlyGrow(states: seq<Server>, events: seq<Event>, m: nat, n: nat)
    requires IsRun(states, events) && NoRenames(states, events) && m <= n < |states|
    ensures Grows(states[m].table, states[n].table)
  {
    if m < n {
      assert !IsRenameEvent(states[n - 1], events[n - 1]);
      RunsOnlyGrow(states, events, m, n - 1);
      RunsKeepServer(states, events, n - 1);
      EventKeepsServer(states[n - 1], events[n - 1]);
    }
  }

  /** Some reply sent so far gave out `qid` for `path`. */
  ghost predicate Reported(s: Server, path: Path, qid: nat) {
    exists c, i :: 0 <= c < |s.conns| && 0 <= i < |s.conns[c].outbox| &&
                   Mentions(s.conns[c].outbox[i].payload, path, qid)
  }

  predicate Mentions(p: Payload, path: Path, qid: nat) {
    match p
    case Qids(reports) => Report(path, qid) in reports
    case Listing(children) => qid in children && children[qid] == path
    case _ => false
  }

  lemma ReportedNames(s: Server, path: Path, qid: nat)
    requires ServerOk(s) && Reported(s, path, qid)
    ensures Names(s.table, qid, path)
  {
    var c, i :| 0 <= c < |s.conns| && 0 <= i < |s.conns[c].outbox| && Mentions(s.conns[c].outbox[i].payload, path, qid);
    assert Tells(s.table, s.conns[c]);
    assert PayloadOk(s.table, s.conns[c].outbox[i].payload);
  }

  /**
    Over every run without renames, and over every pair of its moments: the table
    is consistent throughout, and two qids given to any clients are equal exactly
    when they stand for the same path.
    */
  lemma QidsIdentifyPaths(states: seq<Server>, events: seq<Event>, m: nat, n: nat, p1: Path, q1: nat, p2: Path, q2: nat)
    requires IsRun(states, events) && NoRenames(states, events) && m <= n < |states|
    requires Reported(states[m], p1, q1) && Reported(states[n], p2, q2)
    ensures TableOk(states[m].table) && TableOk(states[n].table) && Grows(states[m].table, states[n].table)
    ensures p1 == p2 <==> q1 == q2
  {
    RunsKeepServer(states, events, m);
    RunsKeepServer(states, events, n);
    RunsOnlyGrow(states, events, m, n);
    ReportedNames(states[m], p1, q1);
    ReportedNames(states[n], p2, q2);
    assert Names(states[n].table, q1, p1);
  }

  // ---------------------------------------------------------------------
  // What each request does
  // ---------------------------------------------------------------------

  /** Connection `c` is idle and its next message is the request `r`. */
  ghost predicate Asks(s: Server, c: nat, r: Request) {
    && c < |s.conns|
    && var k := s.conns[c];
       k.handler.Idle? && k.taken < |k.sent| && ParseMessage(k.sent[k.taken]) == Parsed(r)
  }

  /** From `s` to `s'`, connection `c` has sent exactly one reply, to its next message, and is idle again. */
  ghost predicate Replied(s: Server, c: nat, s': Server, ty: byte, payload: Payload)
    requires c < |s.conns|
  {
    && c < |s'.conns| && s'.conns[c].handler.Idle?
    && var k := s.conns[c];
       k.taken < |k.sent| && s'.conns[c].outbox == k.outbox + [Reply(ty, k.sent[k.taken].tag, payload)]
  }

  /** Taking up a request runs its first lock section. */
  lemma BeginRuns(s: Server, c: nat, r: Request)
    requires Asks(s, c, r)
    ensures CanHappen(s, Begin(c))
    ensures var k := s.conns[c].(taken := s.conns[c].taken + 1);
            Happen(s, Begin(c)) == Update(s, c, BeginRequest(s.table, k, r).0, BeginRequest(s.table, k, r).1)
  {
  }

  /** Attach binds its fid to the root, closed, and does nothing else. */
  lemma AttachTakesEffect(s: Server, c: nat, fid: nat)
    requires Asks(s, c, Attach(fid))
    ensures CanHappen(s, Begin(c))
    ensures var s' := Happen(s, Begin(c));
            && s'.table == s.table.(fids := s.table.fids[fid := FidEntry(0, [SLASH], false, true)])
            && Replied(s, c, s', RATTACH, Qids([Report([SLASH], 0)]))
  {
    BeginRuns(s, c, Attach(fid));
  }

  /**
    Clunk forgets its fid - whatever the handler answers, and even if there is no
    such fid - and leaves every other fid and every path as it was.
    */
  lemma ClunkTakesEffect(s: Server, c: nat, fid: nat, ok: bool, q: nat)
    requires Asks(s, c, Clunk(fid))
    ensures var asked := Happen(s, Begin(c));
            && (fid in s.table.fids ==> CanHappen(asked, Routed(c, ok)))
            && var released := if fid in s.table.fids then Happen(asked, Routed(c, ok)) else asked;
               && CanHappen(released, Commit(c, q))
               && var s' := Happen(released, Commit(c, q));
                  && fid !in s'.table.fids
                  && (forall f :: f != fid ==> (f in s'.table.fids <==> f in s.table.fids))
                  && (forall f :: f in s'.table.fids ==> s'.table.fids[f] == s.table.fids[f])
                  && s'.table.paths == s.table.paths && s'.table.nextQid == s.table.nextQid
                  && Replied(s, c, s', RCLUNK, Plain)
  {
    BeginRuns(s, c, Clunk(fid));
  }

  /** From `s` to `s'`, connection `c`'s next request is taken up, agreed to by the router, and committed. */
  ghost predicate Agreed(s: Server, c: nat, q: nat, s': Server) {
    && CanHappen(s, Begin(c))
    && var asked := Happen(s, Begin(c));
       && CanHappen(asked, Routed(c, true))
       && var routed := Happen(asked, Routed(c, true));
          CanHappen(routed, Commit(c, q)) && s' == Happen(routed, Commit(c, q))
  }

  lemma AgreedRuns(s: Server, c: nat, r: Request, tail: Tail, q: nat) returns (s': Server)
    requires Asks(s, c, r) && (tail.CreateFile? ==> IsQidFor(s.table, tail.path, q))
    requires var k := s.conns[c].(taken := s.conns[c].taken + 1);
             BeginRequest(s.table, k, r) == (s.table, Await(k, tail))
    ensures Agreed(s, c, q, s')
    ensures var k := s.conns[c].(taken := s.conns[c].taken + 1, handler := Ready(tail));
            s' == Update(s, c, CommitTail(s.table, k, tail, q).0, CommitTail(s.table, k, tail, q).1)
  {
    BeginRuns(s, c, r);
    s' := Happen(Happen(Happen(s, Begin(c)), Routed(c, true)), Commit(c, q));
  }

  /** Open marks its fid open and does nothing else. */
  lemma OpenTakesEffect(s: Server, c: nat, fid: nat, q: nat) returns (s': Server)
    requires Asks(s, c, Open(fid)) && fid in s.table.fids
    ensures Agreed(s, c, q, s') && Replied(s, c, s', ROPEN, Plain)
    ensures var e := s.table.fids[fid];
            s'.table == s.table.(fids := s.table.fids[fid := FidEntry(e.qid, e.path, true, e.isDir)])
  {
    s' := AgreedRuns(s, c, Open(fid), OpenFid(fid), q);
  }

  /** Create binds its fid, open, to the name in the directory it stood on; only that path can be new. */
  lemma CreateTakesEffect(s: Server, c: nat, fid: nat, name: Path, isDir: bool, q: nat) returns (s': Server)
    requires TableOk(s.table) && Asks(s, c, Create(fid, name, isDir)) && fid in s.table.fids
    requires IsQidFor(s.table, Join(s.table.fids[fid].path, name), q)
    ensures Agreed(s, c, q, s')
    ensures Replied(s, c, s', RCREATE, Qids([Report(Join(s.table.fids[fid].path, name), q)]))
    ensures s'.table.fids == s.table.fids[fid := FidEntry(q, Join(s.table.fids[fid].path, name), true, isDir)]
    ensures TableOk(s'.table) && Grows(s.table, s'.table) && Names(s'.table, q, Join(s.table.fids[fid].path, name))
    ensures forall r :: r in s'.table.paths && r !in s.table.paths ==> r == q
  {
    var path := Join(s.table.fids[fid].path, name);
    s' := AgreedRuns(s, c, Create(fid, name, isDir), CreateFile(fid, path, isDir), q);
    assert s'.table == CommitCreate(s.table, fid, q, path, isDir);
    CommitCreateOk(s.table, fid, q, path, isDir);
    CommitCreateBinds(s.table, fid, q, path, isDir);
  }

  /** Stat reports the fid's path and qid; reading a directory lists its children as the table then has them. */
  lemma LooksTakeEffect(s: Server, c: nat, r: Request, q: nat) returns (s': Server)
    requires (r.Stat? || r.Read? || r.Write? || r.Remove?) && Asks(s, c, r) && r.fid in s.table.fids
    ensures Agreed(s, c, q, s') && s'.table == s.table
    ensures var e := s.table.fids[r.fid];
            && (r.Stat? ==> Replied(s, c, s', RSTAT, Qids([Report(e.path, e.qid)])))
            && (r.Read? && e.isDir ==> Replied(s, c, s', RREAD, Listing(Children(s.table, e.path))))
            && (r.Read? && !e.isDir ==> Replied(s, c, s', RREAD, Plain))
            && (r.Write? ==> Replied(s, c, s', RWRITE, Plain))
            && (r.Remove? ==> Replied(s, c, s', RREMOVE, Plain))
  {
    var e := s.table.fids[r.fid];
    var tail := if r.Stat? then OnlyReply(RSTAT, Qids([Report(e.path, e.qid)]))
                else if r.Read? then if e.isDir then ListDir(e.path) else OnlyReply(RREAD, Plain)
                else OnlyReply(if r.Write? then RWRITE else RREMOVE, Plain);
    s' := AgreedRuns(s, c, r, tail, q);
  }

  /** A request about an unknown fid, other than a clunk, is refused at once and changes nothing. */
  lemma UnknownFidIsRefused(s: Server, c: nat, r: Request)
    requires (NeedsFid(r) || r.Wstat?) && Asks(s, c, r) && r.fid !in s.table.fids
    ensures CanHappen(s, Begin(c))
    ensures Happen(s, Begin(c)).table == s.table && Replied(s, c, Happen(s, Begin(c)), RERROR, Failed)
  {
    BeginRuns(s, c, r);
  }

  /** What the router refuses - a lookup included, a clunk's release not - is answered Rerror and changes nothing. */
  lemma RefusalChangesNothing(s: Server, c: nat)
    requires CanHappen(s, Routed(c, false))
    requires s.conns[c].handler.Awaiting? ==> !s.conns[c].handler.tail.DropFid?
    ensures var k, s' := s.conns[c], Happen(s, Routed(c, false));
            && s'.table == s.table && s'.conns[c].handler.Idle?
            && s'.conns[c].outbox == k.outbox + [Reply(RERROR, Current(k).tag, Failed)]
  {
  }

  /** A message that no handler accepts is refused and changes nothing. */
  lemma MalformedIsRefused(s: Server, c: nat)
    requires c < |s.conns| && s.conns[c].handler.Idle? && s.conns[c].taken < |s.conns[c].sent|
    requires ParseMessage(s.conns[c].sent[s.conns[c].taken]) == Malformed
    ensures CanHappen(s, Begin(c))
    ensures Happen(s, Begin(c)).table == s.table && Replied(s, c, Happen(s, Begin(c)), RERROR, Failed)
  {
  }

  /** Version and flush are answered at once and change nothing. */
  lemma VersionAndFlushAnswered(s: Server, c: nat, r: Request)
    requires (r.Version? || r.Flush?) && Asks(s, c, r)
    ensures CanHappen(s, Begin(c)) && Happen(s, Begin(c)).table == s.table
    ensures Replied(s, c, Happen(s, Begin(c)), if r.Version? then RVERSION else RFLUSH, Plain)
  {
    BeginRuns(s, c, r);
  }

  /** A walk whose body ends before its last name is refused there and binds nothing. */
  lemma CutShortWalkIsRefused(s: Server, c: nat)
    requires c < |s.conns| && s.conns[c].handler.Walking? && RepliesOk(s.conns[c])
    requires var w := s.conns[c].handler.walk; w.done == |w.names| < w.count
    ensures CanHappen(s, EndWalk(c)) && !CanHappen(s, Routed(c, true))
    ensures var k, s' := s.conns[c], Happen(s, EndWalk(c));
            && s'.table == s.table && s'.conns[c].handler.Idle?
            && s'.conns[c].outbox == k.outbox + [Reply(RERROR, Current(k).tag, Failed)]
  {
  }

  /**
    A wstat that renames nothing: without a size field it is refused; without room
    for attributes it is acknowledged; with attributes the router decides. The
    tables never change.
    */
  lemma OtherWstatsTakeEffect(s: Server, c: nat, fid: nat, args: WstatArgs, q: nat)
    requires Asks(s, c, Wstat(fid, args)) && fid in s.table.fids
    requires args.Args? && args.name.Some? ==> !IsRename(s.table.fids[fid].path, args.name.value)
    ensures CanHappen(s, Begin(c)) && Happen(s, Begin(c)).table == s.table
    ensures args.TooShort? ==> Replied(s, c, Happen(s, Begin(c)), RERROR, Failed)
    ensures args.Nothing? || (args.Args? && !args.attrs) ==> Replied(s, c, Happen(s, Begin(c)), RWSTAT, Plain)
    ensures args.Args? && args.attrs ==>
              exists s' :: Agreed(s, c, q, s') && s'.table == s.table && Replied(s, c, s', RWSTAT, Plain)
  {
    BeginRuns(s, c, Wstat(fid, args));
    if args.Args? && args.attrs {
      var s' := AgreedRuns(s, c, Wstat(fid, args), OnlyReply(RWSTAT, Plain), q);
    }
  }

  /**
    A whole rename with nothing in between - the request taken up, the handler's
    answer, the commit - keeps the tables consistent exactly when the new path is
    unused, no other fid holds the file and the file is not the root. The fid and
    its qid end up at the new path, and nothing else changes.
    */
  lemma RenameAloneKeepsTableIff(s: Server, c: nat, fid: nat, name: Path, attrs: bool, q: nat) returns (s': Server)
    requires TableOk(s.table) && fid in s.table.fids && IsRename(s.table.fids[fid].path, name)
    requires Asks(s, c, Wstat(fid, Args(Some(name), attrs)))
    ensures s.table.fids[fid].qid in s.table.paths
    ensures Agreed(s, c, q, s') && Replied(s, c, s', RWSTAT, Plain)
    ensures var e := s.table.fids[fid];
            var target := RenameTarget(e.path, name);
            && s'.table.fids == s.table.fids[fid := FidEntry(e.qid, target, e.open, e.isDir)]
            && s'.table.paths == s.table.paths[e.qid := PathEntry(target, false)]
            && (TableOk(s'.table) <==> RenameIsSafe(s.table, fid, e.qid, target))
  {
    var e := s.table.fids[fid];
    var target := RenameTarget(e.path, name);
    s' := AgreedRuns(s, c, Wstat(fid, Args(Some(name), attrs)), RenameFid(fid, e.qid, target), q);
    assert Names(s.table, e.qid, e.path);
    RenameKeepsTableIff(s.table, fid, e.qid, target);
  }

  /** So a file renamed in its directory is then found under its new name there. */
  lemma RenameAloneMovesFile(s: Server, c: nat, fid: nat, parent: Path, last: Path, name: Path, attrs: bool, q: nat)
    returns (s': Server)
    requires TableOk(s.table) && fid in s.table.fids && s.table.fids[fid].path == Join(parent, last)
    requires SLASH !in last && parent != [SLASH, SLASH] && name != [] && name != last
    requires Asks(s, c, Wstat(fid, Args(Some(name), attrs)))
    ensures Agreed(s, c, q, s')
    ensures fid in s'.table.fids && s'.table.fids[fid].path == Join(parent, name)
    ensures Names(s'.table, s.table.fids[fid].qid, Join(parent, name))
  {
    RenameReplacesLastName(parent, last, name);
    s' := RenameAloneKeepsTableIff(s, c, fid, name, attrs, q);
  }

  // ---------------------------------------------------------------------
  // The fate of a fid, over whole runs
  // ---------------------------------------------------------------------

  /** The event binds the fid: an attach, the end of a walk, or the commit of a create. */
  ghost predicate Binds(s: Server, e: Event, fid: nat)
    requires CanHappen(s, e)
  {
    var k := s.conns[e.c];
    match e
    case Begin(_) => ParseMessage(k.sent[k.taken]) == Parsed(Attach(fid))
    case EndWalk(_) => k.handler.walk.newFid == fid && k.handler.walk.done == k.handler.walk.count
    case Commit(_, _) => k.handler.tail.CreateFile? && k.handler.tail.fid == fid
    case _ => false
  }

  /** The commit of a clunk. */
  predicate Drops(s: Server, e: Event, fid: nat)
    requires CanHappen(s, e)
  {
    e.Commit? && s.conns[e.c].handler.tail == DropFid(fid)
  }

  /** The commit of an open or of a rename. */
  predicate Edits(s: Server, e: Event, fid: nat)
    requires CanHappen(s, e)
  {
    var h := s.conns[e.c].handler;
    e.Commit? && (h.tail == OpenFid(fid) || (h.tail.RenameFid? && h.tail.fid == fid))
  }

  lemma BeginBindsAttach(t: Table, k: Conn, parsed: Parsed, fid: nat)
    requires 0 < k.taken <= |k.sent|
    ensures var t' := BeginParsed(t, k, parsed).0;
            if parsed == Parsed(Attach(fid)) then fid in t'.fids
            else (fid in t'.fids <==> fid in t.fids) && (fid in t.fids ==> t'.fids[fid] == t.fids[fid])
  {
  }

  /** A fid appears only by being bound, goes only by being clunked, and changes only by an open or a rename. */
  lemma FidChanges(s: Server, e: Event, fid: nat)
    requires CanHappen(s, e)
    ensures var t, t' := s.table, Happen(s, e).table;
            if Binds(s, e, fid) then fid in t'.fids
            else if Drops(s, e, fid) then fid !in t'.fids
            else
              && (fid in t'.fids <==> fid in t.fids)
              && (fid in t.fids && !Edits(s, e, fid) ==> t'.fids[fid] == t.fids[fid])
  {
    var k := s.conns[e.c];
    if e.Begin? {
      var k' := k.(taken := k.taken + 1);
      BeginBindsAttach(s.table, k', ParseMessage(Current(k')), fid);
    }
  }

  /** The event sends the reply to a Tclunk of the fid. */
  ghost predicate AnswersClunk(s: Server, e: Event, fid: nat) {
    && CanHappen(s, e)
    && var k := s.conns[e.c];
       && |k.outbox| < |k.sent| && ParseMessage(k.sent[|k.outbox|]) == Parsed(Clunk(fid))
       && |Happen(s, e).conns[e.c].outbox| > |k.outbox|
  }

  /** The reply to a Tclunk is sent by the commit that drops its fid. */
  lemma ClunkReplyDrops(s: Server, e: Event, fid: nat)
    requires AnswersClunk(s, e, fid) && RepliesOk(s.conns[e.c])
    ensures Drops(s, e, fid) && !Binds(s, e, fid)
  {
    var k := s.conns[e.c];
    if e.Begin? {
      BeginRuns(s, e.c, Clunk(fid));
    }
  }

  lemma AnsweredClunkForgets(states: seq<Server>, events: seq<Event>, n: nat, fid: nat)
    requires IsRun(states, events) && n < |events| && AnswersClunk(states[n], events[n], fid)
    ensures fid !in states[n + 1].table.fids
  {
    assert states[n + 1] == Happen(states[n], events[n]);
    RunsKeepConns(states, events, n);
    RepliesMatchRequests(states, events, n, events[n].c);
    ClunkReplyDrops(states[n], events[n], fid);
    FidChanges(states[n], events[n], fid);
  }

  ghost predicate DoesNotBind(s: Server, e: Event, fid: nat) {
    CanHappen(s, e) ==> !Binds(s, e, fid)
  }

  lemma StaysUnknown(s: Server, e: Event, s': Server, fid: nat)
    requires CanHappen(s, e) && s' == Happen(s, e) && DoesNotBind(s, e, fid) && fid !in s.table.fids
    ensures fid !in s'.table.fids
  {
    FidChanges(s, e, fid);
  }

  lemma {:induction false} UnknownStays(states: seq<Server>, events: seq<Event>, n: nat, m: nat, fid: nat)
    requires IsRun(states, events) && n <= m < |states| && fid !in states[n].table.fids
    requires forall i :: n <= i < m ==> DoesNotBind(states[i], events[i], fid)
    ensures fid !in states[m].table.fids
    decreases m
  {
    if n < m {
      UnknownStays(states, events, n, m - 1, fid);
      var s, e := states[m - 1], events[m - 1];
      assert DoesNotBind(s, e, fid);
      StaysUnknown(s, e, states[m], fid);
    }
  }

  /**
    Over every run and every interleaving: once a Tclunk of a fid has been answered,
    the fid is unknown, and stays unknown until an attach, a walk or a create binds it.
    */
  lemma ClunkedFidsStayUnknown(states: seq<Server>, events: seq<Event>, n: nat, m: nat, fid: nat)
    requires IsRun(states, events) && n < m < |states| && AnswersClunk(states[n], events[n], fid)
    requires forall i :: n < i < m ==> DoesNotBind(states[i], events[i], fid)
    ensures fid !in states[m].table.fids
  {
    AnsweredClunkForgets(states, events, n, fid);
    UnknownStays(states, events, n + 1, m, fid);
  }

  lemma {:induction false} RunsKeepConns(states: seq<Server>, events: seq<Event>, n: nat)
    requires IsRun(states, events) && n < |states|
    ensures |states[n].conns| == |states[0].conns|
  {
    if n > 0 {
      RunsKeepConns(states, events, n - 1);
      assert CanHappen(states[n - 1], events[n - 1]) && states[n] == Happen(states[n - 1], events[n - 1]);
    }
  }
}
