/**
  Walking on the shared tables with nothing else in flight (`handle_walk` in
  src/frontend/ninep.rs): walks compose, and a walk that fails leaves every fid
  alone.
  */
module NinepWalk {
  import opened Wrappers
  import opened Folds
  import opened NinepMessages
  import opened NinepTable
  import opened NinepSession

  /** Where a walk has got to. */
  datatype Cursor = Cursor(path: Path, qid: nat, isDir: bool)

  datatype Walked = Walked(table: Table, at: Cursor)

  /** One name: join it on and look up or allocate its qid. */
  ghost function StepTo(w: Walked, name: Path): Walked {
    var path := Join(w.at.path, name);
    Walked(Alloc(w.table, path, IsSpecial(name)), Cursor(path, SomeQid(w.table, path), IsSpecial(name)))
  }

  ghost function WalkNames(w: Walked, names: seq<Path>): Walked {
    Fold(StepTo, w, names)
  }

  /** The tables are consistent and the cursor's qid names its path. */
  ghost predicate WalkedOk(w: Walked) {
    PathsOk(w.table) && Names(w.table, w.at.qid, w.at.path)
  }

  function CursorOf(e: FidEntry): Cursor {
    Cursor(e.path, e.qid, e.isDir)
  }

  /** A walk's starting point: the entry of the fid it starts from. */
  function From(t: Table, fid: nat): Walked
    requires fid in t.fids
  {
    Walked(t, CursorOf(t.fids[fid]))
  }

  function Bind(w: Walked, newFid: nat): Table {
    SetFid(w.table, newFid, w.at.qid, w.at.path, w.at.isDir)
  }

  /** A successful walk: the names, then the binding of the new fid. */
  ghost function WalkTo(t: Table, fid: nat, newFid: nat, names: seq<Path>): Table
    requires fid in t.fids
  {
    Bind(WalkNames(From(t, fid), names), newFid)
  }

  /** The path a list of names leads to. */
  function PathAfter(path: Path, names: seq<Path>): Path {
    if names == [] then path else Join(PathAfter(path, names[..|names| - 1]), names[|names| - 1])
  }

  lemma StepOk(w: Walked, name: Path)
    requires WalkedOk(w)
    ensures var w' := StepTo(w, name);
            && WalkedOk(w') && Grows(w.table, w'.table) && w'.table.fids == w.table.fids
            && w'.at.path == Join(w.at.path, name)
    ensures forall q :: q in StepTo(w, name).table.paths ==>
              q in w.table.paths || StepTo(w, name).table.paths[q].path == Join(w.at.path, name)
  {
    var path := Join(w.at.path, name);
    AllocOk(w.table, path, IsSpecial(name), SomeQid(w.table, path));
  }

  lemma {:induction false} WalkNamesOk(w: Walked, names: seq<Path>)
    requires WalkedOk(w)
    ensures var w' := WalkNames(w, names);
            && WalkedOk(w') && Grows(w.table, w'.table) && w'.table.fids == w.table.fids
            && w'.at.path == PathAfter(w.at.path, names)
  {
    if names != [] {
      var n := |names| - 1;
      WalkNamesOk(w, names[..n]);
      StepOk(WalkNames(w, names[..n]), names[n]);
    }
  }

  /** A walk takes the fid's kind with it; a name makes it a directory exactly if it is "", "." or "..". */
  lemma WalkedKind(w: Walked, names: seq<Path>)
    ensures WalkNames(w, names).at.isDir ==
              if names == [] then w.at.isDir
              else
                var last := names[|names| - 1];
                last == [] || last == [46] || last == [46, 46]
  {
  }

  /** Whatever a walk adds to the path table is the path of a non-empty prefix of its names. */
  lemma {:induction false} WalkAddsPrefixes(w: Walked, names: seq<Path>, q: nat) returns (k: nat)
    requires WalkedOk(w)
    requires q in WalkNames(w, names).table.paths && q !in w.table.paths
    ensures 0 < k <= |names| && WalkNames(w, names).table.paths[q].path == PathAfter(w.at.path, names[..k])
  {
    var n := |names| - 1;
    var w1 := WalkNames(w, names[..n]);
    WalkNamesOk(w, names[..n]);
    StepOk(w1, names[n]);
    if q in w1.table.paths {
      k := WalkAddsPrefixes(w, names[..n], q);
      assert names[..n][..k] == names[..k];
    } else {
      k := |names|;
      assert names[..k] == names;
    }
  }

  function WithFids(w: Walked, fids: map<nat, FidEntry>): Walked {
    w.(table := w.table.(fids := fids))
  }

  lemma StepIgnoresFids(w: Walked, fids: map<nat, FidEntry>, name: Path)
    requires WalkedOk(w)
    ensures StepTo(WithFids(w, fids), name) == WithFids(StepTo(w, name), fids)
  {
    var t, u := w.table, WithFids(w, fids).table;
    var path := Join(w.at.path, name);
    assert Known(u, path) <==> Known(t, path);
    QidIsUnique(t, path, SomeQid(t, path), SomeQid(u, path));
  }

  /** The names are resolved in the path table alone; fids play no part. */
  lemma {:induction false} WalkIgnoresFids(w: Walked, fids: map<nat, FidEntry>, names: seq<Path>)
    requires WalkedOk(w)
    ensures WalkNames(WithFids(w, fids), names) == WithFids(WalkNames(w, names), fids)
  {
    if names != [] {
      var n := |names| - 1;
      WalkIgnoresFids(w, fids, names[..n]);
      WalkNamesOk(w, names[..n]);
      StepIgnoresFids(WalkNames(w, names[..n]), fids, names[n]);
    }
  }

  /**
    One walk over `a + b` and a walk over `a` followed by one over `b` leave the
    same path table, the same qid counter, and the same binding of the target fid.
    */
  lemma WalksCompose(t: Table, fid: nat, mid: nat, newFid: nat, a: seq<Path>, b: seq<Path>)
    requires TableOk(t) && fid in t.fids
    ensures var once := WalkTo(t, fid, newFid, a + b);
            var twice := WalkTo(WalkTo(t, fid, mid, a), mid, newFid, b);
            && once.paths == twice.paths
            && once.nextQid == twice.nextQid
            && once.fids[newFid] == twice.fids[newFid]
  {
    var w := From(t, fid);
    assert Names(t, w.at.qid, w.at.path);
    var w1 := WalkNames(w, a);
    var half := WalkTo(t, fid, mid, a);
    WalkNamesOk(w, a);
    FoldConcat(StepTo, w, a, b);
    assert From(half, mid) == WithFids(w1, half.fids);
    WalkIgnoresFids(w1, half.fids, b);
  }

  /** Whichever qid the table scan comes up with, it is the one the walk takes. */
  lemma ScanAgrees(w: Walked, name: Path, q: nat)
    requires WalkedOk(w) && IsQidFor(w.table, Join(w.at.path, name), q)
    ensures StepTo(w, name).at.qid == q
    ensures FidsOk(w.table) ==> FidsOk(StepTo(w, name).table)
  {
    var path := Join(w.at.path, name);
    AllocOk(w.table, path, IsSpecial(name), q);
    QidIsUnique(w.table, path, q, SomeQid(w.table, path));
  }

  /** Each qid so far is the one of the path walked up to its name. */
  ghost predicate QidsOk(t: Table, base: Path, names: seq<Path>, qids: seq<nat>) {
    |qids| <= |names| && forall k :: 0 <= k < |qids| ==> Names(t, qids[k], PathAfter(base, names[..k + 1]))
  }

  lemma QidsStay(t: Table, t': Table, base: Path, names: seq<Path>, qids: seq<nat>)
    requires Grows(t, t') && QidsOk(t, base, names, qids)
    ensures QidsOk(t', base, names, qids)
  {
    forall k | 0 <= k < |qids|
      ensures Names(t', qids[k], PathAfter(base, names[..k + 1]))
    {
      assert Names(t, qids[k], PathAfter(base, names[..k + 1]));
    }
  }

  /** The state of the walk loop after `i` names. */
  ghost predicate Progress(w0: Walked, names: seq<Path>, i: nat, w: Walked, qids: seq<nat>) {
    && i <= |names| && |qids| == i
    && w == WalkNames(w0, names[..i])
    && w.table.fids == w0.table.fids && FidsOk(w.table)
    && QidsOk(w.table, w0.at.path, names, qids)
  }

  /** One turn of the walk loop. */
  lemma WalkTurn(w0: Walked, names: seq<Path>, i: nat, w1: Walked, q: nat, qids: seq<nat>)
    requires WalkedOk(w0) && i < |names| && Progress(w0, names, i, w1, qids)
    requires IsQidFor(w1.table, Join(w1.at.path, names[i]), q)
    ensures StepTo(w1, names[i]).at.qid == q && Progress(w0, names, i + 1, StepTo(w1, names[i]), qids + [q])
  {
    var w2 := StepTo(w1, names[i]);
    WalkNamesOk(w0, names[..i]);
    ScanAgrees(w1, names[i], q);
    StepOk(w1, names[i]);
    assert names[..i + 1][..i] == names[..i];
    assert w2.at.path == PathAfter(w0.at.path, names[..i + 1]);
    QidsStay(w1.table, w2.table, w0.at.path, names, qids);
  }

  lemma BindOk(w: Walked, newFid: nat)
    requires WalkedOk(w) && FidsOk(w.table)
    ensures TableOk(Bind(w, newFid)) && Grows(w.table, Bind(w, newFid))
  {
    SetFidOk(w.table, newFid, w.at.qid, w.at.path, w.at.isDir);
  }

  /** How many names a failing walk gets through: all that parse, but not one whose lookup fails. */
  function Reached(names: seq<Path>, count: nat): (k: nat)
    ensures count > 0 ==> k < count
  {
    if |names| < count then |names| else if count > 0 then count - 1 else 0
  }

  /** Every new path is that of a proper, non-empty prefix of the requested names. */
  ghost predicate OnlyPrefixesAdded(w0: Walked, t: Table, names: seq<Path>, count: nat) {
    forall q :: q in t.paths && q !in w0.table.paths ==>
      exists k :: 0 < k < count && k <= |names| && t.paths[q].path == PathAfter(w0.at.path, names[..k])
  }

  /** The loop of `handle_walk`: how far it gets, and the qids it collected. */
  method WalkLoop(state: NinepState, fid: nat, names: seq<Path>, count: nat, found: bool)
    returns (ok: bool, at: Cursor, qids: seq<nat>)
    requires TableOk(state.View()) && |names| <= count && fid in state.fids
    modifies state
    ensures ok <==> |names| == count && (count == 0 || found)
    ensures Progress(old(From(state.View(), fid)), names, if ok then count else Reached(names, count),
                     Walked(state.View(), at), qids)
  {
    at := CursorOf(state.fids[fid]);
    qids := [];
    ghost var w0 := From(state.View(), fid);
    assert Names(w0.table, w0.at.qid, w0.at.path);
    for i := 0 to count
      invariant Progress(w0, names, i, Walked(state.View(), at), qids)
      invariant i == count > 0 ==> found
    {
      if i >= |names| {
        return false, at, qids;
      }
      if i + 1 == count && !found {
        return false, at, qids;
      }
      ghost var w1 := Walked(state.View(), at);
      var path, special := Join(at.path, names[i]), IsSpecial(names[i]);
      var q := state.AllocQid(path, special);
      WalkTurn(w0, names, i, w1, q, qids);
      at := Cursor(path, q, special);
      qids := qids + [q];
    }
    return true, at, qids;
  }

  /**
    `handle_walk` with nothing else in flight. `names` are the names the body holds
    (fewer than `count` if it is cut short); `found` is the router's answer about
    the last one. A failing walk changes no fid and adds only proper prefixes.
    */
  method HandleWalk(state: NinepState, fid: nat, newFid: nat, names: seq<Path>, count: nat, found: bool)
    returns (r: Result<seq<nat>, string>)
    requires TableOk(state.View()) && |names| <= count
    modifies state
    ensures TableOk(state.View()) && Grows(old(state.View()), state.View())
    ensures r.Success? <==> fid in old(state.fids) && |names| == count && (count == 0 || found)
    ensures r.Success? ==> state.View() == WalkTo(old(state.View()), fid, newFid, names)
    ensures r.Success? ==> |r.value| == count && QidsOk(state.View(), old(state.fids)[fid].path, names, r.value)
    ensures r.Failure? ==> state.fids == old(state.fids)
    ensures r.Failure? && fid !in old(state.fids) ==> state.paths == old(state.paths)
    ensures r.Failure? && fid in old(state.fids) ==>
              OnlyPrefixesAdded(old(From(state.View(), fid)), state.View(), names, count)
  {
    if fid !in state.fids {
      return Failure("unknown fid");
    }
    ghost var w0 := From(state.View(), fid);
    assert Names(w0.table, w0.at.qid, w0.at.path);
    var ok, at, qids := WalkLoop(state, fid, names, count, found);
    ghost var w := Walked(state.View(), at);
    if !ok {
      FailedWalk(w0, names, count, w);
      return Failure("walk failed");
    }
    assert names[..count] == names;
    WalkNamesOk(w0, names);
    BindOk(w, newFid);
    QidsStay(w.table, Bind(w, newFid), w0.at.path, names, qids);
    state.SetFidEntry(newFid, at.qid, at.path, at.isDir);
    return Success(qids);
  }

  lemma FailedWalk(w0: Walked, names: seq<Path>, count: nat, w: Walked)
    requires WalkedOk(w0) && |names| <= count && count > 0 && w == WalkNames(w0, names[..Reached(names, count)])
    ensures PathsOk(w.table) && Grows(w0.table, w.table)
    ensures OnlyPrefixesAdded(w0, w.table, names, count)
  {
    var taken := names[..Reached(names, count)];
    WalkNamesOk(w0, taken);
    forall q | q in w.table.paths && q !in w0.table.paths
      ensures exists k :: 0 < k < count && k <= |names| && w.table.paths[q].path == PathAfter(w0.at.path, names[..k])
    {
      var k := WalkAddsPrefixes(w0, taken, q);
      assert taken[..k] == names[..k];
    }
  }

  // ---------------------------------------------------------------------
  // The server's own events
  // ---------------------------------------------------------------------

  function CursorAt(w: WalkState): Cursor {
    Cursor(w.path, w.qid, w.isDir)
  }

  /** The tables that a walk in flight leads to if nothing else happens and its last name is found. */
  ghost function Goal(t: Table, w: WalkState): Table
    requires w.done <= |w.names|
  {
    Bind(WalkNames(Walked(t, CursorAt(w)), w.names[w.done..]), w.newFid)
  }

  /** A step of connection `c`'s walk; the router finds the name. */
  predicate IsWalkStep(e: Event, c: nat) {
    e.c == c && (e.AllocName? || e.EndWalk? || (e.Routed? && e.ok))
  }

  /** Connection `c` is on a walk whose names are all there, with consistent tables. */
  ghost predicate OnWalk(s: Server, c: nat) {
    && c < |s.conns| && s.conns[c].handler.Walking?
    && var w := s.conns[c].handler.walk;
       w.done <= |w.names| == w.count && TableOk(s.table) && Names(s.table, w.qid, w.path)
  }

  lemma FirstStep(w: Walked, names: seq<Path>)
    requires names != []
    ensures WalkNames(w, names) == WalkNames(StepTo(w, names[0]), names[1..])
  {
    var first := [names[0]];
    assert names == first + names[1..];
    FoldConcat(StepTo, w, first, names[1..]);
    assert WalkNames(w, first) == StepTo(WalkNames(w, first[..0]), names[0]);
  }

  lemma WalkStepKeepsGoal(s: Server, c: nat, e: Event)
    requires OnWalk(s, c) && CanHappen(s, e) && IsWalkStep(e, c)
    ensures var s', goal := Happen(s, e), Goal(s.table, s.conns[c].handler.walk);
            if e.EndWalk? then s'.conns[c].handler.Idle? && s'.table == goal
            else OnWalk(s', c) && Goal(s'.table, s'.conns[c].handler.walk) == goal
  {
    var w := s.conns[c].handler.walk;
    match e
    case AllocName(_, q) =>
      var here := Walked(s.table, CursorAt(w));
      ScanAgrees(here, w.names[w.done], q);
      StepOk(here, w.names[w.done]);
      FirstStep(here, w.names[w.done..]);
      assert w.names[w.done..][1..] == w.names[w.done + 1..];
    case EndWalk(_) => assert w.names[w.done..] == [];
    case Routed(_, _) =>
  }

  /** A walk that has a connection's events to itself: it begins, takes its steps, and replies. */
  ghost predicate WalksAlone(states: seq<Server>, events: seq<Event>, c: nat) {
    && |states| == |events| + 1 && events != [] && events[0] == Begin(c)
    && (forall i {:trigger events[i]} :: 0 <= i < |events| ==>
          CanHappen(states[i], events[i]) && states[i + 1] == Happen(states[i], events[i]))
    && (forall i :: 1 <= i < |events| ==> IsWalkStep(events[i], c))
  }

  ghost predicate AsksToWalk(s: Server, c: nat, fid: nat, newFid: nat, names: seq<Path>) {
    Asks(s, c, Walk(fid, newFid, names, |names|)) && fid in s.table.fids
  }

  /** A walk in its first lock section has everything before it. */
  lemma WalkBegins(s: Server, c: nat, fid: nat, newFid: nat, names: seq<Path>, s': Server)
    requires TableOk(s.table) && AsksToWalk(s, c, fid, newFid, names)
    requires CanHappen(s, Begin(c)) && s' == Happen(s, Begin(c))
    ensures OnWalk(s', c) && Goal(s'.table, s'.conns[c].handler.walk) == WalkTo(s.table, fid, newFid, names)
    ensures names != [] ==> NotLookedUp(s', c)
  {
    BeginRuns(s, c, Walk(fid, newFid, names, |names|));
    var e := s.table.fids[fid];
    assert Names(s.table, e.qid, e.path);
    assert names[0..] == names;
  }

  /** At every point of such a walk it is under way to `WalkTo`, or has arrived. */
  lemma {:induction false} WalkIsUnderWay(
    states: seq<Server>, events: seq<Event>, c: nat, fid: nat, newFid: nat, names: seq<Path>, n: nat)
    requires WalksAlone(states, events, c) && 1 <= n < |states|
    requires TableOk(states[0].table) && AsksToWalk(states[0], c, fid, newFid, names)
    ensures var goal := WalkTo(states[0].table, fid, newFid, names);
            || (OnWalk(states[n], c) && Goal(states[n].table, states[n].conns[c].handler.walk) == goal)
            || (c < |states[n].conns| && states[n].conns[c].handler.Idle? && states[n].table == goal)
  {
    if n == 1 {
      assert CanHappen(states[0], events[0]);
      WalkBegins(states[0], c, fid, newFid, names, states[1]);
    } else {
      WalkIsUnderWay(states, events, c, fid, newFid, names, n - 1);
      var s, e := states[n - 1], events[n - 1];
      assert CanHappen(s, e) && states[n] == Happen(s, e) && IsWalkStep(e, c);
      WalkStepKeepsGoal(s, c, e);
    }
  }

  /**
    The server's events of one walk alone - the request taken up, its names
    allocated one by one, the last one found, the fid bound - leave exactly the
    tables of `WalkTo`, of which `WalksCompose` speaks.
    */
  lemma WalkAloneIsWalkTo(states: seq<Server>, events: seq<Event>, c: nat, fid: nat, newFid: nat, names: seq<Path>)
    requires WalksAlone(states, events, c) && TableOk(states[0].table)
    requires AsksToWalk(states[0], c, fid, newFid, names)
    requires c < |states[|events|].conns| && states[|events|].conns[c].handler.Idle?
    ensures states[|events|].table == WalkTo(states[0].table, fid, newFid, names)
  {
    WalkIsUnderWay(states, events, c, fid, newFid, names, |events|);
  }

  /** A walk whose last name is still before it, and has not been looked up. */
  ghost predicate NotLookedUp(s: Server, c: nat) {
    OnWalk(s, c) && var w := s.conns[c].handler.walk; !w.lookedUp && w.done < w.count
  }

  lemma WalkStepWaits(s: Server, c: nat, e: Event, s': Server)
    requires NotLookedUp(s, c) && CanHappen(s, e) && IsWalkStep(e, c) && s' == Happen(s, e)
    ensures e == Routed(c, true) || NotLookedUp(s', c)
  {
    WalkStepKeepsGoal(s, c, e);
  }

  /** Until the router has been asked, a walk has its last name still before it. */
  lemma {:induction false} WalkWaitsForRouter(
    states: seq<Server>, events: seq<Event>, c: nat, fid: nat, newFid: nat, names: seq<Path>, n: nat)
    requires WalksAlone(states, events, c) && 1 <= n < |states| && names != []
    requires TableOk(states[0].table) && AsksToWalk(states[0], c, fid, newFid, names)
    ensures NotLookedUp(states[n], c) || exists i :: 1 <= i < n && events[i] == Routed(c, true)
  {
    if n == 1 {
      assert CanHappen(states[0], events[0]);
      WalkBegins(states[0], c, fid, newFid, names, states[1]);
    } else {
      WalkWaitsForRouter(states, events, c, fid, newFid, names, n - 1);
      var e := events[n - 1];
      if NotLookedUp(states[n - 1], c) {
        assert IsWalkStep(e, c);
        WalkStepWaits(states[n - 1], c, e, states[n]);
      }
    }
  }

  /** No walk of one or more names ends in a binding without the router having found the last one. */
  lemma WalkAsksRouter(states: seq<Server>, events: seq<Event>, c: nat, fid: nat, newFid: nat, names: seq<Path>)
    requires WalksAlone(states, events, c) && names != [] && TableOk(states[0].table)
    requires AsksToWalk(states[0], c, fid, newFid, names)
    requires c < |states[|events|].conns| && states[|events|].conns[c].handler.Idle?
    ensures exists i :: 1 <= i < |events| && events[i] == Routed(c, true)
  {
    WalkWaitsForRouter(states, events, c, fid, newFid, names, |events|);
  }

  // ---------------------------------------------------------------------
  // A rename that breaks the tables
  // ---------------------------------------------------------------------

  /** Two walks of one fid's name bind both new fids to the same file. */
  lemma WalkOneName(t: Table, fid: nat, newFid: nat, name: Path)
    requires TableOk(t) && fid in t.fids
    ensures var t', path := WalkTo(t, fid, newFid, [name]), Join(t.fids[fid].path, name);
            && TableOk(t') && Grows(t, t') && Names(t', t'.fids[newFid].qid, path)
            && t'.fids == t.fids[newFid := FidEntry(t'.fids[newFid].qid, path, false, IsSpecial(name))]
            && t'.paths == Alloc(t, path, IsSpecial(name)).paths
  {
    var w := From(t, fid);
    assert Names(t, w.at.qid, w.at.path);
    FirstStep(w, [name]);
    StepOk(w, name);
    ScanAgrees(w, name, SomeQid(t, Join(w.at.path, name)));
    BindOk(StepTo(w, name), newFid);
  }

  /** A rename to another path breaks the tables whenever two fids hold the file. */
  lemma SharedFileBreaks(t: Table, f: nat, g: nat, newPath: Path)
    requires TableOk(t) && f in t.fids && g in t.fids && f != g
    requires t.fids[f].path == t.fids[g].path != newPath
    ensures !TableOk(CommitRename(t, f, t.fids[f].qid, newPath))
  {
    assert Names(t, t.fids[f].qid, t.fids[f].path) && Names(t, t.fids[g].qid, t.fids[g].path);
    RenameKeepsTableIff(t, f, t.fids[f].qid, newPath);
  }

  const SLASH_A: Path := [SLASH, 97]

  lemma RenameAtRoot()
    ensures IsRename(SLASH_A, [98]) && RenameTarget(SLASH_A, [98]) != SLASH_A && Join(ROOT, [97]) == SLASH_A
  {
    assert SLASH_A[..1] == [SLASH] && LastSlash(SLASH_A) == Some(0);
    assert RenameTarget(SLASH_A, [98])[1] == 98;
  }

  /**
    Reachable from a fresh server: attach fid 1, walk it to "/a" as fids 5 and 6,
    and rename fid 5 to "/b". Fid 6 now disagrees with the table.
    */
  lemma RenameCanBreakTable()
    ensures var attached := SetFid(INITIAL, 1, 0, ROOT, true);
            var twice := WalkTo(WalkTo(attached, 1, 5, [[97]]), 1, 6, [[97]]);
            var e := twice.fids[5];
            && TableOk(twice) && IsRename(e.path, [98])
            && !TableOk(CommitRename(twice, 5, e.qid, RenameTarget(e.path, [98])))
  {
    var attached := SetFid(INITIAL, 1, 0, ROOT, true);
    var once := WalkTo(attached, 1, 5, [[97]]);
    WalkOneName(attached, 1, 5, [97]);
    WalkOneName(once, 1, 6, [97]);
    RenameAtRoot();
    SharedFileBreaks(WalkTo(once, 1, 6, [[97]]), 5, 6, RenameTarget(SLASH_A, [98]));
  }
}
