/**
  Route registration and resolution: the closures of src/handler.rs that a script
  calls, the merge of src/main.rs, the handler selection of src/router.rs, and the
  function lookup every worker performs (`call_lua`).
  */
module Routes {
  import opened Wrappers
  import opened Decimals

  const WILDCARD: string := "*"

  datatype FsOperation =
    | Lookup | GetAttr | SetAttr | ReadDir | MkDir | RmDir | OpenDir
    | Open | Create | Read | Write | Release | Rename | Unlink
  {
    function Name(): string {
      match this
      case Lookup => "lookup"
      case GetAttr => "getattr"
      case SetAttr => "setattr"
      case ReadDir => "readdir"
      case MkDir => "mkdir"
      case RmDir => "rmdir"
      case OpenDir => "opendir"
      case Open => "open"
      case Create => "create"
      case Read => "read"
      case Write => "write"
      case Release => "release"
      case Rename => "rename"
      case Unlink => "unlink"
    }
  }

  // ---------------------------------------------------------------------
  // Generated handler names
  // ---------------------------------------------------------------------

  function HandlerName(index: nat): string {
    "__route_" + Decimal(index)
  }

  /** Two registrations never share a generated name. */
  lemma HandlerNameInjective(i: nat, j: nat)
    requires HandlerName(i) == HandlerName(j)
    ensures i == j
  {
    assert HandlerName(i)[8..] == Decimal(i);
    assert HandlerName(j)[8..] == Decimal(j);
    DecimalInjective(i, j);
  }

  // ---------------------------------------------------------------------
  // Registration
  // ---------------------------------------------------------------------

  /** The Lua value a script passes as `ops`. */
  datatype OpsValue =
    | OpsNil
    | OpsBool(b: bool)
    | OpsString(s: string)
    | OpsTable(values: seq<Option<string>>)  // in traversal order; None stands for a non-string
    | OpsOther

  function Strings(values: seq<Option<string>>): seq<string> {
    if values == [] then []
    else (if values[0].Some? then [values[0].value] else []) + Strings(values[1..])
  }

  function ParseOps(v: OpsValue): Result<seq<string>, string> {
    match v
    case OpsNil => Success([])
    case OpsBool(true) => Success([])
    case OpsString(s) => Success([s])
    case OpsTable(values) => Success(Strings(values))
    case _ => Failure("ops must be a string, table, nil, or true")
  }

  /** One successful registration call of the script. */
  datatype Registration<F> = Registration(pattern: string, ops: seq<string>, func: F)

  datatype Route = Route(pattern: string, handlerName: string, ops: seq<string>)

  function RoutesOf<F>(regs: seq<Registration<F>>): seq<Route> {
    seq(|regs|, i requires 0 <= i < |regs| => Route(regs[i].pattern, HandlerName(i), regs[i].ops))
  }

  function FuncsOf<F>(regs: seq<Registration<F>>): map<string, F> {
    if regs == [] then map[]
    else FuncsOf(regs[..|regs| - 1])[HandlerName(|regs| - 1) := regs[|regs| - 1].func]
  }

  lemma RoutesOfSnoc<F>(regs: seq<Registration<F>>, reg: Registration<F>)
    ensures RoutesOf(regs + [reg]) == RoutesOf(regs) + [Route(reg.pattern, HandlerName(|regs|), reg.ops)]
  {
    var all := regs + [reg];
    assert forall i :: 0 <= i < |regs| ==> all[i] == regs[i];
  }

  lemma FuncsOfSnoc<F>(regs: seq<Registration<F>>, reg: Registration<F>)
    ensures FuncsOf(regs + [reg]) == FuncsOf(regs)[HandlerName(|regs|) := reg.func]
  {
    assert (regs + [reg])[..|regs|] == regs;
  }

  /** A call of `route.register(pattern, ops, func)`; a bundle call passes a table of its op names. */
  datatype Call<F> = Call(pattern: string, ops: OpsValue, func: F)

  /** The registration that a call leaves behind; a refused call leaves none. */
  function RegOf<F>(call: Call<F>): seq<Registration<F>> {
    match ParseOps(call.ops)
    case Success(ops) => [Registration(call.pattern, ops, call.func)]
    case Failure(_) => []
  }

  function RegsOf<F>(calls: seq<Call<F>>): seq<Registration<F>> {
    if calls == [] then [] else RegsOf(calls[..|calls| - 1]) + RegOf(calls[|calls| - 1])
  }

  lemma RegsOfSnoc<F>(calls: seq<Call<F>>, call: Call<F>)
    ensures RegsOf(calls + [call]) == RegsOf(calls) + RegOf(call)
  {
    assert (calls + [call])[..|calls|] == calls;
  }

  /** The shared `routes` vector and `funcs` map that the registration closures update. */
  class Registrar<F> {
    var routes: seq<Route>
    var funcs: map<string, F>
    ghost var calls: seq<Call<F>>

    ghost predicate Valid()
      reads this
    {
      routes == RoutesOf(RegsOf(calls)) && funcs == FuncsOf(RegsOf(calls))
    }

    constructor ()
      ensures Valid() && calls == []
    {
      routes, funcs, calls := [], map[], [];
    }

    /** Refuses what is neither nil, true, a string nor a table. */
    method Register(pattern: string, ops: OpsValue, func: F) returns (r: Result<(), string>)
      requires Valid()
      modifies this
      ensures Valid() && calls == old(calls) + [Call(pattern, ops, func)]
      ensures r.Failure? <==> ops.OpsOther? || ops == OpsBool(false)
      ensures r.Failure? ==> routes == old(routes) && funcs == old(funcs)
    {
      var name := HandlerName(|routes|);
      ghost var regs, call := RegsOf(calls), Call(pattern, ops, func);
      RegsOfSnoc(calls, call);
      calls := calls + [call];
      match ParseOps(ops)
      case Failure(e) =>
        assert regs + [] == regs;
        return Failure(e);
      case Success(list) =>
        ghost var reg := Registration(pattern, list, func);
        assert RegOf(call) == [reg];
        RoutesOfSnoc(regs, reg);
        FuncsOfSnoc(regs, reg);
        routes := routes + [Route(pattern, name, list)];
        funcs := funcs[name := func];
        return Success(());
    }
  }

  // ---------------------------------------------------------------------
  // The merge into one op -> handler table per pattern
  // ---------------------------------------------------------------------

  datatype RouteMeta = RouteMeta(pattern: string, handlers: map<string, string>)

  type PatternMap = map<string, RouteMeta>

  function Claim(handlers: map<string, string>, ops: seq<string>, name: string): map<string, string> {
    if ops == [] then handlers else Claim(handlers, ops[..|ops| - 1], name)[ops[|ops| - 1] := name]
  }

  function MergeOne(table: PatternMap, r: Route): PatternMap {
    var meta := if r.pattern in table then table[r.pattern] else RouteMeta(r.pattern, map[]);
    var ops := if r.ops == [] then [WILDCARD] else r.ops;
    table[r.pattern := meta.(handlers := Claim(meta.handlers, ops, r.handlerName))]
  }

  function Merge(routes: seq<Route>): PatternMap {
    if routes == [] then map[] else MergeOne(Merge(routes[..|routes| - 1]), routes[|routes| - 1])
  }

  /** The merge loop of `main`. */
  method MergeRoutes(routes: seq<Route>) returns (table: PatternMap)
    ensures table == Merge(routes)
  {
    table := map[];
    for i := 0 to |routes|
      invariant table == Merge(routes[..i])
    {
      var r := routes[i];
      assert routes[..i + 1][..i] == routes[..i];
      var meta := if r.pattern in table then table[r.pattern] else RouteMeta(r.pattern, map[]);
      var handlers := meta.handlers;
      if r.ops == [] {
        handlers := handlers[WILDCARD := r.handlerName];
        assert Claim(meta.handlers, [WILDCARD], r.handlerName) == handlers by {
          assert [WILDCARD][..0] == [];
        }
      } else {
        for k := 0 to |r.ops|
          invariant handlers == Claim(meta.handlers, r.ops[..k], r.handlerName)
        {
          assert r.ops[..k + 1][..k] == r.ops[..k];
          handlers := handlers[r.ops[k] := r.handlerName];
        }
        assert r.ops[..|r.ops|] == r.ops;
      }
      table := table[r.pattern := meta.(handlers := handlers)];
    }
    assert routes[..|routes|] == routes;
  }

  // ---------------------------------------------------------------------
  // The rule: last registration wins
  // ---------------------------------------------------------------------

  /**
    Whether a registration claims `key`. An empty op list claims the wildcard, and
    so does a list that spells it out.
    */
  predicate Claims<F>(reg: Registration<F>, pattern: string, key: string) {
    reg.pattern == pattern && (if reg.ops == [] then key == WILDCARD else key in reg.ops)
  }

  /** The last registration that claims `key` for `pattern`. */
  function LastClaim<F>(regs: seq<Registration<F>>, pattern: string, key: string): (last: Option<nat>)
    ensures last.Some? ==> last.value < |regs| && Claims(regs[last.value], pattern, key)
    ensures last.Some? ==> forall j :: last.value < j < |regs| ==> !Claims(regs[j], pattern, key)
    ensures last.None? ==> forall j :: 0 <= j < |regs| ==> !Claims(regs[j], pattern, key)
  {
    if regs == [] then None
    else if Claims(regs[|regs| - 1], pattern, key) then Some(|regs| - 1)
    else LastClaim(regs[..|regs| - 1], pattern, key)
  }

  /** Which registration serves an operation: its last claimant, else the last wildcard. */
  function Rule<F>(regs: seq<Registration<F>>, pattern: string, op: string): Option<nat> {
    var own := LastClaim(regs, pattern, op);
    if own.Some? then own else LastClaim(regs, pattern, WILDCARD)
  }

  /** Handler selection in `dispatch`: the operation's own entry, else the wildcard's. */
  function Select(handlers: map<string, string>, op: string): Option<string> {
    if op in handlers then Some(handlers[op])
    else if WILDCARD in handlers then Some(handlers[WILDCARD])
    else None
  }

  function Entry(table: PatternMap, pattern: string, key: string): Option<string> {
    if pattern in table && key in table[pattern].handlers then Some(table[pattern].handlers[key]) else None
  }

  lemma {:induction false} ClaimEntry(handlers: map<string, string>, ops: seq<string>, name: string, key: string)
    ensures var h := Claim(handlers, ops, name);
            if key in ops then key in h && h[key] == name
            else (key in h <==> key in handlers) && (key in h ==> h[key] == handlers[key])
  {
    if ops != [] {
      ClaimEntry(handlers, ops[..|ops| - 1], name, key);
      assert ops == ops[..|ops| - 1] + [ops[|ops| - 1]];
    }
  }

  function NameOf(index: Option<nat>): Option<string> {
    if index.Some? then Some(HandlerName(index.value)) else None
  }

  lemma MergeOneEntry<F>(table: PatternMap, reg: Registration<F>, name: string, pattern: string, key: string)
    ensures var table' := MergeOne(table, Route(reg.pattern, name, reg.ops));
            Entry(table', pattern, key) == if Claims(reg, pattern, key) then Some(name) else Entry(table, pattern, key)
  {
    var meta := if reg.pattern in table then table[reg.pattern] else RouteMeta(reg.pattern, map[]);
    ClaimEntry(meta.handlers, if reg.ops == [] then [WILDCARD] else reg.ops, name, key);
  }

  lemma RoutesSnoc<F>(regs: seq<Registration<F>>)
    requires regs != []
    ensures var n := |regs| - 1;
            Merge(RoutesOf(regs))
            == MergeOne(Merge(RoutesOf(regs[..n])), Route(regs[n].pattern, HandlerName(n), regs[n].ops))
  {
    var n := |regs| - 1;
    assert RoutesOf(regs)[..n] == RoutesOf(regs[..n]);
  }

  /** The merged table holds, for every pattern and key, the name of the last claimant. */
  lemma {:induction false} MergeHoldsLastClaim<F>(regs: seq<Registration<F>>, pattern: string, key: string)
    ensures Entry(Merge(RoutesOf(regs)), pattern, key) == NameOf(LastClaim(regs, pattern, key))
  {
    if regs != [] {
      var n := |regs| - 1;
      MergeHoldsLastClaim(regs[..n], pattern, key);
      RoutesSnoc(regs);
      MergeOneEntry(Merge(RoutesOf(regs[..n])), regs[n], HandlerName(n), pattern, key);
    }
  }

  /** Its patterns are the registered ones, each stored under itself. */
  lemma {:induction false} MergePatterns<F>(regs: seq<Registration<F>>, pattern: string)
    ensures pattern in Merge(RoutesOf(regs)) <==> exists i :: 0 <= i < |regs| && regs[i].pattern == pattern
    ensures pattern in Merge(RoutesOf(regs)) ==> Merge(RoutesOf(regs))[pattern].pattern == pattern
  {
    if regs != [] {
      var n := |regs| - 1;
      MergePatterns(regs[..n], pattern);
      RoutesSnoc(regs);
      assert forall i :: 0 <= i < n ==> regs[..n][i] == regs[i];
      if pattern == regs[n].pattern {
        assert regs[n].pattern == pattern;
      }
    }
  }

  /** Selection in the router refines the rule. */
  lemma SelectFollowsRule<F>(regs: seq<Registration<F>>, pattern: string, op: string)
    requires pattern in Merge(RoutesOf(regs))
    ensures Select(Merge(RoutesOf(regs))[pattern].handlers, op) == NameOf(Rule(regs, pattern, op))
  {
    MergeHoldsLastClaim(regs, pattern, op);
    MergeHoldsLastClaim(regs, pattern, WILDCARD);
  }

  // ---------------------------------------------------------------------
  // The function a worker runs
  // ---------------------------------------------------------------------

  datatype Called<F> = Registered(func: F) | Default(func: F) | NoHandler

  /** `call_lua`: the named function, else the global default, else an error. */
  function CallLua<F>(funcs: map<string, F>, default: Option<F>, name: string): Called<F> {
    if name in funcs then Registered(funcs[name])
    else if default.Some? then Default(default.value)
    else NoHandler
  }

  lemma {:induction false} FuncsHoldEveryName<F>(regs: seq<Registration<F>>, i: nat)
    requires i < |regs|
    ensures HandlerName(i) in FuncsOf(regs) && FuncsOf(regs)[HandlerName(i)] == regs[i].func
  {
    var n := |regs| - 1;
    if i < n {
      FuncsHoldEveryName(regs[..n], i);
      if HandlerName(i) == HandlerName(n) {
        HandlerNameInjective(i, n);
      }
    }
  }

  // ---------------------------------------------------------------------
  // The router's decision for one request
  // ---------------------------------------------------------------------

  datatype Decision =
    | NoRoute
    | NoHandlerForOp
    | IsDirectory
    | Forward(handlerName: string, pattern: string, hasChildren: bool)

  /** The matchit trie: which registered pattern, if any, a path matches. */
  type Trie = string -> Option<string>

  predicate HasChildren(trie: Trie, path: string, pattern: string) {
    var probe := trie(path + "/x");
    probe.Some? && probe.value != pattern && '*' !in probe.value
  }

  predicate RefusedOnDirectories(op: FsOperation) {
    op.Open? || op.Read? || op.Write? || op.Release?
  }

  ghost predicate TrieOf(trie: Trie, table: PatternMap) {
    forall path :: trie(path).Some? ==> trie(path).value in table
  }

  function Decide(trie: Trie, table: PatternMap, op: FsOperation, path: string): Decision
    requires trie(path).Some? ==> trie(path).value in table
  {
    if trie(path).None? then NoRoute
    else
      var meta := table[trie(path).value];
      var name := Select(meta.handlers, op.Name());
      if name.None? then NoHandlerForOp
      else
        var children := HasChildren(trie, path, meta.pattern);
        if children && RefusedOnDirectories(op) then IsDirectory
        else Forward(name.value, meta.pattern, children)
  }

  /** An operation's name is never the wildcard, so `Rule`'s two cases are two different keys. */
  lemma NamesAreNotWildcard(op: FsOperation)
    ensures op.Name() != WILDCARD
  {
    assert |op.Name()| > 1;
  }

  /** The registration a matched request is served by: the last to list the op, else the last for all ops. */
  ghost predicate Serves<F>(regs: seq<Registration<F>>, pattern: string, op: string, i: nat) {
    && i < |regs| && regs[i].pattern == pattern
    && if op in regs[i].ops then forall j :: i < j < |regs| && regs[j].pattern == pattern ==> op !in regs[j].ops
       else
         && (regs[i].ops == [] || WILDCARD in regs[i].ops)
         && forall j :: 0 <= j < |regs| && regs[j].pattern == pattern ==>
              op !in regs[j].ops && (j > i ==> regs[j].ops != [] && WILDCARD !in regs[j].ops)
  }

  lemma RuleServes<F>(regs: seq<Registration<F>>, pattern: string, op: FsOperation)
    ensures var rule := Rule(regs, pattern, op.Name());
            rule.Some? ==> Serves(regs, pattern, op.Name(), rule.value)
  {
    NamesAreNotWildcard(op);
    var own, any := LastClaim(regs, pattern, op.Name()), LastClaim(regs, pattern, WILDCARD);
    assert forall j :: 0 <= j < |regs| ==>
      (Claims(regs[j], pattern, op.Name()) <==> regs[j].pattern == pattern && op.Name() in regs[j].ops);
    if own.Some? {
      assert Claims(regs[own.value], pattern, op.Name());
    } else if any.Some? {
      assert Claims(regs[any.value], pattern, WILDCARD);
      assert forall j :: any.value < j < |regs| ==> !Claims(regs[j], pattern, WILDCARD);
    }
  }

  /**
    For any sequence of registrations, any path and any
    operation, a request that the router forwards runs, on a worker that
    re-registered the same sequence, exactly the function the rule names; the
    global default is never reached; and a matched request that is not forwarded
    either has no registration to serve it or is a file operation on a directory.
    */
  lemma ResolutionRefinesRule<F>(
    regs: seq<Registration<F>>, default: Option<F>, trie: Trie, op: FsOperation, path: string)
    requires TrieOf(trie, Merge(RoutesOf(regs)))
    ensures var d := Decide(trie, Merge(RoutesOf(regs)), op, path);
            match trie(path)
            case None => d == NoRoute
            case Some(pattern) =>
              match Rule(regs, pattern, op.Name())
              case None => d == NoHandlerForOp
              case Some(i) =>
                var children := HasChildren(trie, path, pattern);
                Serves(regs, pattern, op.Name(), i) &&
                if children && RefusedOnDirectories(op) then d == IsDirectory
                else d.Forward? && d.pattern == pattern && d.hasChildren == children
                     && CallLua(FuncsOf(regs), default, d.handlerName) == Registered(regs[i].func)
  {
    var table := Merge(RoutesOf(regs));
    if trie(path).Some? {
      var pattern := trie(path).value;
      assert pattern in table;
      SelectFollowsRule(regs, pattern, op.Name());
      MergePatterns(regs, pattern);
      RuleServes(regs, pattern, op);
      var rule := Rule(regs, pattern, op.Name());
      if rule.Some? {
        FuncsHoldEveryName(regs, rule.value);
      }
    }
  }

  // ---------------------------------------------------------------------
  // From the script's own calls
  // ---------------------------------------------------------------------

  /** The keys that the Lua value in a call claims. */
  predicate OpsClaim(v: OpsValue, key: string) {
    match v
    case OpsNil => key == WILDCARD
    case OpsBool(b) => b && key == WILDCARD
    case OpsString(s) => key == s
    case OpsTable(values) =>
      Some(key) in values || (key == WILDCARD && forall i :: 0 <= i < |values| ==> values[i].None?)
    case OpsOther => false
  }

  predicate CallClaims<F>(call: Call<F>, pattern: string, key: string) {
    call.pattern == pattern && OpsClaim(call.ops, key)
  }

  lemma {:induction false} StringsHold(values: seq<Option<string>>, key: string)
    ensures key in Strings(values) <==> Some(key) in values
    ensures Strings(values) == [] <==> forall i :: 0 <= i < |values| ==> values[i].None?
  {
    if values != [] {
      StringsHold(values[1..], key);
      assert values == [values[0]] + values[1..];
    }
  }

  /**
    What a registration claims is what the Lua value says: a string claims itself,
    nil and true the wildcard, a table the strings among its values - or the
    wildcard if it has none - and any other value is refused and claims nothing.
    */
  lemma ParsedOpsClaim<F>(call: Call<F>, pattern: string, key: string)
    ensures ParseOps(call.ops).Failure? <==> call.ops.OpsOther? || call.ops == OpsBool(false)
    ensures match ParseOps(call.ops)
            case Success(ops) =>
              Claims(Registration(call.pattern, ops, call.func), pattern, key) <==> CallClaims(call, pattern, key)
            case Failure(_) => !CallClaims(call, pattern, key)
  {
    if call.ops.OpsTable? {
      StringsHold(call.ops.values, key);
    }
  }

  /** The last call that claims `key` for `pattern`. */
  function LastCall<F>(calls: seq<Call<F>>, pattern: string, key: string): (last: Option<nat>)
    ensures last.Some? ==> last.value < |calls| && CallClaims(calls[last.value], pattern, key)
    ensures last.Some? ==> forall j :: last.value < j < |calls| ==> !CallClaims(calls[j], pattern, key)
    ensures last.None? ==> forall j :: 0 <= j < |calls| ==> !CallClaims(calls[j], pattern, key)
  {
    if calls == [] then None
    else if CallClaims(calls[|calls| - 1], pattern, key) then Some(|calls| - 1)
    else LastCall(calls[..|calls| - 1], pattern, key)
  }

  lemma {:induction false} LastCallsAgree<F>(calls: seq<Call<F>>, pattern: string, key: string)
    ensures var claim, call := LastClaim(RegsOf(calls), pattern, key), LastCall(calls, pattern, key);
            && (claim.Some? <==> call.Some?)
            && (claim.Some? ==> RegsOf(calls)[claim.value].func == calls[call.value].func)
  {
    if calls != [] {
      var front, last := calls[..|calls| - 1], calls[|calls| - 1];
      LastCallsAgree(front, pattern, key);
      ParsedOpsClaim(last, pattern, key);
      assert ParseOps(last.ops).Success? ==> RegsOf(calls)[..|RegsOf(calls)| - 1] == RegsOf(front);
      assert ParseOps(last.ops).Failure? ==> RegsOf(calls) == RegsOf(front);
    }
  }

  /**
    End to end from the script's calls: a request that matches a pattern runs the
    function of the last call that claims its operation for the pattern, else of the
    last call that claims the wildcard; it is refused if there is neither; and it is
    refused on a directory - a path below which another pattern matches that is no
    catch-all - if it would open, read, write or release a file.
    */
  lemma ScriptDecides<F>(calls: seq<Call<F>>, default: Option<F>, trie: Trie, op: FsOperation, path: string)
    requires TrieOf(trie, Merge(RoutesOf(RegsOf(calls)))) && trie(path).Some?
    ensures var regs, pattern := RegsOf(calls), trie(path).value;
            var d := Decide(trie, Merge(RoutesOf(regs)), op, path);
            var own, all := LastCall(calls, pattern, op.Name()), LastCall(calls, pattern, "*");
            var below := trie(path + "/x");
            var directory := below.Some? && below.value != pattern && '*' !in below.value;
            if own.None? && all.None? then d == NoHandlerForOp
            else if directory && (op.Open? || op.Read? || op.Write? || op.Release?) then d == IsDirectory
            else
              && d.Forward? && d.pattern == pattern && d.hasChildren == directory
              && CallLua(FuncsOf(regs), default, d.handlerName)
                 == Registered(calls[if own.Some? then own.value else all.value].func)
  {
    var pattern := trie(path).value;
    LastCallsAgree(calls, pattern, op.Name());
    LastCallsAgree(calls, pattern, WILDCARD);
    ResolutionRefinesRule(RegsOf(calls), default, trie, op, path);
  }

  /** Operations are told apart by their names. */
  lemma NamesAreDistinct(a: FsOperation, b: FsOperation)
    requires a.Name() == b.Name()
    ensures a == b
  {
    assert a.Name()[0] == b.Name()[0] && |a.Name()| == |b.Name()|;
    assert a.Name()[|a.Name()| - 1] == b.Name()[|b.Name()| - 1];
  }

  /** A handler registered for "read" alone is claimed by reads, and by no other operation. */
  lemma ReadOnlyRoute<F>(path: string, func: F, op: FsOperation)
    ensures var calls := [Call(path, OpsString("read"), func)];
            && LastCall(calls, path, op.Name()) == (if op == Read then Some(0) else None)
            && LastCall(calls, path, "*") == None
  {
    if op.Name() == Read.Name() {
      NamesAreDistinct(op, Read);
    }
  }
}
