/**
  The conversions between Lua values and JSON trees in src/serialize.rs.

  A Lua table is a finite map that holds no nil. Its length operator may return any
  border of the table, and its pairs come in any order, so converting a Lua value is
  a relation: `Converts(v, r)` holds of every outcome the program can have.
  */
module LuaJson {
  import opened Wrappers
  import opened Decimals

  const I64_LIMIT := 0x8000_0000_0000_0000
  const EXACT := 0x20_0000_0000_0000  // 2^53: doubles hold every integer up to here

  /** serde_json's numbers: 64-bit integers, signed or not, and finite doubles. */
  datatype JsonNumber = Int(i: int) | Float(f: real)

  datatype Json =
    | Null
    | Bool(b: bool)
    | Num(n: JsonNumber)
    | Str(s: string)
    | Arr(items: seq<Json>)
    | Obj(fields: map<string, Json>)

  datatype LuaNumber = Integer(i: int) | Double(f: real)

  datatype Key = StrKey(s: string) | IntKey(i: int) | DoubleKey(text: string) | OtherKey(id: int)

  datatype Lua =
    | Nil
    | Boolean(b: bool)
    | Number(n: LuaNumber)
    | NotFinite
    | String(s: string)
    | Table(entries: map<Key, Lua>)
    | Unencodable              // functions, userdata, strings that are not UTF-8

  /** The virtual machine's number representation: LuaJIT keeps every number as a double. */
  datatype Vm = Vm(toDouble: int -> real, reread: LuaNumber -> LuaNumber)

  // ---------------------------------------------------------------------
  // From JSON to Lua
  // ---------------------------------------------------------------------

  function Handed(vm: Vm, n: JsonNumber): LuaNumber {
    match n
    case Int(i) => if i < I64_LIMIT then Integer(i) else Double(vm.toDouble(i))
    case Float(f) => Double(f)
  }

  /** A value as it is read back from a table it was stored in. */
  function Stored(vm: Vm, v: Lua): Lua {
    if v.Number? then Number(vm.reread(v.n)) else v
  }

  function IntKeys(n: nat): (keys: set<Key>)
    ensures forall k :: k in keys <==> k.IntKey? && 1 <= k.i <= n
  {
    set i | 1 <= i <= n :: IntKey(i)
  }

  function StrKeys(names: set<string>): (keys: set<Key>)
    ensures forall k :: k in keys <==> k.StrKey? && k.s in names
  {
    set s | s in names :: StrKey(s)
  }

  /** Storing nil stores nothing. */
  function ToLua(vm: Vm, j: Json): (v: Lua)
    ensures v.Nil? <==> j.Null?
  {
    match j
    case Null => Nil
    case Bool(b) => Boolean(b)
    case Num(n) => Number(Handed(vm, n))
    case Str(s) => String(s)
    case Arr(items) =>
      Table(map k | k in IntKeys(|items|) && !items[k.i - 1].Null? :: Stored(vm, ToLua(vm, items[k.i - 1])))
    case Obj(fields) =>
      Table(map k | k in StrKeys(fields.Keys) && !fields[k.s].Null? :: Stored(vm, ToLua(vm, fields[k.s])))
  }

  function Put(t: map<Key, Lua>, k: Key, v: Lua): map<Key, Lua> {
    if v.Nil? then t - {k} else t[k := v]
  }

  /** The decoded value, as a table or a Lua script holds it. */
  function Held(vm: Vm, j: Json): (v: Lua)
    ensures v.Nil? <==> j.Null?
  {
    Stored(vm, ToLua(vm, j))
  }

  /** What the table of an array holds, key by key. */
  ghost predicate HoldsItems(vm: Vm, items: seq<Json>, t: map<Key, Lua>) {
    && (forall k :: k in t <==> k.IntKey? && 1 <= k.i <= |items| && !items[k.i - 1].Null?)
    && (forall k :: k in t ==> t[k] == Held(vm, items[k.i - 1]))
  }

  ghost predicate HoldsFields(vm: Vm, fields: map<string, Json>, t: map<Key, Lua>) {
    && (forall k :: k in t <==> k.StrKey? && k.s in fields && !fields[k.s].Null?)
    && (forall k :: k in t ==> t[k] == Held(vm, fields[k.s]))
  }

  lemma ArrayTable(vm: Vm, j: Json)
    requires j.Arr?
    ensures HoldsItems(vm, j.items, ToLua(vm, j).entries)
  {
    var t := ToLua(vm, j).entries;
    forall k | k in t
      ensures t[k] == Held(vm, j.items[k.i - 1])
    {
    }
  }

  lemma ObjectTable(vm: Vm, j: Json)
    requires j.Obj?
    ensures HoldsFields(vm, j.fields, ToLua(vm, j).entries)
  {
  }

  lemma SameItems(vm: Vm, items: seq<Json>, t: map<Key, Lua>, t': map<Key, Lua>)
    requires HoldsItems(vm, items, t) && HoldsItems(vm, items, t')
    ensures t == t'
  {
  }

  lemma SameFields(vm: Vm, fields: map<string, Json>, t: map<Key, Lua>, t': map<Key, Lua>)
    requires HoldsFields(vm, fields, t) && HoldsFields(vm, fields, t')
    ensures t == t'
  {
  }

  lemma PutItem(vm: Vm, items: seq<Json>, t: map<Key, Lua>, x: Json)
    requires HoldsItems(vm, items, t)
    ensures HoldsItems(vm, items + [x], Put(t, IntKey(|items| + 1), Held(vm, x)))
  {
  }

  lemma PutField(vm: Vm, fields: map<string, Json>, t: map<Key, Lua>, name: string, x: Json)
    requires HoldsFields(vm, fields, t) && name !in fields
    ensures HoldsFields(vm, fields[name := x], Put(t, StrKey(name), Held(vm, x)))
  {
  }

  lemma ArrayEntry(vm: Vm, j: Json, k: Key)
    requires j.Arr?
    ensures var t := ToLua(vm, j).entries;
            && (k in t <==> k.IntKey? && 1 <= k.i <= |j.items| && !j.items[k.i - 1].Null?)
            && (k in t ==> t[k] == Held(vm, j.items[k.i - 1]))
  {
    ArrayTable(vm, j);
  }

  lemma ObjectEntry(vm: Vm, j: Json, k: Key)
    requires j.Obj?
    ensures var t := ToLua(vm, j).entries;
            && (k in t <==> k.StrKey? && k.s in j.fields && !j.fields[k.s].Null?)
            && (k in t ==> t[k] == Held(vm, j.fields[k.s]))
  {
    ObjectTable(vm, j);
  }

  /** `json_to_lua`: tables are filled entry by entry, an object's in any order. */
  method JsonToLua(vm: Vm, j: Json) returns (v: Lua)
    ensures v == ToLua(vm, j)
    decreases j, 1
  {
    match j
    case Null => v := Nil;
    case Bool(b) => v := Boolean(b);
    case Num(n) => v := Number(Handed(vm, n));
    case Str(s) => v := String(s);
    case Arr(_) => v := ArrayToLua(vm, j);
    case Obj(_) => v := ObjectToLua(vm, j);
  }

  method ArrayToLua(vm: Vm, j: Json) returns (v: Lua)
    requires j.Arr?
    ensures v == ToLua(vm, j)
    decreases j, 0
  {
    var t: map<Key, Lua> := map[];
    for i := 0 to |j.items|
      invariant HoldsItems(vm, j.items[..i], t)
    {
      var x := JsonToLua(vm, j.items[i]);
      assert j.items[..i + 1] == j.items[..i] + [j.items[i]];
      PutItem(vm, j.items[..i], t, j.items[i]);
      t := Put(t, IntKey(i + 1), Stored(vm, x));
    }
    assert j.items[..|j.items|] == j.items;
    ArrayTable(vm, j);
    SameItems(vm, j.items, t, ToLua(vm, j).entries);
    v := Table(t);
  }

  ghost predicate Done(all: map<string, Json>, rest: set<string>, done: map<string, Json>) {
    && rest <= all.Keys
    && (forall k :: k in done <==> k in all && k !in rest)
    && (forall k :: k in done ==> done[k] == all[k])
  }

  lemma DoneNext(all: map<string, Json>, rest: set<string>, done: map<string, Json>, k: string)
    requires Done(all, rest, done) && k in rest
    ensures k !in done && Done(all, rest - {k}, done[k := all[k]])
  {
  }

  lemma AllDone(all: map<string, Json>, done: map<string, Json>)
    requires Done(all, {}, done)
    ensures done == all
  {
  }

  method ObjectToLua(vm: Vm, j: Json) returns (v: Lua)
    requires j.Obj?
    ensures v == ToLua(vm, j)
    decreases j, 0
  {
    var t: map<Key, Lua> := map[];
    var rest := j.fields.Keys;
    ghost var done: map<string, Json> := map[];
    while rest != {}
      invariant Done(j.fields, rest, done)
      invariant HoldsFields(vm, done, t)
      decreases |rest|
    {
      var k :| k in rest;
      var x := JsonToLua(vm, j.fields[k]);
      DoneNext(j.fields, rest, done, k);
      PutField(vm, done, t, k, j.fields[k]);
      t := Put(t, StrKey(k), Stored(vm, x));
      rest, done := rest - {k}, done[k := j.fields[k]];
    }
    AllDone(j.fields, done);
    ObjectTable(vm, j);
    SameFields(vm, done, t, ToLua(vm, j).entries);
    v := Table(t);
  }

  // ---------------------------------------------------------------------
  // From Lua to JSON
  // ---------------------------------------------------------------------

  predicate IsBorder(t: map<Key, Lua>, n: nat) {
    (n == 0 || IntKey(n) in t) && IntKey(n + 1) !in t
  }

  function SignedDecimal(i: int): string {
    if i < 0 then "-" + Decimal(-i) else Decimal(i)
  }

  function KeyText(k: Key): string
    requires !k.OtherKey?
  {
    match k
    case StrKey(s) => s
    case IntKey(i) => SignedDecimal(i)
    case DoubleKey(text) => text
  }

  function NumberBack(n: LuaNumber): JsonNumber {
    match n case Integer(i) => Int(i) case Double(f) => Float(f)
  }

  /** Every outcome of `lua_to_json`, `None` being an error: one for each border and each order of pairs. */
  ghost predicate Converts(v: Lua, r: Option<Json>)
    decreases v, 2
  {
    match v
    case Nil => r == Some(Null)
    case Boolean(b) => r == Some(Bool(b))
    case Number(n) => r == Some(Num(NumberBack(n)))
    case NotFinite => r == None
    case String(s) => r == Some(Str(s))
    case Table(t) => exists n: nat :: IsBorder(t, n) && if n > 0 then AsArray(v, n, r) else AsObject(v, r)
    case Unencodable => r == None
  }

  /** The item at index i, which Lua counts from 1; raw_get gives nil where there is none. */
  ghost predicate ItemConverts(v: Lua, i: int, r: Option<Json>)
    requires v.Table?
    decreases v, 0
  {
    if IntKey(i + 1) in v.entries then Converts(v.entries[IntKey(i + 1)], r) else r == Some(Null)
  }

  ghost predicate AsArray(v: Lua, n: nat, r: Option<Json>)
    requires v.Table?
    decreases v, 1
  {
    match r
    case None => exists i :: 0 <= i < n && ItemConverts(v, i, None)
    case Some(j) => j.Arr? && |j.items| == n && forall i :: 0 <= i < n ==> ItemConverts(v, i, Some(j.items[i]))
  }

  /** Where two keys have one text, either value may be the one that stays. */
  ghost predicate AsObject(v: Lua, r: Option<Json>)
    requires v.Table?
    decreases v, 1
  {
    var t := v.entries;
    match r
    case None => exists k :: k in t && (k.OtherKey? || Converts(t[k], None))
    case Some(j) =>
      && j.Obj?
      && (forall k :: k in t ==> !k.OtherKey? && KeyText(k) in j.fields && exists x :: Converts(t[k], Some(x)))
      && (forall name :: name in j.fields ==>
            exists k :: k in t && !k.OtherKey? && KeyText(k) == name && Converts(t[k], Some(j.fields[name])))
  }

  lemma {:induction false} SomeBorder(t: map<Key, Lua>, n: nat, above: set<Key>)
    requires n == 0 || IntKey(n) in t
    requires forall k :: k in t && k.IntKey? && k.i > n ==> k in above
    ensures exists b: nat :: IsBorder(t, b)
    decreases |above|
  {
    if IntKey(n + 1) in t {
      SomeBorder(t, n + 1, above - {IntKey(n + 1)});
    } else {
      assert IsBorder(t, n);
    }
  }

  /** The borders of a table, among which the length operator picks. */
  function Borders(t: map<Key, Lua>): set<int> {
    set n | n in (set k | k in t.Keys && k.IntKey? :: k.i) + {0} && n >= 0 && IsBorder(t, n)
  }

  /** `lua_to_json`: whatever length and whatever order the table gives, the outcome is an allowed one. */
  method LuaToJson(v: Lua) returns (r: Option<Json>)
    ensures Converts(v, r)
    decreases v, 1
  {
    match v
    case Nil => r := Some(Null);
    case Boolean(b) => r := Some(Bool(b));
    case Number(n) => r := Some(Num(NumberBack(n)));
    case NotFinite => r := None;
    case String(s) => r := Some(Str(s));
    case Unencodable => r := None;
    case Table(t) =>
      SomeBorder(t, 0, t.Keys);
      ghost var b: nat :| IsBorder(t, b);
      assert b in Borders(t);
      var n :| n in Borders(t);
      if n > 0 {
        r := TableToArray(v, n);
      } else {
        r := TableToObject(v);
      }
      assert IsBorder(t, n);
  }

  method TableToArray(v: Lua, n: nat) returns (r: Option<Json>)
    requires v.Table? && n > 0
    ensures AsArray(v, n, r)
    decreases v, 0
  {
    var items: seq<Json> := [];
    for i := 0 to n
      invariant |items| == i
      invariant forall k :: 0 <= k < i ==> ItemConverts(v, k, Some(items[k]))
    {
      var item := Some(Null);
      if IntKey(i + 1) in v.entries {
        item := LuaToJson(v.entries[IntKey(i + 1)]);
      }
      assert ItemConverts(v, i, item);
      if item.None? {
        return None;
      }
      items := items + [item.value];
    }
    r := Some(Arr(items));
  }

  method TableToObject(v: Lua) returns (r: Option<Json>)
    requires v.Table?
    ensures AsObject(v, r)
    decreases v, 0
  {
    var t := v.entries;
    var fields: map<string, Json> := map[];
    var rest := t.Keys;
    while rest != {}
      invariant rest <= t.Keys
      invariant forall k :: k in t && k !in rest ==>
                  !k.OtherKey? && KeyText(k) in fields && exists x :: Converts(t[k], Some(x))
      invariant forall name :: name in fields ==>
                  exists k :: k in t && !k.OtherKey? && KeyText(k) == name && Converts(t[k], Some(fields[name]))
      decreases |rest|
    {
      var k :| k in rest;
      if k.OtherKey? {
        return None;
      }
      var x := LuaToJson(t[k]);
      if x.None? {
        return None;
      }
      fields := fields[KeyText(k) := x.value];
      rest := rest - {k};
    }
    r := Some(Obj(fields));
  }

  // ---------------------------------------------------------------------
  // When the round trip is the identity
  // ---------------------------------------------------------------------

  /**
    What survives: no null inside an array or object, no empty array, and only
    numbers that the virtual machine gives back unchanged.
    */
  ghost predicate Kept(vm: Vm, j: Json) {
    match j
    case Num(n) => NumberBack(vm.reread(Handed(vm, n))) == n
    case Arr(items) => items != [] && forall i :: 0 <= i < |items| ==> !items[i].Null? && Kept(vm, items[i])
    case Obj(fields) => forall k :: k in fields ==> !fields[k].Null? && Kept(vm, fields[k])
    case _ => true
  }

  lemma ArrayDetermined(v: Lua, items: seq<Json>, r: Option<Json>)
    requires v.Table?
    requires forall i, x :: 0 <= i < |items| ==> (ItemConverts(v, i, x) <==> x == Some(items[i]))
    ensures AsArray(v, |items|, r) <==> r == Some(Arr(items))
  {
    assert forall i :: 0 <= i < |items| ==> ItemConverts(v, i, Some(items[i]));
    assert forall i :: 0 <= i < |items| ==> !ItemConverts(v, i, None);
    if r.Some? && AsArray(v, |items|, r) {
      forall i | 0 <= i < |items|
        ensures r.value.items[i] == items[i]
      {
        assert ItemConverts(v, i, Some(r.value.items[i]));
      }
      assert r.value.items == items;
    }
  }

  lemma ObjectDetermined(v: Lua, fields: map<string, Json>, r: Option<Json>)
    requires v.Table? && forall k :: k in v.entries <==> k.StrKey? && k.s in fields
    requires forall k, x :: k in v.entries ==> (Converts(v.entries[k], x) <==> x == Some(fields[k.s]))
    ensures AsObject(v, r) <==> r == Some(Obj(fields))
  {
    var t := v.entries;
    if r.Some? && AsObject(v, r) {
      var found := r.value.fields;
      forall name
        ensures name in found <==> name in fields
        ensures name in fields ==> found[name] == fields[name]
      {
        assert name in fields ==> StrKey(name) in t && KeyText(StrKey(name)) == name;
        if name in found {
          var k :| k in t && !k.OtherKey? && KeyText(k) == name && Converts(t[k], Some(found[name]));
          assert k == StrKey(name);
        }
      }
      assert found == fields;
    }
    if r == Some(Obj(fields)) {
      forall k | k in t
        ensures exists x :: Converts(t[k], Some(x))
      {
        assert Converts(t[k], Some(fields[k.s]));
      }
      forall name | name in fields
        ensures exists k :: k in t && !k.OtherKey? && KeyText(k) == name && Converts(t[k], Some(fields[name]))
      {
        assert StrKey(name) in t && KeyText(StrKey(name)) == name && Converts(t[StrKey(name)], Some(fields[name]));
      }
    }
  }

  lemma FullArrayBorder(vm: Vm, j: Json, n: nat)
    requires j.Arr? && forall i :: 0 <= i < |j.items| ==> !j.items[i].Null?
    ensures IsBorder(ToLua(vm, j).entries, n) <==> n == |j.items|
  {
    ArrayEntry(vm, j, IntKey(n));
    ArrayEntry(vm, j, IntKey(n + 1));
  }

  lemma ArrayItem(vm: Vm, j: Json, i: nat, x: Option<Json>)
    requires j.Arr? && i < |j.items|
    ensures ItemConverts(ToLua(vm, j), i, x) <==> Converts(Held(vm, j.items[i]), x)
  {
    ArrayEntry(vm, j, IntKey(i + 1));
  }

  lemma ObjectBorder(vm: Vm, j: Json, n: nat)
    requires j.Obj?
    ensures IsBorder(ToLua(vm, j).entries, n) <==> n == 0
  {
    ObjectEntry(vm, j, IntKey(n));
    ObjectEntry(vm, j, IntKey(n + 1));
  }

  /** A table with one border is read in one way. */
  lemma OneBorder(v: Lua, n: nat, r: Option<Json>)
    requires v.Table? && forall b: nat :: IsBorder(v.entries, b) <==> b == n
    ensures Converts(v, r) <==> if n > 0 then AsArray(v, n, r) else AsObject(v, r)
  {
    assert IsBorder(v.entries, n);
  }

  lemma {:induction false} KeptIsOnlyItself(vm: Vm, j: Json, r: Option<Json>)
    requires Kept(vm, j)
    ensures Converts(Held(vm, j), r) <==> r == Some(j)
    decreases j
  {
    if j.Arr? {
      KeptArray(vm, j, r);
    } else if j.Obj? {
      KeptObject(vm, j, r);
    }
  }

  lemma {:induction false} KeptArray(vm: Vm, j: Json, r: Option<Json>)
    requires j.Arr? && Kept(vm, j)
    ensures Converts(Held(vm, j), r) <==> r == Some(j)
    decreases j, 0
  {
    var v := Held(vm, j);
    forall i, x | 0 <= i < |j.items|
      ensures ItemConverts(v, i, x) <==> x == Some(j.items[i])
    {
      ArrayItem(vm, j, i, x);
      KeptIsOnlyItself(vm, j.items[i], x);
    }
    ArrayDetermined(v, j.items, r);
    forall b: nat
      ensures IsBorder(v.entries, b) <==> b == |j.items|
    {
      FullArrayBorder(vm, j, b);
    }
    OneBorder(v, |j.items|, r);
  }

  lemma {:induction false} KeptObject(vm: Vm, j: Json, r: Option<Json>)
    requires j.Obj? && Kept(vm, j)
    ensures Converts(Held(vm, j), r) <==> r == Some(j)
    decreases j, 0
  {
    var v := Held(vm, j);
    forall k
      ensures k in v.entries <==> k.StrKey? && k.s in j.fields
    {
      ObjectEntry(vm, j, k);
    }
    forall k, x | k in v.entries
      ensures Converts(v.entries[k], x) <==> x == Some(j.fields[k.s])
    {
      ObjectEntry(vm, j, k);
      KeptIsOnlyItself(vm, j.fields[k.s], x);
    }
    ObjectDetermined(v, j.fields, r);
    forall b: nat
      ensures IsBorder(v.entries, b) <==> b == 0
    {
      ObjectBorder(vm, j, b);
    }
    OneBorder(v, 0, r);
  }

  // The other half: whatever is not kept can come back as something else.

  lemma {:induction false} SomeOutcome(v: Lua)
    ensures exists r :: Converts(v, r)
    decreases v, 1
  {
    match v
    case Table(t) =>
      SomeBorder(t, 0, t.Keys);
      var n: nat :| IsBorder(t, n);
      if n > 0 {
        var r := ArrayOutcome(v, n, n, None);
        assert Converts(v, r);
      } else {
        var r := ObjectOutcome(v, None, None);
        assert Converts(v, r);
      }
    case Nil => assert Converts(v, Some(Null));
    case Boolean(b) => assert Converts(v, Some(Bool(b)));
    case Number(n) => assert Converts(v, Some(Num(NumberBack(n))));
    case String(s) => assert Converts(v, Some(Str(s)));
    case NotFinite => assert Converts(v, None);
    case Unencodable => assert Converts(v, None);
  }

  lemma {:induction false} ItemOutcome(v: Lua, i: nat)
    requires v.Table?
    ensures exists x :: ItemConverts(v, i, x)
    decreases v, 0, 0
  {
    if IntKey(i + 1) in v.entries {
      SomeOutcome(v.entries[IntKey(i + 1)]);
      var x :| Converts(v.entries[IntKey(i + 1)], x);
      assert ItemConverts(v, i, x);
    } else {
      assert ItemConverts(v, i, Some(Null));
    }
  }

  ghost predicate HasItem(v: Lua, i: nat)
    requires v.Table?
  {
    exists y :: ItemConverts(v, i, Some(y))
  }

  ghost function AnItem(v: Lua, i: nat): (y: Json)
    requires v.Table? && HasItem(v, i)
    ensures ItemConverts(v, i, Some(y))
  {
    var y :| ItemConverts(v, i, Some(y)); y
  }

  /** Reading n items can end with a given outcome for one of them. */
  lemma {:induction false} ArrayOutcome(v: Lua, n: nat, i: nat, x: Option<Json>) returns (r: Option<Json>)
    requires v.Table? && (i < n ==> ItemConverts(v, i, x))
    ensures AsArray(v, n, r)
    ensures r.Some? && i < n ==> x == Some(r.value.items[i])
    decreases v, 0, 1
  {
    if k :| 0 <= k < n && ItemConverts(v, k, None) {
      r := None;
    } else {
      forall k: nat | k < n
        ensures HasItem(v, k)
      {
        ItemOutcome(v, k);
        var y :| ItemConverts(v, k, y);
        assert ItemConverts(v, k, Some(y.value));
      }
      r := Some(Arr(seq(n, k requires 0 <= k < n => if k == i then x.value else AnItem(v, k))));
    }
  }

  ghost predicate HasValue(v: Lua) {
    exists y :: Converts(v, Some(y))
  }

  ghost function AValue(v: Lua): (y: Json)
    requires HasValue(v)
    ensures Converts(v, Some(y))
  {
    var y :| Converts(v, Some(y)); y
  }

  ghost function KeyFor(t: map<Key, Lua>, name: string): (k: Key)
    requires exists k :: k in t && !k.OtherKey? && KeyText(k) == name
    ensures k in t && !k.OtherKey? && KeyText(k) == name
  {
    var k :| k in t && !k.OtherKey? && KeyText(k) == name; k
  }

  /** Reading the pairs can end with a given outcome for one of them. */
  lemma {:induction false} ObjectOutcome(v: Lua, key: Option<Key>, x: Option<Json>) returns (r: Option<Json>)
    requires v.Table? && (key.Some? ==> key.value in v.entries && Converts(v.entries[key.value], x))
    ensures AsObject(v, r)
    ensures r.Some? && key.Some? ==>
              && !key.value.OtherKey? && KeyText(key.value) in r.value.fields
              && x == Some(r.value.fields[KeyText(key.value)])
    decreases v, 0, 1
  {
    var t := v.entries;
    if k :| k in t && (k.OtherKey? || Converts(t[k], None)) {
      r := None;
    } else {
      forall k | k in t
        ensures HasValue(t[k])
      {
        SomeOutcome(t[k]);
        var y :| Converts(t[k], y);
        assert Converts(t[k], Some(y.value));
      }
      var names := set k | k in t :: KeyText(k);
      var fields := map name | name in names ::
        if key.Some? && KeyText(key.value) == name then x.value else AValue(t[KeyFor(t, name)]);
      forall name | name in fields
        ensures exists k :: k in t && !k.OtherKey? && KeyText(k) == name && Converts(t[k], Some(fields[name]))
      {
        var k := if key.Some? && KeyText(key.value) == name then key.value else KeyFor(t, name);
        assert k in t && KeyText(k) == name && Converts(t[k], Some(fields[name]));
      }
      r := Some(Obj(fields));
    }
  }

  /** A number that is not kept, and an array or object with an entry that is not, come back changed. */
  ghost predicate CanChange(vm: Vm, j: Json) {
    exists r :: Converts(Held(vm, j), r) && r != Some(j)
  }

  lemma {:induction false} NotKeptCanChange(vm: Vm, j: Json)
    requires !Kept(vm, j)
    ensures CanChange(vm, j)
    decreases j, 1
  {
    match j
    case Num(n) => assert Converts(Held(vm, j), Some(Num(NumberBack(vm.reread(Handed(vm, n))))));
    case Arr(items) =>
      if i :| 0 <= i < |items| && items[i].Null? {
        HoleCanChange(vm, j, i);
      } else if i :| 0 <= i < |items| && !Kept(vm, items[i]) {
        NotKeptCanChange(vm, items[i]);
        ItemCanChange(vm, j, i);
      } else {
        EmptyCanChange(vm);
      }
    case Obj(fields) =>
      if k :| k in fields && fields[k].Null? {
        NullFieldCanChange(vm, j, k);
      } else {
        var k :| k in fields && !Kept(vm, fields[k]);
        NotKeptCanChange(vm, fields[k]);
        FieldCanChange(vm, j, k);
      }
  }

  /** An empty array becomes an empty object. */
  lemma EmptyCanChange(vm: Vm)
    ensures CanChange(vm, Arr([]))
  {
    var v := Held(vm, Arr([]));
    ArrayEntry(vm, Arr([]), IntKey(1));
    assert IsBorder(v.entries, 0);
    var r := ObjectOutcome(v, None, None);
    assert Converts(v, r);
  }

  /** A border just before the first null cuts the array short, or makes an object of it. */
  lemma {:induction false} HoleCanChange(vm: Vm, j: Json, i: nat)
    requires j.Arr? && i < |j.items| && j.items[i].Null?
    ensures CanChange(vm, j)
    decreases i
  {
    if i > 0 && j.items[i - 1].Null? {
      HoleCanChange(vm, j, i - 1);
    } else {
      var v := Held(vm, j);
      ArrayEntry(vm, j, IntKey(i));
      ArrayEntry(vm, j, IntKey(i + 1));
      assert IsBorder(v.entries, i);
      var r;
      if i > 0 {
        r := ArrayOutcome(v, i, i, None);
      } else {
        r := ObjectOutcome(v, None, None);
      }
      assert Converts(v, r);
    }
  }

  lemma ItemCanChange(vm: Vm, j: Json, i: nat)
    requires j.Arr? && i < |j.items| && CanChange(vm, j.items[i])
    requires forall k :: 0 <= k < |j.items| ==> !j.items[k].Null?
    ensures CanChange(vm, j)
  {
    var v := Held(vm, j);
    var x :| Converts(Held(vm, j.items[i]), x) && x != Some(j.items[i]);
    ArrayItem(vm, j, i, x);
    FullArrayBorder(vm, j, |j.items|);
    var r := ArrayOutcome(v, |j.items|, i, x);
    assert Converts(v, r);
  }

  /** A null field is gone. */
  lemma NullFieldCanChange(vm: Vm, j: Json, name: string)
    requires j.Obj? && name in j.fields && j.fields[name].Null?
    ensures CanChange(vm, j)
  {
    var v := Held(vm, j);
    ObjectBorder(vm, j, 0);
    var r := ObjectOutcome(v, None, None);
    assert Converts(v, r);
    forall k | k in v.entries
      ensures k.StrKey? && KeyText(k) != name
    {
      ObjectEntry(vm, j, k);
    }
  }

  lemma FieldCanChange(vm: Vm, j: Json, name: string)
    requires j.Obj? && name in j.fields && !j.fields[name].Null? && CanChange(vm, j.fields[name])
    ensures CanChange(vm, j)
  {
    var v := Held(vm, j);
    var x :| Converts(Held(vm, j.fields[name]), x) && x != Some(j.fields[name]);
    ObjectEntry(vm, j, StrKey(name));
    ObjectBorder(vm, j, 0);
    var r := ObjectOutcome(v, Some(StrKey(name)), x);
    assert Converts(v, r);
  }

  /**
    Decoding a tree into Lua and encoding it again gives the tree back, whatever
    lengths and orders the tables report, if and only if every part of it is kept.
    */
  lemma RoundTripExactlyWhenKept(vm: Vm, j: Json)
    ensures Kept(vm, j) <==> forall r :: Converts(Held(vm, j), r) <==> r == Some(j)
  {
    if Kept(vm, j) {
      forall r
        ensures Converts(Held(vm, j), r) <==> r == Some(j)
      {
        KeptIsOnlyItself(vm, j, r);
      }
    } else {
      NotKeptCanChange(vm, j);
      var r :| Converts(Held(vm, j), r) && r != Some(j);
      assert !(Converts(Held(vm, j), r) <==> r == Some(j));
    }
  }

  /** Integers within 2^53 as the only numbers. */
  predicate Plain(j: Json) {
    match j
    case Num(n) => n.Int? && -EXACT <= n.i <= EXACT
    case Arr(items) => items != [] && forall i :: 0 <= i < |items| ==> !items[i].Null? && Plain(items[i])
    case Obj(fields) => forall k :: k in fields ==> !fields[k].Null? && Plain(fields[k])
    case _ => true
  }

  /** What a machine that keeps numbers as doubles guarantees. */
  ghost predicate KeepsExactIntegers(vm: Vm) {
    forall i :: -EXACT <= i <= EXACT ==> vm.reread(Integer(i)) == Integer(i)
  }

  lemma {:induction false} PlainIsKept(vm: Vm, j: Json)
    requires KeepsExactIntegers(vm) && Plain(j)
    ensures Kept(vm, j)
  {
    match j
    case Arr(items) =>
      forall i | 0 <= i < |items|
        ensures Kept(vm, items[i])
      {
        PlainIsKept(vm, items[i]);
      }
    case Obj(fields) =>
      forall k | k in fields
        ensures Kept(vm, fields[k])
      {
        PlainIsKept(vm, fields[k]);
      }
    case _ =>
  }

  lemma PlainTreesRoundTrip(vm: Vm, j: Json, r: Option<Json>)
    requires KeepsExactIntegers(vm) && Plain(j)
    ensures Converts(Held(vm, j), r) <==> r == Some(j)
  {
    PlainIsKept(vm, j);
    KeptIsOnlyItself(vm, j, r);
  }

  /** Outside a table a number survives exactly if it is a double or fits a signed 64-bit integer. */
  lemma NumbersHandedBack(vm: Vm, n: JsonNumber)
    ensures NumberBack(Handed(vm, n)) == n <==> n.Float? || n.i < 0x8000_0000_0000_0000
  {
  }

  /** A number key is encoded under its decimal numeral. */
  lemma NumberKeysAreNumerals(i: int)
    ensures i >= 0 ==> ValueOf(KeyText(IntKey(i))) == i
    ensures i < 0 ==> KeyText(IntKey(i))[0] == '-' && ValueOf(KeyText(IntKey(i))[1..]) == -i
  {
    DecimalDenotes(if i < 0 then -i else i);
  }

  // ---------------------------------------------------------------------
  // When encoding fails
  // ---------------------------------------------------------------------

  /** Nothing in the value is a function, a number that is not finite, or a key that is no string or number. */
  ghost predicate Encodable(v: Lua) {
    match v
    case NotFinite => false
    case Unencodable => false
    case Table(t) => forall k :: k in t ==> !k.OtherKey? && Encodable(t[k])
    case _ => true
  }

  /** Such a value is encoded whatever lengths and orders its tables report. */
  lemma {:induction false} EncodableNeverFails(v: Lua)
    requires Encodable(v)
    ensures !Converts(v, None)
  {
    match v
    case Table(t) =>
      forall k | k in t
        ensures !Converts(t[k], None)
      {
        EncodableNeverFails(t[k]);
      }
      forall n: nat
        ensures !AsArray(v, n, None)
      {
        assert forall i :: 0 <= i < n ==> !ItemConverts(v, i, None);
      }
      assert !AsObject(v, None);
    case _ =>
  }

  /** A value that is not encodable itself, or an object with a bad key or a bad value, is always refused. */
  lemma {:induction false} BadValuesFail(v: Lua, r: Option<Json>)
    requires Converts(v, r)
    ensures v.NotFinite? || v.Unencodable? ==> r == None
    ensures v.Table? && (forall k :: k in v.entries ==> !k.IntKey?)
            && (exists k :: k in v.entries && (k.OtherKey? || v.entries[k].NotFinite? || v.entries[k].Unencodable?))
            ==> r == None
  {
    if v.Table? && forall k :: k in v.entries ==> !k.IntKey? {
      var n: nat :| IsBorder(v.entries, n) && if n > 0 then AsArray(v, n, r) else AsObject(v, r);
      assert n == 0;
      forall k | r.Some? && k in v.entries
        ensures !k.OtherKey? && !v.entries[k].NotFinite? && !v.entries[k].Unencodable?
      {
        var x :| Converts(v.entries[k], Some(x));
      }
    }
  }
}
