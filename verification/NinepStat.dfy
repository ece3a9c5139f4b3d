/**
  Stat records and directory reads (`encode_qid`, `encode_stat` and the directory
  branch of `handle_read` in src/frontend/ninep.rs), and reading them back as
  tests/common/mod.rs does.
  */
module NinepStat {
  import opened Wrappers
  import opened Folds
  import opened Bytes
  import opened NinepTable
  import opened NinepMessages
  import opened NinepSession

  datatype Qid = Qid(ty: byte, version: nat, path: nat)

  const QTDIR: byte := 0x80
  const QTFILE: byte := 0
  const DIR_MODE := 0x8000_01ed
  const FILE_MODE := 0x1ed

  /** The longest name whose record still fits its 16-bit size field. */
  const MAX_NAME := 65485

  function EncodeQid(q: Qid): (s: seq<byte>)
    ensures |s| == 13
  {
    [q.ty] + U32(q.version) + U64(q.path)
  }

  /** type and dev, both zero. */
  const KIND: seq<byte> := U16(0) + U32(0)

  function Attributes(isDir: bool, now: nat, length: nat): (s: seq<byte>)
    ensures |s| == 20
  {
    U32(if isDir then DIR_MODE else FILE_MODE) + U32(now) + U32(now) + U64(length)
  }

  /** uid, gid and muid as the server writes them: length two, one byte of data. */
  const OWNERS: seq<byte> := U16(2) + [48] + U16(2) + [48] + U16(2) + [48]

  function StatBody(name: seq<byte>, qid: Qid, length: nat, isDir: bool, now: nat): (s: seq<byte>)
    ensures |s| == 50 + |name|
  {
    KIND + EncodeQid(qid) + Attributes(isDir, now, length) + (U16(|name|) + name + OWNERS)
  }

  function EncodeStat(name: seq<byte>, qid: Qid, length: nat, isDir: bool, now: nat): (s: seq<byte>)
    ensures |s| == 52 + |name|
  {
    var body := StatBody(name, qid, length, isDir, now);
    U16(|body|) + body
  }

  // ---------------------------------------------------------------------
  // Reading records back
  // ---------------------------------------------------------------------

  /** The fields of a record that survive the trip. */
  datatype StatView = StatView(qidType: byte, qidPath: nat, mode: nat, length: nat, name: seq<byte>)

  /** A record without its size field, cut at the fixed offsets of stat(5). */
  function DecodeBody(body: seq<byte>): Option<StatView> {
    if |body| < 41 then None
    else
      var qid, attrs, rest := body[6..19], body[19..39], body[39..];
      var n := Field(rest, 0, 2);
      if 2 + n > |rest| then None
      else Some(StatView(qid[0], Field(qid, 5, 8), Field(attrs, 0, 4), Field(attrs, 12, 8), rest[2..2 + n]))
  }

  /** Split a directory read at its size fields. */
  function SplitStats(raw: seq<byte>): seq<StatView> {
    if |raw| < 2 then []
    else
      var size := Field(raw, 0, 2);
      if 2 + size > |raw| then []
      else
        var view := DecodeBody(raw[2..2 + size]);
        (if view.Some? then [view.value] else []) + SplitStats(raw[2 + size..])
  }

  function ViewOf(name: seq<byte>, qid: Qid, length: nat, isDir: bool): StatView {
    StatView(qid.ty, qid.path, if isDir then DIR_MODE else FILE_MODE, length, name)
  }

  lemma QidFields(q: Qid)
    requires q.path < U64_LIMIT
    ensures EncodeQid(q)[0] == q.ty && Field(EncodeQid(q), 5, 8) == q.path
  {
    Limits();
    assert EncodeQid(q) == ([q.ty] + U32(q.version)) + ToLE(8, q.path) + [];
    FieldOf([q.ty] + U32(q.version), 8, q.path, []);
  }

  lemma AttributeFields(isDir: bool, now: nat, length: nat)
    requires length < U64_LIMIT
    ensures Field(Attributes(isDir, now, length), 0, 4) == if isDir then DIR_MODE else FILE_MODE
    ensures Field(Attributes(isDir, now, length), 12, 8) == length
  {
    Limits();
    var mode := if isDir then DIR_MODE else FILE_MODE;
    var s := Attributes(isDir, now, length);
    assert s == [] + ToLE(4, mode) + (U32(now) + U32(now) + U64(length));
    FieldOf([], 4, mode, U32(now) + U32(now) + U64(length));
    assert s == (U32(mode) + U32(now) + U32(now)) + ToLE(8, length) + [];
    FieldOf(U32(mode) + U32(now) + U32(now), 8, length, []);
  }

  lemma NameField(name: seq<byte>)
    requires |name| < U16_LIMIT
    ensures var rest := U16(|name|) + name + OWNERS;
            Field(rest, 0, 2) == |name| && rest[2..2 + |name|] == name
  {
    Limits();
    var rest := U16(|name|) + name + OWNERS;
    assert rest == [] + ToLE(2, |name|) + (name + OWNERS);
    FieldOf([], 2, |name|, name + OWNERS);
  }

  /** Cutting a concatenation of three known lengths and a tail. */
  lemma Cut(a: seq<byte>, b: seq<byte>, c: seq<byte>, d: seq<byte>)
    ensures var s := a + b + c + d;
            && s[|a|..|a| + |b|] == b
            && s[|a| + |b|..|a| + |b| + |c|] == c
            && s[|a| + |b| + |c|..] == d
  {
  }

  lemma DecodeBodyInverts(name: seq<byte>, qid: Qid, length: nat, isDir: bool, now: nat)
    requires |name| <= MAX_NAME && qid.path < U64_LIMIT && length < U64_LIMIT
    ensures DecodeBody(StatBody(name, qid, length, isDir, now)) == Some(ViewOf(name, qid, length, isDir))
  {
    Cut(KIND, EncodeQid(qid), Attributes(isDir, now, length), U16(|name|) + name + OWNERS);
    QidFields(qid);
    AttributeFields(isDir, now, length);
    NameField(name);
  }

  /** Splitting finds an encoded record at the front and continues right behind it. */
  lemma SplitFirst(name: seq<byte>, qid: Qid, length: nat, isDir: bool, now: nat, rest: seq<byte>)
    requires |name| <= MAX_NAME && qid.path < U64_LIMIT && length < U64_LIMIT
    ensures SplitStats(EncodeStat(name, qid, length, isDir, now) + rest)
         == [ViewOf(name, qid, length, isDir)] + SplitStats(rest)
  {
    var body := StatBody(name, qid, length, isDir, now);
    var raw := EncodeStat(name, qid, length, isDir, now) + rest;
    Limits();
    assert raw == [] + ToLE(2, |body|) + (body + rest);
    FieldOf([], 2, |body|, body + rest);
    assert raw[2..2 + |body|] == body;
    assert raw[2 + |body|..] == rest;
    DecodeBodyInverts(name, qid, length, isDir, now);
  }

  // ---------------------------------------------------------------------
  // Directory reads
  // ---------------------------------------------------------------------

  /** The name under which a child is listed. */
  function ListedName(dir: Path, path: Path): seq<byte>
    requires IsChild(dir, path)
  {
    var rest := path[|Join(dir, [])|..];
    if rest == [] then [DOT] else rest
  }

  function ChildQid(q: nat, isDir: bool): Qid {
    Qid(if isDir then QTDIR else QTFILE, 0, q)
  }

  const DOT_QID: Qid := Qid(QTDIR, 0, 0)

  ghost predicate AllChildren(t: Table, dir: Path, order: seq<nat>) {
    forall i :: 0 <= i < |order| ==> order[i] in t.paths && IsChild(dir, t.paths[order[i]].path)
  }

  /** `order` lists every known direct child once and nothing else. */
  ghost predicate Enumerates(t: Table, dir: Path, order: seq<nat>) {
    && NoRepeats(order)
    && AllChildren(t, dir, order)
    && forall q :: q in Children(t, dir) ==> q in order
  }

  /** One record to be written: what varies between the records of a listing. */
  datatype Entry = Entry(name: seq<byte>, qid: Qid, isDir: bool, now: nat)

  function EncodeEntry(e: Entry): seq<byte> {
    EncodeStat(e.name, e.qid, 0, e.isDir, e.now)
  }

  function EncodeEntries(entries: seq<Entry>): seq<byte> {
    Flatten(seq(|entries|, i requires 0 <= i < |entries| => EncodeEntry(entries[i])))
  }

  function EntryView(e: Entry): StatView {
    ViewOf(e.name, e.qid, 0, e.isDir)
  }

  predicate EntryFits(e: Entry) {
    |e.name| <= MAX_NAME && e.qid.path < U64_LIMIT
  }

  /** `record` is read back as `view`, whatever follows it. */
  ghost predicate Reads(record: seq<byte>, view: StatView) {
    forall rest :: SplitStats(record + rest) == [view] + SplitStats(rest)
  }

  lemma EntryReads(e: Entry)
    requires EntryFits(e)
    ensures Reads(EncodeEntry(e), EntryView(e))
  {
    forall rest
      ensures SplitStats(EncodeEntry(e) + rest) == [EntryView(e)] + SplitStats(rest)
    {
      SplitFirst(e.name, e.qid, 0, e.isDir, e.now, rest);
    }
  }

  lemma {:induction false} SplitRecords(records: seq<seq<byte>>, views: seq<StatView>, rest: seq<byte>)
    requires |records| == |views| && forall i :: 0 <= i < |records| ==> Reads(records[i], views[i])
    ensures SplitStats(Flatten(records) + rest) == views + SplitStats(rest)
  {
    if records == [] {
      assert [] + rest == rest;
    } else {
      var n := |records| - 1;
      var tail := records[n] + rest;
      assert Flatten(records) + rest == Flatten(records[..n]) + tail;
      SplitRecords(records[..n], views[..n], tail);
      assert Reads(records[n], views[n]);
      assert SplitStats(tail) == [views[n]] + SplitStats(rest);
      assert views == views[..n] + [views[n]];
    }
  }

  function EntryViews(entries: seq<Entry>): seq<StatView> {
    seq(|entries|, i requires 0 <= i < |entries| => EntryView(entries[i]))
  }

  lemma SplitEntries(entries: seq<Entry>)
    requires forall i :: 0 <= i < |entries| ==> EntryFits(entries[i])
    ensures SplitStats(EncodeEntries(entries)) == EntryViews(entries)
  {
    var records := seq(|entries|, i requires 0 <= i < |entries| => EncodeEntry(entries[i]));
    forall i | 0 <= i < |records|
      ensures Reads(records[i], EntryViews(entries)[i])
    {
      EntryReads(entries[i]);
    }
    SplitRecords(records, EntryViews(entries), []);
    assert Flatten(records) + [] == Flatten(records);
  }

  lemma EncodeEntriesSnoc(entries: seq<Entry>, e: Entry)
    ensures EncodeEntries(entries + [e]) == EncodeEntries(entries) + EncodeEntry(e)
  {
    var all := entries + [e];
    var records := seq(|all|, i requires 0 <= i < |all| => EncodeEntry(all[i]));
    assert records[..|entries|] == seq(|entries|, i requires 0 <= i < |entries| => EncodeEntry(entries[i]));
  }

  /** The entry a child contributes. */
  function ChildEntry(t: Table, dir: Path, q: nat, now: nat): Entry
    requires q in t.paths && IsChild(dir, t.paths[q].path)
  {
    Entry(ListedName(dir, t.paths[q].path), ChildQid(q, t.paths[q].isDir), t.paths[q].isDir, now)
  }

  /** `entries` are the records of the children in `order`; each reads the clock anew. */
  ghost predicate EntriesOf(t: Table, dir: Path, order: seq<nat>, clock: nat -> nat, entries: seq<Entry>)
    requires AllChildren(t, dir, order)
  {
    |entries| == |order| && forall i :: 0 <= i < |order| ==> entries[i] == ChildEntry(t, dir, order[i], clock(i))
  }

  /** The listing loop has dealt with every qid outside `rest`. */
  ghost predicate Visited(t: Table, dir: Path, rest: set<nat>, order: seq<nat>) {
    && NoRepeats(order)
    && AllChildren(t, dir, order)
    && (forall i :: 0 <= i < |order| ==> order[i] !in rest)
    && (forall q :: q in t.paths && q !in rest && IsChild(dir, t.paths[q].path) ==> q in order)
  }

  ghost predicate Listing(
    t: Table, dir: Path, rest: set<nat>, order: seq<nat>, clock: nat -> nat, entries: seq<Entry>)
  {
    Visited(t, dir, rest, order) && EntriesOf(t, dir, order, clock, entries)
  }

  lemma VisitedChild(t: Table, dir: Path, rest: set<nat>, order: seq<nat>, q: nat)
    requires Visited(t, dir, rest, order) && q in rest && q in t.paths && IsChild(dir, t.paths[q].path)
    ensures Visited(t, dir, rest - {q}, order + [q])
  {
  }

  lemma VisitChild(
    t: Table, dir: Path, rest: set<nat>, order: seq<nat>, clock: nat -> nat, entries: seq<Entry>, q: nat)
    requires Listing(t, dir, rest, order, clock, entries)
    requires q in rest && q in t.paths && IsChild(dir, t.paths[q].path)
    ensures Listing(t, dir, rest - {q}, order + [q], clock, entries + [ChildEntry(t, dir, q, clock(|order|))])
  {
    VisitedChild(t, dir, rest, order, q);
  }

  lemma VisitOther(t: Table, dir: Path, rest: set<nat>, order: seq<nat>, clock: nat -> nat, entries: seq<Entry>, q: nat)
    requires Listing(t, dir, rest, order, clock, entries) && (q in t.paths ==> !IsChild(dir, t.paths[q].path))
    ensures Listing(t, dir, rest - {q}, order, clock, entries)
  {
  }

  /** The records of all direct children, one each, in some order. */
  ghost predicate IsListingOf(t: Table, dir: Path, clock: nat -> nat, data: seq<byte>) {
    exists order, entries ::
      Enumerates(t, dir, order) && EntriesOf(t, dir, order, clock, entries) && data == EncodeEntries(entries)
  }

  /** The listing loop: the path table is visited in the hash map's own order. */
  method ListChildren(t: Table, dir: Path, clock: nat -> nat) returns (data: seq<byte>)
    ensures IsListingOf(t, dir, clock, data)
  {
    var prefix := if dir != [] && dir[|dir| - 1] == SLASH then dir else dir + [SLASH];
    assert prefix == Join(dir, []);
    data := [];
    ghost var order: seq<nat> := [];
    ghost var entries: seq<Entry> := [];
    var rest, listed := t.paths.Keys, 0;
    while rest != {}
      invariant rest <= t.paths.Keys && listed == |order|
      invariant Listing(t, dir, rest, order, clock, entries)
      invariant data == EncodeEntries(entries)
      decreases |rest|
    {
      var q :| q in rest;
      var e := t.paths[q];
      if e.path == dir || !(prefix <= e.path) || SLASH in e.path[|prefix|..] {
        VisitOther(t, dir, rest, order, clock, entries, q);
      } else {
        var name := if e.path[|prefix|..] == [] then [DOT] else e.path[|prefix|..];
        var entry := Entry(name, ChildQid(q, e.isDir), e.isDir, clock(listed));
        assert entry == ChildEntry(t, dir, q, clock(listed));
        VisitChild(t, dir, rest, order, clock, entries, q);
        EncodeEntriesSnoc(entries, entry);
        data := data + EncodeEntry(entry);
        order, entries, listed := order + [q], entries + [entry], listed + 1;
      }
      rest := rest - {q};
    }
    assert Enumerates(t, dir, order) && EntriesOf(t, dir, order, clock, entries);
  }

  /**
    The directory branch of `handle_read`, from the router's answer onwards. At
    offset 0, splitting the bytes gives "." and then each known child exactly once.
    */
  method ReadDirectory(t: Table, dir: Path, offset: nat, clock: nat -> nat, now: nat) returns (chunk: seq<byte>)
    ensures exists data ::
              && IsListingOf(t, dir, clock, data)
              && var all := (if offset == 0 then EncodeEntry(DotEntry(now)) else []) + data;
                 chunk == if offset < |all| then all[offset..] else []
    ensures offset == 0 && Fits(t, dir) ==> ListsChildren(t, dir, SplitStats(chunk))
  {
    var data := ListChildren(t, dir, clock);
    ghost var listing := data;
    if offset == 0 {
      data := EncodeEntry(DotEntry(now)) + data;
    }
    chunk := if offset < |data| then data[offset..] else [];
    if offset == 0 {
      assert chunk == EncodeEntry(DotEntry(now)) + listing;
      if Fits(t, dir) {
        ListingRoundTrips(t, dir, clock, listing, now);
      }
    } else {
      assert [] + listing == listing;
    }
  }

  lemma ListingRoundTrips(t: Table, dir: Path, clock: nat -> nat, data: seq<byte>, now: nat)
    requires IsListingOf(t, dir, clock, data) && Fits(t, dir)
    ensures ListsChildren(t, dir, SplitStats(EncodeEntry(DotEntry(now)) + data))
  {
    var order, entries :|
      Enumerates(t, dir, order) && EntriesOf(t, dir, order, clock, entries) && data == EncodeEntries(entries);
    DirectoryReadRoundTrips(t, dir, order, clock, entries, now);
  }

  function DotEntry(now: nat): Entry {
    Entry([DOT], DOT_QID, true, now)
  }

  /** Qids and child names are within the widths of their wire fields. */
  ghost predicate Fits(t: Table, dir: Path) {
    forall q :: q in t.paths ==>
      q < U64_LIMIT && (IsChild(dir, t.paths[q].path) ==> |ListedName(dir, t.paths[q].path)| <= MAX_NAME)
  }

  /** "." and then one record for each listed qid, in order, with its name. */
  ghost predicate IsListing(t: Table, dir: Path, order: seq<nat>, now: nat, views: seq<StatView>)
    requires Enumerates(t, dir, order)
  {
    && |views| == 1 + |order|
    && views[0] == EntryView(DotEntry(now))
    && forall i :: 0 <= i < |order| ==>
         var e := t.paths[order[i]];
         views[1 + i] == ViewOf(ListedName(dir, e.path), ChildQid(order[i], e.isDir), 0, e.isDir)
  }

  lemma EntriesAreListing(
    t: Table, dir: Path, order: seq<nat>, clock: nat -> nat, entries: seq<Entry>, now: nat, views: seq<StatView>)
    requires Enumerates(t, dir, order) && EntriesOf(t, dir, order, clock, entries)
    requires views == [EntryView(DotEntry(now))] + EntryViews(entries)
    ensures IsListing(t, dir, order, now, views)
  {
    forall i | 0 <= i < |order|
      ensures var e := t.paths[order[i]];
              views[1 + i] == ViewOf(ListedName(dir, e.path), ChildQid(order[i], e.isDir), 0, e.isDir)
    {
      assert entries[i] == ChildEntry(t, dir, order[i], clock(i));
    }
  }

  /** A record of the file with qid `q`, under the one name that leads to it from `dir`. */
  ghost predicate Shows(t: Table, dir: Path, q: nat, v: StatView) {
    && q in t.paths && t.paths[q].path != dir
    && var isDir := t.paths[q].isDir;
       exists n :: && SLASH !in n && t.paths[q].path == Join(dir, n)
                   && v == StatView(if isDir then 0x80 else 0, q, if isDir then 0x8000_01ed else 0x1ed, 0,
                                    if n == [] then [46] else n)
  }

  /** "." and then exactly one record for each known file whose path is the directory's and one more name. */
  ghost predicate ListsChildren(t: Table, dir: Path, views: seq<StatView>) {
    && views != [] && views[0] == StatView(0x80, 0, 0x8000_01ed, 0, [46])
    && (forall i :: 1 <= i < |views| ==> Shows(t, dir, views[i].qidPath, views[i]))
    && (forall i, j :: 1 <= i < j < |views| ==> views[i].qidPath != views[j].qidPath)
    && (forall n, q :: SLASH !in n && Join(dir, n) != dir && Names(t, q, Join(dir, n)) ==>
          exists i :: 1 <= i < |views| && views[i].qidPath == q)
  }

  lemma ListedChildShows(t: Table, dir: Path, q: nat)
    requires q in t.paths && IsChild(dir, t.paths[q].path)
    ensures var e := t.paths[q];
            Shows(t, dir, q, ViewOf(ListedName(dir, e.path), ChildQid(q, e.isDir), 0, e.isDir))
  {
    var path, prefix := t.paths[q].path, Join(dir, []);
    var n := path[|prefix|..];
    assert path == prefix + n == Join(dir, n);
  }

  lemma ListingListsChildren(t: Table, dir: Path, order: seq<nat>, now: nat, views: seq<StatView>)
    requires Enumerates(t, dir, order) && IsListing(t, dir, order, now, views)
    ensures ListsChildren(t, dir, views)
  {
    forall i | 1 <= i < |views|
      ensures views[i].qidPath == order[i - 1] && Shows(t, dir, views[i].qidPath, views[i])
    {
      assert views[1 + (i - 1)] == views[i];
      ListedChildShows(t, dir, order[i - 1]);
    }
    forall n, q | SLASH !in n && Join(dir, n) != dir && Names(t, q, Join(dir, n))
      ensures exists i :: 1 <= i < |views| && views[i].qidPath == q
    {
      ChildIsJoin(dir, Join(dir, n));
      assert q in Children(t, dir);
      var i :| 0 <= i < |order| && order[i] == q;
      assert views[1 + i].qidPath == q;
    }
  }

  /**
    Splitting what a directory read at offset 0 returns gives "." and then, for
    every known direct child and nothing else, one record with its name and qid.
    */
  lemma DirectoryReadRoundTrips(t: Table, dir: Path, order: seq<nat>, clock: nat -> nat, entries: seq<Entry>, now: nat)
    requires Enumerates(t, dir, order) && EntriesOf(t, dir, order, clock, entries) && Fits(t, dir)
    ensures IsListing(t, dir, order, now, SplitStats(EncodeEntry(DotEntry(now)) + EncodeEntries(entries)))
    ensures ListsChildren(t, dir, SplitStats(EncodeEntry(DotEntry(now)) + EncodeEntries(entries)))
  {
    var views := [EntryView(DotEntry(now))] + EntryViews(entries);
    ListedEntriesFit(t, dir, order, clock, entries);
    SplitListing(entries, now);
    EntriesAreListing(t, dir, order, clock, entries, now, views);
    ListingListsChildren(t, dir, order, now, views);
  }

  lemma ListedEntriesFit(t: Table, dir: Path, order: seq<nat>, clock: nat -> nat, entries: seq<Entry>)
    requires Enumerates(t, dir, order) && EntriesOf(t, dir, order, clock, entries) && Fits(t, dir)
    ensures forall i :: 0 <= i < |entries| ==> EntryFits(entries[i])
  {
    forall i | 0 <= i < |entries|
      ensures EntryFits(entries[i])
    {
      assert entries[i] == ChildEntry(t, dir, order[i], clock(i));
    }
  }

  lemma SplitListing(entries: seq<Entry>, now: nat)
    requires forall i :: 0 <= i < |entries| ==> EntryFits(entries[i])
    ensures SplitStats(EncodeEntry(DotEntry(now)) + EncodeEntries(entries))
         == [EntryView(DotEntry(now))] + EntryViews(entries)
  {
    EntryReads(DotEntry(now));
    SplitEntries(entries);
  }

  /** No path of the table is the directory's own path with a slash added. */
  predicate NoTrailingSlash(t: Table, dir: Path) {
    Join(dir, []) == dir || !Known(t, Join(dir, []))
  }

  /**
    The table being injective, no name is listed twice, and appending a listed
    name to the directory gives the child's path back.
    */
  lemma ListedNamesAreDistinct(t: Table, dir: Path, order: seq<nat>, i: nat, j: nat)
    requires PathsOk(t) && NoTrailingSlash(t, dir) && Enumerates(t, dir, order) && i < j < |order|
    ensures var p, q := t.paths[order[i]].path, t.paths[order[j]].path;
            ListedName(dir, p) != ListedName(dir, q) && Join(dir, ListedName(dir, p)) == p
  {
    ListedNameIsRest(t, dir, order[i]);
    ListedNameIsRest(t, dir, order[j]);
  }

  lemma ListedNameIsRest(t: Table, dir: Path, q: nat)
    requires q in t.paths && IsChild(dir, t.paths[q].path) && NoTrailingSlash(t, dir)
    ensures Join(dir, ListedName(dir, t.paths[q].path)) == t.paths[q].path
  {
    var path, prefix := t.paths[q].path, Join(dir, []);
    var rest := path[|prefix|..];
    assert path == prefix + rest;
    assert rest == [] ==> path == prefix && Known(t, prefix);
    assert Join(dir, rest) == prefix + rest;
  }

  // ---------------------------------------------------------------------
  // Reading a directory until nothing comes
  // ---------------------------------------------------------------------

  /** The room that a child's record takes. */
  function RecordLength(t: Table, dir: Path): nat -> nat {
    q => if q in t.paths && IsChild(dir, t.paths[q].path) then 52 + |ListedName(dir, t.paths[q].path)| else 0
  }

  lemma {:induction false} EntriesTotal(entries: seq<Entry>, order: seq<nat>, f: nat -> nat)
    requires |entries| == |order| && forall i :: 0 <= i < |order| ==> f(order[i]) == 52 + |entries[i].name|
    ensures |EncodeEntries(entries)| == Total(f, order)
  {
    if order != [] {
      var n := |order| - 1;
      EntriesTotal(entries[..n], order[..n], f);
      EncodeEntriesSnoc(entries[..n], entries[n]);
      assert entries == entries[..n] + [entries[n]];
    }
  }

  lemma EntriesLength(t: Table, dir: Path, order: seq<nat>, clock: nat -> nat, entries: seq<Entry>)
    requires AllChildren(t, dir, order) && EntriesOf(t, dir, order, clock, entries)
    ensures |EncodeEntries(entries)| == Total(RecordLength(t, dir), order)
  {
    forall i | 0 <= i < |order|
      ensures RecordLength(t, dir)(order[i]) == 52 + |entries[i].name|
    {
      assert entries[i] == ChildEntry(t, dir, order[i], clock(i));
    }
    EntriesTotal(entries, order, RecordLength(t, dir));
  }

  lemma ListingsAgreeInLength(
    t: Table, dir: Path, clock: nat -> nat, data: seq<byte>, clock': nat -> nat, data': seq<byte>)
    requires IsListingOf(t, dir, clock, data) && IsListingOf(t, dir, clock', data')
    ensures |data| == |data'|
  {
    var order, entries :|
      Enumerates(t, dir, order) && EntriesOf(t, dir, order, clock, entries) && data == EncodeEntries(entries);
    var order', entries' :|
      Enumerates(t, dir, order') && EntriesOf(t, dir, order', clock', entries') && data' == EncodeEntries(entries');
    EntriesLength(t, dir, order, clock, entries);
    EntriesLength(t, dir, order', clock', entries');
    forall q
      ensures q in order <==> q in Children(t, dir)
      ensures q in order' <==> q in Children(t, dir)
    {
    }
    SameTotal(RecordLength(t, dir), order, order');
  }

  /**
    The client's read loop on a directory whose table does not change: the first
    reply is the whole listing, and the next read, from where it ended, is empty -
    although it leaves out the "." record and may visit the children in another
    order. So the client gets "." and each known child once.
    */
  method ReadWholeDirectory(t: Table, dir: Path, clocks: nat -> nat -> nat, nows: nat -> nat)
    returns (raw: seq<byte>, rounds: nat)
    ensures rounds == 2
    ensures exists data :: IsListingOf(t, dir, clocks(0), data) && raw == EncodeEntry(DotEntry(nows(0))) + data
    ensures Fits(t, dir) ==> ListsChildren(t, dir, SplitStats(raw))
  {
    raw, rounds := [], 0;
    var offset := 0;
    ghost var first: seq<byte> := [];
    while true
      invariant rounds <= 1 && offset == |raw|
      invariant rounds == 0 ==> raw == []
      invariant rounds == 1 ==> IsListingOf(t, dir, clocks(0), first) && raw == EncodeEntry(DotEntry(nows(0))) + first
      decreases 2 - rounds
    {
      var chunk := ReadDirectory(t, dir, offset, clocks(rounds), nows(rounds));
      ghost var data :|
        && IsListingOf(t, dir, clocks(rounds), data)
        && var all := (if offset == 0 then EncodeEntry(DotEntry(nows(rounds))) else []) + data;
           chunk == if offset < |all| then all[offset..] else [];
      if rounds == 0 {
        first := data;
      } else {
        ListingsAgreeInLength(t, dir, clocks(0), first, clocks(rounds), data);
      }
      rounds := rounds + 1;
      if chunk == [] {
        break;
      }
      raw := raw + chunk;
      offset := offset + |chunk|;
    }
    if Fits(t, dir) {
      ListingRoundTrips(t, dir, clocks(0), first, nows(0));
    }
  }

  // ---------------------------------------------------------------------
  // The directory decoder of the integration tests
  // ---------------------------------------------------------------------

  const NAME_START := 41

  /** The decoder keeps a name unless it is empty or one of the two dot entries. */
  function Kept(name: seq<byte>): seq<seq<byte>> {
    if name == [] || name == [DOT] || name == [DOT, DOT] then [] else [name]
  }

  /** The names `parse_readdir_entries` collects, before it sorts them. */
  function ReaddirNames(raw: seq<byte>): seq<seq<byte>> {
    if |raw| < 2 then []
    else
      var size := Field(raw, 0, 2);
      if size == 0 || size > |raw| then []
      else if size < NAME_START + 2 then ReaddirNames(raw[size..])
      else
        var n := Field(raw, NAME_START, 2);
        if NAME_START + 2 + n > size then ReaddirNames(raw[size..])
        else
          Kept(raw[NAME_START + 2..NAME_START + 2 + n]) +
          if size + 2 <= |raw| then ReaddirNames(raw[size + 2..]) else []
  }

  function AllKept(entries: seq<Entry>): seq<seq<byte>> {
    if entries == [] then [] else AllKept(entries[..|entries| - 1]) + Kept(entries[|entries| - 1].name)
  }

  lemma ReaddirSize(e: Entry, rest: seq<byte>)
    requires EntryFits(e)
    ensures var raw := EncodeEntry(e) + rest;
            Field(raw, 0, 2) == 50 + |e.name| && raw[52 + |e.name|..] == rest
  {
    Limits();
    var body := StatBody(e.name, e.qid, 0, e.isDir, e.now);
    assert EncodeEntry(e) + rest == [] + ToLE(2, |body|) + (body + rest);
    FieldOf([], 2, |body|, body + rest);
  }

  lemma Inside(a: seq<byte>, b: seq<byte>, c: seq<byte>, i: nat, j: nat)
    requires i <= j <= |b|
    ensures (a + b + c)[|a| + i..|a| + j] == b[i..j]
  {
  }

  lemma Regroup(a: seq<byte>, b: seq<byte>, c: seq<byte>, d: seq<byte>, e: seq<byte>, rest: seq<byte>)
    ensures a + (b + c + d + e) + rest == (a + b + c + d) + e + rest
  {
  }

  /** The name field sits where the decoder looks for it. */
  lemma ReaddirName(e: Entry, rest: seq<byte>)
    requires EntryFits(e)
    ensures var raw, n := EncodeEntry(e) + rest, |e.name|;
            Field(raw, NAME_START, 2) == n && raw[NAME_START + 2..NAME_START + 2 + n] == e.name
  {
    var n, qid, attrs := |e.name|, EncodeQid(e.qid), Attributes(e.isDir, e.now, 0);
    var name := U16(n) + e.name + OWNERS;
    var head := U16(50 + n) + KIND + qid + attrs;
    NameField(e.name);
    Regroup(U16(50 + n), KIND, qid, attrs, name, rest);
    Inside(head, name, rest, 0, 2);
    Inside(head, name, rest, 2, 2 + n);
  }

  lemma ReaddirFirst(e: Entry, rest: seq<byte>)
    requires EntryFits(e)
    ensures ReaddirNames(EncodeEntry(e) + rest) == Kept(e.name) + ReaddirNames(rest)
  {
    ReaddirSize(e, rest);
    ReaddirName(e, rest);
  }

  lemma {:induction false} ReaddirEntries(entries: seq<Entry>, rest: seq<byte>)
    requires forall i :: 0 <= i < |entries| ==> EntryFits(entries[i])
    ensures ReaddirNames(EncodeEntries(entries) + rest) == AllKept(entries) + ReaddirNames(rest)
  {
    if entries == [] {
      assert EncodeEntries(entries) + rest == rest;
    } else {
      var n := |entries| - 1;
      var tail := EncodeEntry(entries[n]) + rest;
      EncodeEntriesSnoc(entries[..n], entries[n]);
      assert entries == entries[..n] + [entries[n]];
      assert EncodeEntries(entries) + rest == EncodeEntries(entries[..n]) + tail;
      ReaddirEntries(entries[..n], tail);
      ReaddirFirst(entries[n], rest);
    }
  }

  lemma {:induction false} AllKeptHolds(entries: seq<Entry>, name: seq<byte>)
    ensures name in AllKept(entries) <==>
              && name != [] && name != [DOT] && name != [DOT, DOT]
              && exists i :: 0 <= i < |entries| && entries[i].name == name
  {
    if entries != [] {
      var n := |entries| - 1;
      AllKeptHolds(entries[..n], name);
      assert entries[n].name == name || (forall i :: 0 <= i < |entries| && entries[i].name == name ==> i < n);
    }
  }

  /**
    The tests' decoder, on a directory read at offset 0: it finds exactly the names,
    other than "." and "..", under which a file is known in the directory.
    */
  lemma ReaddirFindsChildren(
    t: Table, dir: Path, clock: nat -> nat, data: seq<byte>, now: nat, name: seq<byte>)
    requires IsListingOf(t, dir, clock, data) && Fits(t, dir)
    ensures name in ReaddirNames(EncodeEntry(DotEntry(now)) + data) <==>
              && name != [] && name != [DOT] && name != [DOT, DOT] && SLASH !in name
              && Known(t, Join(dir, name))
  {
    var order, entries :|
      Enumerates(t, dir, order) && EntriesOf(t, dir, order, clock, entries) && data == EncodeEntries(entries);
    ListedEntriesFit(t, dir, order, clock, entries);
    ReaddirFirst(DotEntry(now), data);
    ReaddirEntries(entries, []);
    assert data + [] == data;
    AllKeptHolds(entries, name);
    if name != [] && name != [DOT] {
      ListedWhenKnown(t, dir, order, clock, entries, name);
    }
  }

  lemma ListedWhenKnown(t: Table, dir: Path, order: seq<nat>, clock: nat -> nat, entries: seq<Entry>, name: seq<byte>)
    requires Enumerates(t, dir, order) && EntriesOf(t, dir, order, clock, entries) && name != [] && name != [DOT]
    ensures (exists i :: 0 <= i < |entries| && entries[i].name == name)
       <==> SLASH !in name && Known(t, Join(dir, name))
  {
    var prefix := Join(dir, []);
    assert Join(dir, name) == prefix + name;
    if i :| 0 <= i < |entries| && entries[i].name == name {
      assert entries[i] == ChildEntry(t, dir, order[i], clock(i));
      var path := t.paths[order[i]].path;
      assert path == prefix + path[|prefix|..];
    }
    if SLASH !in name && Known(t, Join(dir, name)) {
      var q :| q in t.paths && t.paths[q].path == Join(dir, name);
      assert t.paths[q].path[|prefix|..] == name;
      assert q in Children(t, dir);
      var i :| 0 <= i < |order| && order[i] == q;
      assert entries[i] == ChildEntry(t, dir, order[i], clock(i));
    }
  }

  // ---------------------------------------------------------------------
  // The record in a Twstat
  // ---------------------------------------------------------------------

  /** A Twstat that carries a stat record asks for the record's name, unless it is empty, and for its attributes. */
  lemma WstatCarriesName(fid: nat, name: seq<byte>, qid: Qid, length: nat, isDir: bool, now: nat)
    requires fid < U32_LIMIT && |name| <= MAX_NAME
    ensures Parse(TWSTAT, U32(fid) + EncodeStat(name, qid, length, isDir, now))
         == Parsed(Wstat(fid, Args(if name == [] then None else Some(name), true)))
  {
    Limits();
    var stat := EncodeStat(name, qid, length, isDir, now);
    var body := U32(fid) + stat;
    assert body == [] + ToLE(4, fid) + stat;
    FieldOf([], 4, fid, stat);
    assert body[4..] == stat;
    ParsedStatName(name, qid, length, isDir, now);
  }

  lemma ParsedStatName(name: seq<byte>, qid: Qid, length: nat, isDir: bool, now: nat)
    requires |name| <= MAX_NAME
    ensures ParseWstat(EncodeStat(name, qid, length, isDir, now)) == Args(if name == [] then None else Some(name), true)
  {
    Limits();
    var body := StatBody(name, qid, length, isDir, now);
    var stat := EncodeStat(name, qid, length, isDir, now);
    assert stat == [] + ToLE(2, |body|) + body;
    FieldOf([], 2, |body|, body);
    assert stat[2..2 + |body|] == body;
    var head, rest := KIND + EncodeQid(qid) + Attributes(isDir, now, length), U16(|name|) + name + OWNERS;
    assert body == head + rest + [];
    NameField(name);
    Inside(head, rest, [], 0, 2);
    Inside(head, rest, [], 2, 2 + |name|);
  }
}
