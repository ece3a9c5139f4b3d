/**
  The fid and path tables that all connections of a 9P2000 listener share
  (`NinepState` in src/frontend/ninep.rs), one lock section at a time.

  Paths are the bytes of UTF-8 strings.
  */
module NinepTable {
  import opened Wrappers
  import opened Bytes

  type Path = seq<byte>

  const SLASH: byte := 47
  const DOT: byte := 46
  const ROOT: Path := [SLASH]

  datatype FidEntry = FidEntry(qid: nat, path: Path, open: bool, isDir: bool)

  datatype PathEntry = PathEntry(path: Path, isDir: bool)

  datatype Table = Table(fids: map<nat, FidEntry>, paths: map<nat, PathEntry>, nextQid: nat)

  const INITIAL: Table := Table(map[], map[0 := PathEntry(ROOT, true)], 1)

  /** Appending a name to a path, as walk and create do. */
  function Join(path: Path, name: Path): Path {
    if path != [] && path[|path| - 1] == SLASH then path + name else path + [SLASH] + name
  }

  predicate Known(t: Table, path: Path) {
    exists q :: q in t.paths && t.paths[q].path == path
  }

  /**
    The qid that `alloc_qid` may return: one under which the path is stored (the
    hash map's iteration order picks which), else the next unused number.
    */
  predicate IsQidFor(t: Table, path: Path, q: nat) {
    if Known(t, path) then q in t.paths && t.paths[q].path == path else q == t.nextQid
  }

  ghost function SomeQid(t: Table, path: Path): (q: nat)
    ensures IsQidFor(t, path, q)
  {
    if Known(t, path) then var q :| q in t.paths && t.paths[q].path == path; q else t.nextQid
  }

  /** The table after `alloc_qid`; a known path keeps its old directory flag. */
  function Alloc(t: Table, path: Path, isDir: bool): Table {
    if Known(t, path) then t
    else t.(paths := t.paths[t.nextQid := PathEntry(path, isDir)], nextQid := t.nextQid + 1)
  }

  function SetFid(t: Table, fid: nat, qid: nat, path: Path, isDir: bool): Table {
    t.(fids := t.fids[fid := FidEntry(qid, path, false, isDir)])
  }

  /** The second lock section of open: the fid may have been clunked meanwhile. */
  function MarkOpen(t: Table, fid: nat): Table {
    if fid in t.fids then t.(fids := t.fids[fid := t.fids[fid].(open := true)]) else t
  }

  /** The second lock section of create, with the qid that was allocated. */
  function CommitCreate(t: Table, fid: nat, qid: nat, path: Path, isDir: bool): Table {
    MarkOpen(SetFid(Alloc(t, path, isDir), fid, qid, path, isDir), fid)
  }

  function RemoveFid(t: Table, fid: nat): Table {
    t.(fids := t.fids - {fid})
  }

  /** The second lock section of a rename: `qid` was read in the first. */
  function CommitRename(t: Table, fid: nat, qid: nat, newPath: Path): Table {
    Table(if fid in t.fids then t.fids[fid := t.fids[fid].(path := newPath)] else t.fids,
          t.paths[qid := PathEntry(newPath, false)],
          t.nextQid)
  }

  // ---------------------------------------------------------------------
  // The table invariant
  // ---------------------------------------------------------------------

  /** `q` is the qid of `path`. */
  predicate Names(t: Table, q: nat, path: Path) {
    q in t.paths && t.paths[q].path == path
  }

  ghost predicate Injective(t: Table) {
    forall q, r :: q in t.paths && r in t.paths && t.paths[q].path == t.paths[r].path ==> q == r
  }

  ghost predicate PathsOk(t: Table) {
    && Names(t, 0, ROOT)
    && (forall q :: q in t.paths ==> q < t.nextQid)
    && Injective(t)
  }

  ghost predicate FidsOk(t: Table) {
    forall f :: f in t.fids ==> Names(t, t.fids[f].qid, t.fids[f].path)
  }

  ghost predicate TableOk(t: Table) {
    PathsOk(t) && FidsOk(t)
  }

  /** Nothing already in the path table changes. */
  ghost predicate Grows(t: Table, t': Table) {
    && t.nextQid <= t'.nextQid
    && forall q :: q in t.paths ==> q in t'.paths && t'.paths[q] == t.paths[q]
  }

  lemma AllocOk(t: Table, path: Path, isDir: bool, q: nat)
    requires PathsOk(t) && IsQidFor(t, path, q)
    ensures var t' := Alloc(t, path, isDir);
            PathsOk(t') && Grows(t, t') && Names(t', q, path) && t'.fids == t.fids
    ensures FidsOk(t) ==> FidsOk(Alloc(t, path, isDir))
    ensures if Known(t, path) then Alloc(t, path, isDir) == t
            else Alloc(t, path, isDir).paths == t.paths[q := PathEntry(path, isDir)]
  {
  }

  /** With an injective table the answer does not depend on the iteration order. */
  lemma QidIsUnique(t: Table, path: Path, q: nat, r: nat)
    requires PathsOk(t) && IsQidFor(t, path, q) && IsQidFor(t, path, r)
    ensures q == r
  {
  }

  lemma SetFidOk(t: Table, fid: nat, qid: nat, path: Path, isDir: bool)
    requires TableOk(t) && Names(t, qid, path)
    ensures TableOk(SetFid(t, fid, qid, path, isDir)) && Grows(t, SetFid(t, fid, qid, path, isDir))
  {
  }

  lemma MarkOpenOk(t: Table, fid: nat)
    requires TableOk(t)
    ensures TableOk(MarkOpen(t, fid)) && Grows(t, MarkOpen(t, fid))
  {
    forall f | f in t.fids
      ensures Names(t, t.fids[f].qid, t.fids[f].path)
    {
    }
  }

  lemma CommitCreateOk(t: Table, fid: nat, qid: nat, path: Path, isDir: bool)
    requires TableOk(t) && IsQidFor(t, path, qid)
    ensures var t' := CommitCreate(t, fid, qid, path, isDir);
            TableOk(t') && Grows(t, t') && Names(t', qid, path)
  {
    AllocOk(t, path, isDir, qid);
    SetFidOk(Alloc(t, path, isDir), fid, qid, path, isDir);
  }

  /** Create binds its fid, open, and adds no path but its own. */
  lemma CommitCreateBinds(t: Table, fid: nat, qid: nat, path: Path, isDir: bool)
    requires IsQidFor(t, path, qid)
    ensures CommitCreate(t, fid, qid, path, isDir).fids == t.fids[fid := FidEntry(qid, path, true, isDir)]
    ensures forall r :: r in CommitCreate(t, fid, qid, path, isDir).paths && r !in t.paths ==> r == qid
    ensures !Known(t, path) ==> CommitCreate(t, fid, qid, path, isDir).paths == t.paths[qid := PathEntry(path, isDir)]
  {
  }

  // ---------------------------------------------------------------------
  // Rename
  // ---------------------------------------------------------------------

  /** `rsplit_once('/')`: the position of the last slash. */
  function LastSlash(path: Path): (at: Option<nat>)
    ensures at.Some? ==> at.value < |path| && path[at.value] == SLASH && SLASH !in path[at.value + 1..]
    ensures at.None? ==> SLASH !in path
  {
    if path == [] then None
    else if path[|path| - 1] == SLASH then Some(|path| - 1)
    else
      var n := |path| - 1;
      var at := LastSlash(path[..n]);
      assert path == path[..n] + [path[n]];
      assert at.Some? ==> path[at.value + 1..] == path[..n][at.value + 1..] + [path[n]];
      at
  }

  /** `path.rsplit('/').next()`. */
  function LastName(path: Path): Path {
    var at := LastSlash(path);
    if at.Some? then path[at.value + 1..] else path
  }

  /** A wstat renames when it carries a non-empty name other than the current one. */
  predicate IsRename(path: Path, name: Path) {
    name != [] && name != LastName(path)
  }

  function RenameTarget(path: Path, name: Path): Path {
    if path == ROOT then ROOT + name
    else
      var at := LastSlash(path);
      var parent := if at.Some? then path[..at.value] else ROOT;
      if parent == ROOT then ROOT + name else parent + [SLASH] + name
  }

  lemma {:induction false} LastSlashAt(base: Path, last: Path)
    requires base != [] && base[|base| - 1] == SLASH && SLASH !in last
    ensures LastSlash(base + last) == Some(|base| - 1)
  {
    var path := base + last;
    if last == [] {
      assert path == base;
    } else {
      var n := |last| - 1;
      assert path[..|path| - 1] == base + last[..n];
      LastSlashAt(base, last[..n]);
    }
  }

  /** The new path, for a path cut at its last slash. */
  lemma RenameTargetAt(before: Path, last: Path, name: Path)
    requires SLASH !in last
    ensures LastName(before + [SLASH] + last) == last
    ensures RenameTarget(before + [SLASH] + last, name)
         == if before == ROOT then ROOT + name else before + [SLASH] + name
  {
    var path := before + [SLASH] + last;
    LastSlashAt(before + [SLASH], last);
    assert path[..|before|] == before && path[|before| + 1..] == last;
    assert path == ROOT ==> before == [];
  }

  /**
    A rename replaces the last name of a path and keeps its directory - except
    under "//", where a slash is lost; and it is one exactly for another, non-empty name.
    */
  lemma RenameReplacesLastName(parent: Path, last: Path, name: Path)
    requires SLASH !in last
    ensures RenameTarget(Join(parent, last), name) == Join(parent, name) <==> parent != [SLASH, SLASH]
    ensures IsRename(Join(parent, last), name) <==> name != [] && name != last
  {
    var slashed := parent != [] && parent[|parent| - 1] == SLASH;
    var before := if slashed then parent[..|parent| - 1] else parent;
    RenameTargetAt(before, last, name);
    assert slashed ==> parent == before + [SLASH];
    assert Join(parent, last) == before + [SLASH] + last && Join(parent, name) == before + [SLASH] + name;
    assert before == ROOT ==> |ROOT + name| < |before + [SLASH] + name|;
    assert before == ROOT <==> parent == [SLASH, SLASH];
  }

  /**
    What would have to be checked in the tables before a rename's commit: the fid,
    if it still exists, still names the file; and the path stays, or it is unused,
    no other fid holds the file, and the file is not the root.
    */
  ghost predicate RenameIsSafe(t: Table, fid: nat, q: nat, newPath: Path)
    requires q in t.paths
  {
    && (fid in t.fids ==> t.fids[fid].qid == q)
    && (|| newPath == t.paths[q].path
        || (&& q != 0
            && !Known(t, newPath)
            && forall f :: f in t.fids && f != fid ==> t.fids[f].qid != q))
  }

  lemma SafeRenameKeepsTable(t: Table, fid: nat, q: nat, newPath: Path)
    requires TableOk(t) && q in t.paths && RenameIsSafe(t, fid, q, newPath)
    ensures TableOk(CommitRename(t, fid, q, newPath))
  {
    var t' := CommitRename(t, fid, q, newPath);
    assert Names(t, 0, ROOT) && Names(t', 0, ROOT);
    forall f | f in t'.fids
      ensures Names(t', t'.fids[f].qid, t'.fids[f].path)
    {
      assert Names(t, t.fids[f].qid, t.fids[f].path);
    }
  }

  lemma KeptTableMeansSafe(t: Table, fid: nat, q: nat, newPath: Path)
    requires TableOk(t) && q in t.paths && TableOk(CommitRename(t, fid, q, newPath))
    ensures RenameIsSafe(t, fid, q, newPath)
  {
    var t' := CommitRename(t, fid, q, newPath);
    assert Names(t', q, newPath);
    forall f | f in t.fids
      ensures f == fid ==> t.fids[f].qid == q
      ensures f != fid && newPath != t.paths[q].path ==> t.fids[f].qid != q
    {
      assert Names(t, t.fids[f].qid, t.fids[f].path);
      assert Names(t', t'.fids[f].qid, t'.fids[f].path);
    }
    forall r | r in t.paths && r != q
      ensures t.paths[r].path != newPath
    {
      assert t'.paths[r] == t.paths[r];
    }
  }

  /**
    The commit of a rename keeps the tables consistent exactly when it is safe,
    whatever happened since the renamed file's qid was read.
    */
  lemma RenameKeepsTableIff(t: Table, fid: nat, q: nat, newPath: Path)
    requires TableOk(t) && q in t.paths
    ensures TableOk(CommitRename(t, fid, q, newPath)) <==> RenameIsSafe(t, fid, q, newPath)
  {
    if RenameIsSafe(t, fid, q, newPath) {
      SafeRenameKeepsTable(t, fid, q, newPath);
    } else if TableOk(CommitRename(t, fid, q, newPath)) {
      KeptTableMeansSafe(t, fid, q, newPath);
    }
  }

  /** The old path comes back only for a name that itself begins with a slash, under "//". */
  lemma RenameChangesPath(path: Path, name: Path)
    requires IsRename(path, name)
    ensures RenameTarget(path, name) == path ==> name[0] == SLASH && path == ROOT + name
  {
    var at := LastSlash(path);
    var target := RenameTarget(path, name);
    if path != ROOT && at.Some? && path[..at.value] != ROOT {
      assert target[at.value + 1..] == name;
    } else {
      assert target == ROOT + name;
      assert target[1..] == name;
      if target == path && at.Some? {
        assert path[at.value] == SLASH;
      }
    }
  }

  // ---------------------------------------------------------------------
  // The mutable state behind the lock
  // ---------------------------------------------------------------------

  class NinepState {
    var fids: map<nat, FidEntry>
    var paths: map<nat, PathEntry>
    var nextQid: nat

    ghost function View(): Table
      reads this
    {
      Table(fids, paths, nextQid)
    }

    constructor ()
      ensures View() == INITIAL && TableOk(View())
    {
      fids := map[];
      paths := map[0 := PathEntry(ROOT, true)];
      nextQid := 1;
    }

    /** Scan the path table in whatever order the hash map yields, else take a fresh number. */
    method AllocQid(path: Path, isDir: bool) returns (q: nat)
      modifies `paths, `nextQid
      ensures IsQidFor(old(View()), path, q) && View() == Alloc(old(View()), path, isDir)
    {
      var rest := paths.Keys;
      while rest != {}
        invariant rest <= paths.Keys
        invariant forall k :: k in paths.Keys - rest ==> paths[k].path != path
        decreases |rest|
      {
        var k :| k in rest;
        if paths[k].path == path {
          assert Known(View(), path);
          return k;
        }
        rest := rest - {k};
      }
      q := nextQid;
      nextQid := nextQid + 1;
      paths := paths[q := PathEntry(path, isDir)];
    }

    method SetFidEntry(fid: nat, qid: nat, path: Path, isDir: bool)
      modifies `fids
      ensures View() == SetFid(old(View()), fid, qid, path, isDir)
    {
      fids := fids[fid := FidEntry(qid, path, false, isDir)];
    }

    method MarkFidOpen(fid: nat)
      modifies `fids
      ensures View() == MarkOpen(old(View()), fid)
    {
      if fid in fids {
        fids := fids[fid := fids[fid].(open := true)];
      }
    }

    /** The locked tail of `handle_create`. */
    method Create(fid: nat, path: Path, isDir: bool) returns (q: nat)
      requires TableOk(View())
      modifies this
      ensures IsQidFor(old(View()), path, q) && View() == CommitCreate(old(View()), fid, q, path, isDir)
      ensures TableOk(View()) && Grows(old(View()), View())
    {
      q := AllocQid(path, isDir);
      CommitCreateOk(old(View()), fid, q, path, isDir);
      SetFidEntry(fid, q, path, isDir);
      MarkFidOpen(fid);
    }

    /** The locked tail of `handle_clunk`: the fid may be bound anew; its file keeps path and qid. */
    method Clunk(fid: nat)
      modifies `fids
      ensures View() == RemoveFid(old(View()), fid)
      ensures fid !in fids && forall f :: f in old(fids) && f != fid ==> f in fids && fids[f] == old(fids)[f]
      ensures TableOk(old(View())) ==> TableOk(View()) && Grows(old(View()), View())
    {
      fids := fids - {fid};
    }

    /** The locked tail of a rename, with the qid read in the first lock section. */
    method Rename(fid: nat, qid: nat, newPath: Path)
      requires TableOk(View()) && qid in paths
      modifies `fids, `paths
      ensures View() == CommitRename(old(View()), fid, qid, newPath)
      ensures TableOk(View()) <==> old(RenameIsSafe(View(), fid, qid, newPath))
    {
      RenameKeepsTableIff(View(), fid, qid, newPath);
      if fid in fids {
        fids := fids[fid := fids[fid].(path := newPath)];
      }
      paths := paths[qid := PathEntry(newPath, false)];
    }
  }
}
