/**
  Path strings: the component lists of the 9P client (`walk`, `split_parent_name`
  in src/frontend/ninep_client.rs), SFTP `realpath` (src/frontend/sshfs.rs), and
  the path the 9P server builds from walked names.
  */
module Paths {
  import opened Wrappers
  import opened NinepTable
  import opened NinepSession
  import opened NinepWalk

  /** `split('/')`: one segment more than there are slashes. */
  function Split(path: Path): (segments: seq<Path>)
    ensures segments != []
  {
    if path == [] then [[]]
    else
      var rest := Split(path[1..]);
      if path[0] == SLASH then [[]] + rest else [[path[0]] + rest[0]] + rest[1..]
  }

  /** `filter(|s| !s.is_empty())`. */
  function NonEmpty(segments: seq<Path>): seq<Path> {
    if segments == [] then []
    else (if segments[0] == [] then [] else [segments[0]]) + NonEmpty(segments[1..])
  }

  function Components(path: Path): seq<Path> {
    NonEmpty(Split(path))
  }

  /** `join("/")`. */
  function JoinSlash(names: seq<Path>): Path {
    if names == [] then []
    else if |names| == 1 then names[0]
    else JoinSlash(names[..|names| - 1]) + [SLASH] + names[|names| - 1]
  }

  /** SFTP `realpath`. */
  function Realpath(path: Path): Path {
    var resolved := if ROOT <= path then path else ROOT + path;
    ROOT + JoinSlash(Components(resolved))
  }

  function TrimStart(path: Path): Path {
    if path != [] && path[0] == SLASH then TrimStart(path[1..]) else path
  }

  function TrimEnd(path: Path): Path {
    if path != [] && path[|path| - 1] == SLASH then TrimEnd(path[..|path| - 1]) else path
  }

  /** The names the client's `walk` puts into a Twalk. */
  function WalkedNames(path: Path): seq<Path> {
    Components(TrimEnd(TrimStart(path)))
  }

  /** The client's split of a path into parent and last name. */
  function SplitParentName(path: Path): (Path, Path) {
    var trimmed := TrimEnd(path);
    var at := LastSlash(trimmed);
    if at.Some? then (if at.value == 0 then ROOT else trimmed[..at.value], trimmed[at.value + 1..])
    else (ROOT, trimmed)
  }

  /** A name that can be a path component. */
  predicate IsName(name: Path) {
    name != [] && SLASH !in name
  }

  ghost predicate AllNames(names: seq<Path>) {
    forall i :: 0 <= i < |names| ==> IsName(names[i])
  }

  // ---------------------------------------------------------------------
  // Splitting
  // ---------------------------------------------------------------------

  /** A slash splits the segment lists. */
  lemma {:induction false} SplitAtSlash(a: Path, b: Path)
    ensures Split(a + [SLASH] + b) == Split(a) + Split(b)
  {
    var whole := a + [SLASH] + b;
    if a == [] {
      assert whole[1..] == b;
    } else {
      assert whole[1..] == a[1..] + [SLASH] + b;
      SplitAtSlash(a[1..], b);
    }
  }

  lemma {:induction false} NonEmptyConcat(s: seq<Path>, t: seq<Path>)
    ensures NonEmpty(s + t) == NonEmpty(s) + NonEmpty(t)
  {
    if s == [] {
      assert s + t == t;
    } else {
      assert (s + t)[1..] == s[1..] + t;
      NonEmptyConcat(s[1..], t);
    }
  }

  lemma ComponentsAtSlash(a: Path, b: Path)
    ensures Components(a + [SLASH] + b) == Components(a) + Components(b)
  {
    SplitAtSlash(a, b);
    NonEmptyConcat(Split(a), Split(b));
  }

  lemma {:induction false} SplitWithoutSlash(name: Path)
    requires SLASH !in name
    ensures Split(name) == [name]
  {
    if name != [] {
      SplitWithoutSlash(name[1..]);
      assert [name[0]] + name[1..] == name;
    }
  }

  lemma ComponentsOfName(name: Path)
    requires SLASH !in name
    ensures Components(name) == if name == [] then [] else [name]
  {
    SplitWithoutSlash(name);
    assert NonEmpty([name]) == if name == [] then [] else [name];
  }

  lemma {:induction false} SegmentsHaveNoSlash(path: Path, i: nat)
    requires i < |Split(path)|
    ensures SLASH !in Split(path)[i]
  {
    if path != [] {
      var rest := Split(path[1..]);
      SegmentsHaveNoSlash(path[1..], if path[0] == SLASH && i > 0 then i - 1 else if path[0] == SLASH then 0 else i);
    }
  }

  lemma {:induction false} NonEmptyAreNames(segments: seq<Path>)
    requires forall i :: 0 <= i < |segments| ==> SLASH !in segments[i]
    ensures AllNames(NonEmpty(segments))
  {
    if segments != [] {
      NonEmptyAreNames(segments[1..]);
    }
  }

  lemma ComponentsAreNames(path: Path)
    ensures AllNames(Components(path))
  {
    forall i | 0 <= i < |Split(path)|
      ensures SLASH !in Split(path)[i]
    {
      SegmentsHaveNoSlash(path, i);
    }
    NonEmptyAreNames(Split(path));
  }

  lemma LeadingSlash(path: Path)
    ensures Components(ROOT + path) == Components(path)
  {
    assert ROOT + path == [] + [SLASH] + path;
    ComponentsAtSlash([], path);
    ComponentsOfName([]);
  }

  lemma {:induction false} TrimStartKeeps(path: Path)
    ensures Components(TrimStart(path)) == Components(path)
  {
    if path != [] && path[0] == SLASH {
      assert path == ROOT + path[1..];
      LeadingSlash(path[1..]);
      TrimStartKeeps(path[1..]);
    }
  }

  lemma TrailingSlash(path: Path)
    ensures Components(path + [SLASH]) == Components(path)
  {
    assert path + [SLASH] == path + [SLASH] + [];
    ComponentsAtSlash(path, []);
    ComponentsOfName([]);
  }

  lemma {:induction false} TrimEndKeeps(path: Path)
    ensures Components(TrimEnd(path)) == Components(path)
    ensures TrimEnd(path) != [] ==> TrimEnd(path)[|TrimEnd(path)| - 1] != SLASH
  {
    if path != [] && path[|path| - 1] == SLASH {
      var front := path[..|path| - 1];
      TrimEndKeeps(front);
      TrailingSlash(front);
      assert path == front + [SLASH];
    }
  }

  // ---------------------------------------------------------------------
  // Canonical paths
  // ---------------------------------------------------------------------

  lemma {:induction false} ComponentsOfJoin(names: seq<Path>)
    requires AllNames(names)
    ensures Components(JoinSlash(names)) == names
  {
    if names == [] {
      ComponentsOfName([]);
    } else {
      var n := |names| - 1;
      ComponentsOfName(names[n]);
      if n > 0 {
        ComponentsOfJoin(names[..n]);
        ComponentsAtSlash(JoinSlash(names[..n]), names[n]);
      } else {
        assert names == [names[0]];
      }
    }
  }

  /** The path the server reaches from the root is the canonical one. */
  lemma {:induction false} WalkFromRoot(names: seq<Path>)
    requires AllNames(names)
    ensures PathAfter(ROOT, names) == ROOT + JoinSlash(names)
  {
    if names != [] {
      var n := |names| - 1;
      WalkFromRoot(names[..n]);
      if n > 0 {
        var front := JoinSlash(names[..n]);
        JoinEndsInName(names[..n]);
        assert (ROOT + front)[|ROOT + front| - 1] == front[|front| - 1];
      } else {
        assert names[..n] == [];
      }
    }
  }

  lemma JoinEndsInName(names: seq<Path>)
    requires AllNames(names) && names != []
    ensures var s := JoinSlash(names); s != [] && s[|s| - 1] != SLASH
  {
    var last := names[|names| - 1];
    assert IsName(last);
    assert last[|last| - 1] != SLASH;
  }

  lemma RealpathIsCanonical(path: Path)
    ensures Realpath(path) == ROOT + JoinSlash(Components(path))
  {
    LeadingSlash(path);
  }

  /** `realpath` is idempotent. */
  lemma RealpathIdempotent(path: Path)
    ensures Realpath(Realpath(path)) == Realpath(path)
  {
    RealpathIsCanonical(path);
    RealpathIsCanonical(Realpath(path));
    ComponentsAreNames(path);
    ComponentsOfJoin(Components(path));
    LeadingSlash(JoinSlash(Components(path)));
  }

  lemma WalkedAreComponents(path: Path)
    ensures WalkedNames(path) == Components(path)
  {
    TrimStartKeeps(path);
    TrimEndKeeps(TrimStart(path));
  }

  /** Walking a path string from the root reaches exactly what SFTP calls its real path. */
  lemma WalkReachesRealpath(path: Path)
    ensures PathAfter(ROOT, WalkedNames(path)) == Realpath(path)
  {
    WalkedAreComponents(path);
    ComponentsAreNames(path);
    WalkFromRoot(Components(path));
    RealpathIsCanonical(path);
  }

  /** The last name of a trimmed path, and what is before it. */
  lemma ParentAndName(path: Path)
    ensures var (parent, name) := SplitParentName(path);
            SLASH !in name && Components(path) == Components(parent) + Components(name)
  {
    TrimEndKeeps(path);
    RootHasNoComponents();
    var trimmed := TrimEnd(path);
    var at := LastSlash(trimmed);
    if at.Some? {
      var before, after := trimmed[..at.value], trimmed[at.value + 1..];
      assert trimmed == before + [SLASH] + after;
      ComponentsAtSlash(before, after);
      assert at.value == 0 ==> before == [];
    }
  }

  lemma RootHasNoComponents()
    ensures Components([]) == [] && Components(ROOT) == []
  {
    ComponentsOfName([]);
    LeadingSlash([]);
    assert ROOT + [] == ROOT;
  }

  /** mkdir and create_file act on the real path: walk to the parent, then create the name in it. */
  lemma CreateActsOnRealpath(path: Path)
    ensures var (parent, name) := SplitParentName(path);
            Join(PathAfter(ROOT, WalkedNames(parent)), name) == Realpath(path)
  {
    var (parent, name) := SplitParentName(path);
    var names := Components(parent);
    ParentAndName(path);
    WalkedAreComponents(parent);
    RealpathIsCanonical(path);
    ComponentsOfName(name);
    ComponentsAreNames(parent);
    if name == [] {
      EmptyNameMeansRoot(path);
      RootHasNoComponents();
    } else {
      assert (names + [name])[..|names|] == names;
      WalkFromRoot(names + [name]);
    }
  }

  /** Only a path of slashes has an empty last name, and then the parent is the root. */
  lemma EmptyNameMeansRoot(path: Path)
    requires SplitParentName(path).1 == []
    ensures SplitParentName(path).0 == ROOT && Components(path) == []
  {
    var trimmed := TrimEnd(path);
    TrimEndKeeps(path);
    assert LastSlash(trimmed).None?;
    ComponentsOfName([]);
  }

  lemma ComponentsOfJoinedName(dir: Path, name: Path)
    requires SLASH !in name
    ensures Components(Join(dir, name)) == Components(dir) + Components(name)
  {
    if dir != [] && dir[|dir| - 1] == SLASH {
      var n := |dir| - 1;
      assert dir == dir[..n] + [SLASH] + [];
      ComponentsAtSlash(dir[..n], []);
      ComponentsAtSlash(dir[..n], name);
      assert Join(dir, name) == dir[..n] + [SLASH] + name;
      RootHasNoComponents();
    } else {
      ComponentsAtSlash(dir, name);
    }
  }

  /** A canonical path is its directory joined with its last component. */
  lemma CanonicalIsJoin(dir: Path, path: Path, names: seq<Path>)
    requires Realpath(dir) == dir && Realpath(path) == path
    requires names == Components(path) && names != [] && Components(dir) == names[..|names| - 1]
    ensures path == Join(dir, names[|names| - 1]) && SLASH !in names[|names| - 1]
  {
    var n := |names| - 1;
    RealpathIsCanonical(dir);
    RealpathIsCanonical(path);
    ComponentsAreNames(path);
    ComponentsAreNames(dir);
    assert IsName(names[n]);
    WalkFromRoot(names);
    WalkFromRoot(names[..n]);
    assert PathAfter(ROOT, names) == Join(PathAfter(ROOT, names[..n]), names[n]);
  }

  /**
    What a directory read lists: for canonical paths, a direct child has exactly the
    components of its directory and one more.
    */
  lemma ChildIsOneDeeper(dir: Path, path: Path)
    requires Realpath(dir) == dir && Realpath(path) == path
    ensures IsChild(dir, path) <==>
              Components(dir) <= Components(path) && |Components(path)| == |Components(dir)| + 1
  {
    ChildIsJoin(dir, path);
    var names := Components(path);
    if IsChild(dir, path) {
      var name :| SLASH !in name && path == Join(dir, name);
      ComponentsOfJoinedName(dir, name);
      ComponentsOfName(name);
      RealpathIsCanonical(dir);
      RealpathIsCanonical(path);
      assert name == [] ==> names == Components(dir) + [] == Components(dir);
    } else if Components(dir) <= names && |names| == |Components(dir)| + 1 {
      CanonicalIsJoin(dir, path, names);
    }
  }
}
