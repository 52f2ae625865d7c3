/** Paths of entries: every loaded entry has exactly one, and lookup may find paths that are not listed. */
module DirectoryPaths {
  import opened Common
  import opened SectorChains
  import opened DirectoryTree
  import opened DirectoryProofs
  import opened DirectoryLookup

  // ----- An entry has one path

  /** The last step of a lookup. */
  lemma {:induction false} LastStep(c: Context, t: Dir, node: nat, path: Path) returns (parent: nat)
    requires path != [] && FindFrom(c, t, node, path).Ok?
    ensures FindFrom(c, t, node, path[..|path| - 1]) == Ok(parent) && t.Loaded(parent)
    ensures FindKid(c, t.Get(parent).kids, path[|path| - 1]) == Some(FindFrom(c, t, node, path).value)
    decreases |path|
  {
    if |path| == 1 {
      parent := node;
      assert path[1..] == [];
    } else {
      var kid := FindKid(c, t.Get(node).kids, path[0]).value;
      parent := LastStep(c, t, kid, path[1..]);
      assert path[1..][..|path| - 2] == path[..|path| - 1][1..];
    }
  }

  /** The child found is placed under its storage and has the name that was looked for. */
  lemma FoundBelow(c: Context, t: Dir, par: map<nat, nat>, rank: map<nat, nat>, parent: nat, name: string)
    requires IsTree(c, t, par, rank) && t.Loaded(parent) && FindKid(c, t.Get(parent).kids, name).Some?
    ensures var kid := FindKid(c, t.Get(parent).kids, name).value;
            && kid in par && par[kid] == parent && kid != 0 && c.lower(c.Name(kid)) == c.lower(name)
  {
    var k := FoundKid(c, t.Get(parent).kids, name);
    assert WellPlaced(c, t, par, parent);
    assert multiset(t.Get(parent).kids)[t.Get(parent).kids[k]] > 0;
  }

  /** In a tree two paths that lead to the same entry are equal up to letter case. */
  lemma {:induction false} OnePath(
    c: Context, t: Dir, par: map<nat, nat>, rank: map<nat, nat>, p: Path, q: Path)
    requires IsTree(c, t, par, rank) && Find(c, t, p).Ok? && Find(c, t, p) == Find(c, t, q)
    ensures SameNames(c, p, q)
    decreases |p|
  {
    hide IsTree, FindFrom, FindKid;
    if p != [] {
      var a := LastStep(c, t, 0, p);
      FoundBelow(c, t, par, rank, a, p[|p| - 1]);
      RootFound(c, t);
      if q != [] {
        var b := LastStep(c, t, 0, q);
        FoundBelow(c, t, par, rank, b, q[|q| - 1]);
        OnePath(c, t, par, rank, p[..|p| - 1], q[..|q| - 1]);
        SameNamesFurther(c, p, q);
      }
    } else if q != [] {
      var b := LastStep(c, t, 0, q);
      FoundBelow(c, t, par, rank, b, q[|q| - 1]);
      RootFound(c, t);
    }
  }

  lemma RootFound(c: Context, t: Dir)
    ensures Find(c, t, []) == Ok(0)
  {
  }

  lemma SameNamesFurther(c: Context, p: Path, q: Path)
    requires p != [] && q != [] && SameNames(c, p[..|p| - 1], q[..|q| - 1])
    requires c.lower(p[|p| - 1]) == c.lower(q[|q| - 1])
    ensures SameNames(c, p, q)
  {
    forall i | 0 <= i < |p| ensures c.lower(p[i]) == c.lower(q[i]) {
      if i < |p| - 1 { assert p[..|p| - 1][i] == p[i] && q[..|q| - 1][i] == q[i]; }
    }
  }

  // ----- Every loaded entry has a path

  /** Looking up one more name. */
  lemma {:induction false} OneNameMore(c: Context, t: Dir, node: nat, path: Path, name: string)
    requires FindFrom(c, t, node, path).Ok? && t.Loaded(FindFrom(c, t, node, path).value)
    ensures FindFrom(c, t, node, path + [name])
         == match FindKid(c, t.Get(FindFrom(c, t, node, path).value).kids, name)
            case None => Err(FileNotFound)
            case Some(kid) => Ok(kid)
    decreases |path|
  {
    if path == [] {
      assert [] + [name] == [name] && [name][1..] == [];
    } else {
      assert (path + [name])[0] == path[0] && (path + [name])[1..] == path[1..] + [name];
      OneNameMore(c, t, FindKid(c, t.Get(node).kids, path[0]).value, path[1..], name);
    }
  }

  /** The child of an entry with a path is found under its own name. */
  lemma PathOfKid(c: Context, t: Dir, par: map<nat, nat>, rank: map<nat, nat>, path: Path, kid: nat)
    requires IsTree(c, t, par, rank) && Find(c, t, path).Ok? && t.Loaded(Find(c, t, path).value)
    requires kid in t.Get(Find(c, t, path).value).kids
    ensures Find(c, t, path + [c.Name(kid)]) == Ok(kid)
  {
    var node := Find(c, t, path).value;
    var k :| 0 <= k < |t.Get(node).kids| && t.Get(node).kids[k] == kid;
    NamesUnique(c, t, par, rank, node);
    FindKidUnique(c, t.Get(node).kids, k, c.Name(kid));
    OneNameMore(c, t, 0, path, c.Name(kid));
  }

  /** The storage that lists an entry is loaded, and was loaded before it. */
  lemma Parent(c: Context, t: Dir, par: map<nat, nat>, rank: map<nat, nat>, s: nat)
    requires IsTree(c, t, par, rank) && t.Loaded(s)
    ensures s != 0 <==> s in par
    ensures s in rank
    ensures s in par ==> t.Loaded(par[s]) && s in t.Get(par[s]).kids && par[s] in rank && rank[par[s]] < rank[s]
  {
    if s in par {
      assert WellPlaced(c, t, par, par[s]);
      assert multiset(t.Get(par[s]).kids)[s] == 1;
    }
  }

  lemma {:induction false} PathOf(c: Context, t: Dir, par: map<nat, nat>, rank: map<nat, nat>, s: nat)
    returns (path: Path)
    requires IsTree(c, t, par, rank) && t.Loaded(s)
    ensures Find(c, t, path) == Ok(s) && (path == [] <==> s == 0)
    decreases (Parent(c, t, par, rank, s); rank[s])
  {
    hide IsTree, Find;
    Parent(c, t, par, rank, s);
    if s == 0 {
      path := [];
      RootFound(c, t);
    } else {
      var above := PathOf(c, t, par, rank, par[s]);
      PathOfKid(c, t, par, rank, above, s);
      path := above + [c.Name(s)];
    }
  }

  // ----- Exactly when lookup and listing agree

  /** Below the root there are storages and streams only, and none of these streams has children. */
  ghost predicate StreamsAreLeaves(t: Dir) {
    && (forall p: nat :: t.Loaded(p) ==> forall k :: k in t.Get(p).kids ==> IsStorage(t, k) || IsStream(t, k))
    && (forall s: nat :: s != 0 && IsStream(t, s) ==> t.Get(s).kids == [])
  }

  /** A path through storages ends at a storage or a stream, and the entry before its last name is a storage. */
  lemma {:induction false} EndOfPath(c: Context, t: Dir, node: nat, q: Path, s: nat)
    requires ThroughStorages(c, t, node, q) && FindFrom(c, t, node, q) == Ok(s)
    ensures IsStorage(t, s) || IsStream(t, s)
    ensures |q| > 1 ==> FindFrom(c, t, node, q[..|q| - 1]).Ok? && IsStorage(t, FindFrom(c, t, node, q[..|q| - 1]).value)
    decreases |q|
  {
    var kid := FindKid(c, t.Get(node).kids, q[0]).value;
    if |q| == 1 {
      assert q[1..] == [];
    } else {
      EndOfPath(c, t, kid, q[1..], s);
      assert q[..|q| - 1][1..] == q[1..][..|q| - 2];
      if |q| == 2 {
        assert q[..1][1..] == [];
      }
    }
  }

  lemma {:induction false} OnlyStoragesMet(
    c: Context, t: Dir, par: map<nat, nat>, rank: map<nat, nat>, node: nat, q: Path)
    requires IsTree(c, t, par, rank) && StreamsAreLeaves(t) && q != [] && FindFrom(c, t, node, q).Ok?
    ensures ThroughStorages(c, t, node, q)
    decreases |q|
  {
    hide IsTree;
    var k := FoundKid(c, t.Get(node).kids, q[0]);
    var kid := t.Get(node).kids[k];
    FoundBelow(c, t, par, rank, node, q[0]);
    assert kid in t.Get(node).kids;
    if |q| > 1 {
      OnlyStoragesMet(c, t, par, rank, kid, q[1..]);
    }
  }

  /** A child that is neither storage nor stream, or a child of a stream below the root: lookup finds it along a path
      that does not lead through storages only. */
  lemma FoundOffTheList(c: Context, t: Dir, par: map<nat, nat>, rank: map<nat, nat>) returns (q: Path)
    requires IsTree(c, t, par, rank) && !StreamsAreLeaves(t)
    ensures q != [] && Find(c, t, q).Ok? && !ThroughStorages(c, t, 0, q)
  {
    if p: nat, k: nat :| t.Loaded(p) && k in t.Get(p).kids && !IsStorage(t, k) && !IsStream(t, k) {
      var above := PathOf(c, t, par, rank, p);
      PathOfKid(c, t, par, rank, above, k);
      q := above + [c.Name(k)];
      if ThroughStorages(c, t, 0, q) { EndOfPath(c, t, 0, q, k); }
    } else {
      var s: nat :| s != 0 && IsStream(t, s) && t.Get(s).kids != [];
      var k := t.Get(s).kids[0];
      var above := PathOf(c, t, par, rank, s);
      PathOfKid(c, t, par, rank, above, k);
      q := above + [c.Name(k)];
      assert q[..|q| - 1] == above;
      if ThroughStorages(c, t, 0, q) { EndOfPath(c, t, 0, q, k); }
    }
  }

  /** Lookup finds the root and the listed paths and nothing else exactly in directories of this kind. */
  lemma FoundExactly(c: Context, t: Dir, par: map<nat, nat>, rank: map<nat, nat>)
    requires IsTree(c, t, par, rank)
    requires (TreeDescends(c, t, par, rank); ListDir(c, t, true, true, rank).Ok?)
    ensures (TreeDescends(c, t, par, rank); var ls := ListDir(c, t, true, true, rank).value;
             (forall q :: Find(c, t, q).Ok? <==> q == [] || IsListed(c, ls, q)) <==> StreamsAreLeaves(t))
  {
    hide IsTree, Descends, Within, StreamsAreLeaves, SameNames, List, Find, IsListed;
    TreeDescends(c, t, par, rank);
    var ls := ListDir(c, t, true, true, rank).value;
    if StreamsAreLeaves(t) {
      forall q ensures Find(c, t, q).Ok? <==> q == [] || IsListed(c, ls, q) {
        FoundIfListed(c, t, par, rank, q);
      }
    } else {
      var q := FoundOffTheList(c, t, par, rank);
      ListedExactly(c, t, par, rank, q);
    }
  }

  lemma FoundIfListed(c: Context, t: Dir, par: map<nat, nat>, rank: map<nat, nat>, q: Path)
    requires IsTree(c, t, par, rank) && StreamsAreLeaves(t)
    requires (TreeDescends(c, t, par, rank); ListDir(c, t, true, true, rank).Ok?)
    ensures (TreeDescends(c, t, par, rank); var ls := ListDir(c, t, true, true, rank).value;
             Find(c, t, q).Ok? <==> q == [] || IsListed(c, ls, q))
  {
    TreeDescends(c, t, par, rank);
    ListedExactly(c, t, par, rank, q);
    hide IsTree, Descends, Within, StreamsAreLeaves, SameNames, List;
    if q != [] && Find(c, t, q).Ok? {
      OnlyStoragesMet(c, t, par, rank, 0, q);
    }
    var ls := ListDir(c, t, true, true, rank).value;
    if IsListed(c, ls, q) {
      var i :| 0 <= i < |ls| && SameNames(c, q, ls[i].path);
      FindsListed(c, t, true, true, par, rank, i, q);
    }
  }

  // ----- A stream with a child

  /** A record with no stream of its own and no siblings. */
  function Bare(name: string, entryType: nat, child: nat): RawEntry {
    RawEntry(name, 2 * |name| + 2, entryType, NOSTREAM, NOSTREAM, child, ENDOFCHAIN, 0, 0)
  }

  /** The root, below it the stream "a", and below that the stream "b". */
  const SHADOWED: Context := Context(
    [Bare("R", STGTY_ROOT, 1), Bare("a", STGTY_STREAM, 2), Bare("b", STGTY_STREAM, NOSTREAM)], s => s, 512, 4096,
    Incorrect)

  const NOT_LOADED: Dir := Dir([None, None, None], [], [], [])

  function Kept(sid: nat, kids: seq<nat>, kidsDict: map<string, nat>, used: bool): Option<Entry>
    requires sid < 3
  {
    Some(Entry(SHADOWED.records[sid], kids, kidsDict, used))
  }

  const LOADED: Dir := Dir(
    [Kept(0, [1], map["a" := 1], false), Kept(1, [2], map["b" := 2], true), Kept(2, [], map[], true)], [], [], [])

  /** Each of the three records passes its checks. */
  lemma LoadsBare(d: Dir, sid: nat)
    requires sid < 3 == |d.entries| && d.entries[sid].None?
    ensures Load(SHADOWED, d, sid) == Ok(d.Put(sid, Entry(SHADOWED.records[sid], [], map[], false)))
  {
    var raw := SHADOWED.records[sid];
    assert RecordDefects(SHADOWED, sid, raw) == [];
    assert SHADOWED.Size(raw) == 0;
  }

  /** Without siblings append_kids loads and lists one entry and goes on to its children. */
  lemma AppendsOne(d: Dir, parent: nat, sid: nat, depth: nat)
    requires 0 < sid < 3 == |d.entries| && d.entries[sid].None? && d.Loaded(parent) && depth >= 2
    requires d.Get(parent).kids == [] && d.Get(parent).kidsDict == map[]
    ensures AppendKids(SHADOWED, d, parent, sid, depth) == BuildTree(SHADOWED, WithKid(d, parent, sid), sid, depth - 1)
  {
    hide BuildTree;
    LoadsBare(d, sid);
    var d1 := Load(SHADOWED, d, sid).value;
    NoSiblings(d1, parent, depth - 1);
    var p := d1.Get(parent);
    assert p.kids + [sid] == [sid] && p.kidsDict[SHADOWED.Name(sid) := sid] == map[SHADOWED.Name(sid) := sid];
    assert Adopt(SHADOWED, d1, parent, sid).value.entries == WithKid(d, parent, sid).entries;
    NoSiblings(WithKid(d, parent, sid), parent, depth - 1);
  }

  /** The directory with `sid` loaded and listed as the only child of `parent`. */
  function WithKid(d: Dir, parent: nat, sid: nat): Dir
    requires 0 < sid < 3 == |d.entries| && d.Loaded(parent)
  {
    d.Put(sid, Entry(SHADOWED.records[sid], [], map[], true)).Put(
      parent, d.Get(parent).(kids := [sid], kidsDict := map[SHADOWED.Name(sid) := sid]))
  }

  lemma NoSiblings(d: Dir, parent: nat, depth: nat)
    requires |d.entries| == 3 && d.Loaded(parent) && depth > 0
    ensures AppendKids(SHADOWED, d, parent, NOSTREAM, depth) == Ok(d)
  {
  }

  /** Building the storage of an entry with one child at most sorts nothing. */
  lemma SortsOne(d: Dir, sid: nat)
    requires d.Loaded(sid) && |d.Get(sid).kids| == 1
    ensures SortKids(SHADOWED, d, sid) == d
  {
    var kids := d.Get(sid).kids;
    assert kids[..0] == [] && SortByName(SHADOWED, []) == [];
    assert SortByName(SHADOWED, kids) == [kids[0]] == kids;
    assert d.Get(sid).(kids := kids) == d.Get(sid);
    assert d.Put(sid, d.Get(sid)).entries == d.entries;
  }

  lemma LoadsShadowed(depth: nat)
    requires depth >= 8
    ensures LoadDirectory(SHADOWED, NOT_LOADED, depth) == Ok(LOADED)
  {
    hide AppendKids, SortKids, Load, SortByName;
    LoadsBare(NOT_LOADED, 0);
    var d0 := Dir([Kept(0, [], map[], false), None, None], [], [], []);
    assert NOT_LOADED.Put(0, d0.Get(0)).entries == d0.entries;
    AppendsOne(d0, 0, 1, depth - 1);
    var d1 := WithKid(d0, 0, 1);
    AppendsOne(d1, 1, 2, depth - 3);
    assert WithKid(d1, 1, 2).entries == LOADED.entries;
    BuildsShadowed(d0, d1, depth);
  }

  lemma BuildsShadowed(d0: Dir, d1: Dir, depth: nat)
    requires depth >= 8 && |d0.entries| == 3 == |d1.entries| && d0.Loaded(0) && d1.Loaded(0) && d1.Loaded(1)
    requires AppendKids(SHADOWED, d0, 0, 1, depth - 1) == BuildTree(SHADOWED, d1, 1, depth - 2)
    requires AppendKids(SHADOWED, d1, 1, 2, depth - 3) == BuildTree(SHADOWED, LOADED, 2, depth - 4)
    ensures BuildTree(SHADOWED, d0, 0, depth) == Ok(LOADED)
  {
    hide AppendKids, SortKids;
    SortsOne(LOADED, 1);
    SortsOne(LOADED, 0);
    assert BuildTree(SHADOWED, LOADED, 2, depth - 4) == Ok(LOADED);
    assert BuildTree(SHADOWED, d1, 1, depth - 2) == Ok(LOADED);
  }

  lemma ListsShadowed(par: map<nat, nat>, rank: map<nat, nat>)
    requires IsTree(SHADOWED, LOADED, par, rank)
    ensures (TreeDescends(SHADOWED, LOADED, par, rank);
             ListDir(SHADOWED, LOADED, true, true, rank) == Ok([Listed(["a"], 1)]))
  {
    hide IsTree, Descends, Within, Below, ListKids, ListKid;
    TreeDescends(SHADOWED, LOADED, par, rank);
    KidsBelow(SHADOWED, LOADED, rank, 0, |rank|);
    assert LOADED.Get(0).kids == [1] && [] + [SHADOWED.Name(0)] == ["R"];
    ListsOne(rank, |rank| - 1);
  }

  lemma ListsOne(rank: map<nat, nat>, height: nat)
    requires Descends(SHADOWED, LOADED, rank) && Below(LOADED, rank, [1], height)
    ensures ListKids(SHADOWED, LOADED, ["R"], [1], true, true, rank, height) == Ok([Listed(["a"], 1)])
  {
    hide Descends, Within, ListKid;
    BelowTail(LOADED, rank, [1], height);
    ListsStream(["R"], rank, height);
    var none: seq<nat> := [1][1..];
    assert ListKids(SHADOWED, LOADED, ["R"], none, true, true, rank, height) == Ok([]);
    assert [Listed(["a"], 1)] + [] == [Listed(["a"], 1)];
  }

  lemma ListsStream(prefix: Path, rank: map<nat, nat>, height: nat)
    requires Descends(SHADOWED, LOADED, rank) && Within(LOADED, rank, 1, height) && |prefix| == 1
    ensures ListKid(SHADOWED, LOADED, prefix, 1, true, true, rank, height) == Ok([Listed(["a"], 1)])
  {
    hide Descends, Within, List;
    assert LOADED.Get(1).raw.entryType == STGTY_STREAM && SHADOWED.Name(1) == "a";
    assert prefix[1..] + [SHADOWED.Name(1)] == ["a"];
  }

  /** It loads strictly. Lookup then finds the path a/b, which the listing leaves out. */
  lemma FoundButNotListed(depth: nat) returns (par: map<nat, nat>, rank: map<nat, nat>)
    requires depth >= 8
    ensures SHADOWED.Strict() && LoadDirectory(SHADOWED, NOT_LOADED, depth) == Ok(LOADED)
    ensures IsTree(SHADOWED, LOADED, par, rank)
    ensures (TreeDescends(SHADOWED, LOADED, par, rank);
             ListDir(SHADOWED, LOADED, true, true, rank) == Ok([Listed(["a"], 1)]))
    ensures Find(SHADOWED, LOADED, ["a", "b"]) == Ok(2)
  {
    hide LoadDirectory, IsTree, ListDir;
    par, rank := StrictLoadYieldsTree(SHADOWED, NOT_LOADED, depth);
    LoadsShadowed(depth);
    ListsShadowed(par, rank);
  }
}
