/** Listing the tree and finding entries by path: _list, listdir and _find. */
module DirectoryLookup {
  import opened Common
  import opened DirectoryTree
  import opened DirectoryProofs

  type Path = seq<string>

  /** A listed path together with the entry it was listed for. */
  datatype Listed = Listed(path: Path, sid: nat)

  /** Fewer than `height` levels lie between the node and the latest loaded entry. */
  ghost predicate Within(t: Dir, rank: map<nat, nat>, node: nat, height: nat) {
    t.Loaded(node) && node in rank && |rank| - rank[node] <= height
  }

  ghost predicate Below(t: Dir, rank: map<nat, nat>, kids: seq<nat>, height: nat) {
    forall i :: 0 <= i < |kids| ==> Within(t, rank, kids[i], height)
  }

  /** Children are loaded and were loaded after their storage, so that walking down ends. */
  ghost predicate Descends(c: Context, t: Dir, rank: map<nat, nat>) {
    forall p: nat :: t.Loaded(p) ==> DescendsFrom(c, t, rank, p)
  }

  ghost predicate DescendsFrom(c: Context, t: Dir, rank: map<nat, nat>, p: nat)
    requires t.Loaded(p)
  {
    && p in rank && rank[p] < |rank|
    && p < |c.records| && t.Get(p).raw == c.records[p]
    && forall k :: k in t.Get(p).kids ==> t.Loaded(k) && k in rank && rank[p] < rank[k]
  }

  lemma TreeDescends(c: Context, t: Dir, par: map<nat, nat>, rank: map<nat, nat>)
    requires IsTree(c, t, par, rank)
    ensures Descends(c, t, rank) && Within(t, rank, 0, |rank|)
  {
    forall p: nat | t.Loaded(p) ensures DescendsFrom(c, t, rank, p) {
      assert WellPlaced(c, t, par, p);
      forall k | k in t.Get(p).kids ensures t.Loaded(k) && k in rank && rank[p] < rank[k] {
        assert multiset(t.Get(p).kids)[k] > 0;
      }
    }
  }

  lemma KidsBelow(c: Context, t: Dir, rank: map<nat, nat>, node: nat, height: nat)
    requires Descends(c, t, rank) && Within(t, rank, node, height)
    ensures t.Loaded(node) && height > 0 && Below(t, rank, t.Get(node).kids, height - 1)
  {
    assert DescendsFrom(c, t, rank, node);
    forall i | 0 <= i < |t.Get(node).kids| ensures Within(t, rank, t.Get(node).kids[i], height - 1) {
      assert t.Get(node).kids[i] in t.Get(node).kids;
    }
  }

  lemma WithinLoads(t: Dir, rank: map<nat, nat>, node: nat, height: nat)
    requires Within(t, rank, node, height)
    ensures t.Loaded(node)
  {
  }

  lemma NamesUnique(c: Context, t: Dir, par: map<nat, nat>, rank: map<nat, nat>, node: nat)
    requires IsTree(c, t, par, rank) && t.Loaded(node)
    ensures UniqueNames(c, t.Get(node).kids)
  {
    assert WellPlaced(c, t, par, node);
  }

  lemma BelowTail(t: Dir, rank: map<nat, nat>, kids: seq<nat>, height: nat)
    requires Below(t, rank, kids, height) && kids != []
    ensures Within(t, rank, kids[0], height) && Below(t, rank, kids[1..], height)
  {
    forall i | 0 <= i < |kids[1..]| ensures kids[1..][i] == kids[i + 1] { }
  }

  /** _list from a node; `prefix` holds the names from the root down to the parent of the node. */
  function List(c: Context, t: Dir, prefix: Path, node: nat, streams: bool, storages: bool,
                ghost rank: map<nat, nat>, ghost height: nat): Result<seq<Listed>, DirError>
    requires Descends(c, t, rank) && Within(t, rank, node, height)
    decreases height, 0
  {
    KidsBelow(c, t, rank, node, height);
    ListKids(c, t, prefix + [c.Name(node)], t.Get(node).kids, streams, storages, rank, height - 1)
  }

  /** The loop of _list over children; `prefix` now includes the node itself. */
  function ListKids(c: Context, t: Dir, prefix: Path, kids: seq<nat>, streams: bool, storages: bool,
                    ghost rank: map<nat, nat>, ghost height: nat)
    : Result<seq<Listed>, DirError>
    requires Descends(c, t, rank) && Below(t, rank, kids, height) && prefix != []
    decreases height, 2, |kids|
  {
    if kids == [] then Ok([])
    else
      var kid := kids[0];
      BelowTail(t, rank, kids, height);
      match ListKid(c, t, prefix, kid, streams, storages, rank, height)
      case Err(e) => Err(e)
      case Ok(here) =>
        match ListKids(c, t, prefix, kids[1..], streams, storages, rank, height)
        case Err(e) => Err(e)
        case Ok(rest) => Ok(here + rest)
  }

  /** What one child contributes: itself, and everything below it if it is a storage. */
  function ListKid(c: Context, t: Dir, prefix: Path, kid: nat, streams: bool, storages: bool,
                   ghost rank: map<nat, nat>, ghost height: nat)
    : Result<seq<Listed>, DirError>
    requires Descends(c, t, rank) && prefix != []
    requires Within(t, rank, kid, height)
    decreases height, 1, 0
  {
    var self := Listed(prefix[1..] + [c.Name(kid)], kid);
    if t.Get(kid).raw.entryType == STGTY_STORAGE then
      match List(c, t, prefix, kid, streams, storages, rank, height)
      case Err(e) => Err(e)
      case Ok(below) => Ok((if storages then [self] else []) + below)
    else if t.Get(kid).raw.entryType == STGTY_STREAM then Ok(if streams then [self] else [])
    else if NeitherStreamNorStorage.Severity().RaisedAt(c.level) then Err(NeitherStreamNorStorage)
    else Ok([])
  }

  /** The defects that _list meets below a node: entries that are neither streams nor storages. */
  ghost function OddBelow(c: Context, t: Dir, node: nat, rank: map<nat, nat>, height: nat): seq<DirError>
    requires Descends(c, t, rank) && Within(t, rank, node, height)
    decreases height, 0
  {
    KidsBelow(c, t, rank, node, height);
    OddKids(c, t, t.Get(node).kids, rank, height - 1)
  }

  ghost function OddKids(c: Context, t: Dir, kids: seq<nat>, rank: map<nat, nat>, height: nat): seq<DirError>
    requires Descends(c, t, rank) && Below(t, rank, kids, height)
    decreases height, 2, |kids|
  {
    if kids == [] then []
    else
      BelowTail(t, rank, kids, height);
      OddKid(c, t, kids[0], rank, height) + OddKids(c, t, kids[1..], rank, height)
  }

  ghost function OddKid(c: Context, t: Dir, kid: nat, rank: map<nat, nat>, height: nat): seq<DirError>
    requires Descends(c, t, rank) && Within(t, rank, kid, height)
    decreases height, 1, 0
  {
    if t.Get(kid).raw.entryType == STGTY_STORAGE then OddBelow(c, t, kid, rank, height)
    else if t.Get(kid).raw.entryType == STGTY_STREAM then []
    else [NeitherStreamNorStorage]
  }

  /** listdir. */
  function ListDir(c: Context, t: Dir, streams: bool, storages: bool, ghost rank: map<nat, nat>)
    : Result<seq<Listed>, DirError>
    requires Descends(c, t, rank) && Within(t, rank, 0, |rank|)
  {
    List(c, t, [], 0, streams, storages, rank, |rank|)
  }

  /** The first child with the given name, ignoring case. */
  function FindKid(c: Context, kids: seq<nat>, name: string): Option<nat> {
    if kids == [] then None
    else if c.lower(c.Name(kids[0])) == c.lower(name) then Some(kids[0])
    else FindKid(c, kids[1..], name)
  }

  /** _find, continued from `node`. */
  function FindFrom(c: Context, t: Dir, node: nat, path: Path): Result<nat, DirError>
    decreases |path|
  {
    if path == [] then Ok(node)
    else if !t.Loaded(node) then Err(FileNotFound)
    else
      match FindKid(c, t.Get(node).kids, path[0])
      case None => Err(FileNotFound)
      case Some(kid) => FindFrom(c, t, kid, path[1..])
  }

  /** _find on a path given as a list of names. */
  function Find(c: Context, t: Dir, path: Path): Result<nat, DirError> {
    FindFrom(c, t, 0, path)
  }

  /** Equal up to letter case. */
  ghost predicate SameNames(c: Context, p: Path, q: Path) {
    |p| == |q| && forall i :: 0 <= i < |p| ==> c.lower(p[i]) == c.lower(q[i])
  }

  /** Lookup of `path` meets storages only, until it ends at a storage or at a stream. */
  ghost predicate ThroughStorages(c: Context, t: Dir, node: nat, path: Path)
    decreases |path|
  {
    && path != [] && t.Loaded(node)
    && match FindKid(c, t.Get(node).kids, path[0])
       case None => false
       case Some(kid) =>
         if |path| == 1 then IsStorage(t, kid) || IsStream(t, kid)
         else IsStorage(t, kid) && ThroughStorages(c, t, kid, path[1..])
  }

  ghost predicate IsStorage(t: Dir, sid: nat) {
    t.Loaded(sid) && t.Get(sid).raw.entryType == STGTY_STORAGE
  }

  ghost predicate IsStream(t: Dir, sid: nat) {
    t.Loaded(sid) && t.Get(sid).raw.entryType == STGTY_STREAM
  }

  // ----- Lookup finds what the listing names

  lemma {:induction false} FindKidUnique(c: Context, kids: seq<nat>, k: nat, name: string)
    requires UniqueNames(c, kids) && k < |kids| && c.lower(c.Name(kids[k])) == c.lower(name)
    ensures FindKid(c, kids, name) == Some(kids[k])
  {
    if k > 0 {
      assert c.lower(c.Name(kids[0])) != c.lower(c.Name(kids[k]));
      forall i, j | 0 <= i < j < |kids[1..]| ensures c.lower(c.Name(kids[1..][i])) != c.lower(c.Name(kids[1..][j])) {
        assert kids[1..][i] == kids[i + 1] && kids[1..][j] == kids[j + 1];
      }
      FindKidUnique(c, kids[1..], k - 1, name);
    }
  }

  /** Everything listed under `node` extends `base`, and the rest of the path leads from `node` to the entry. */
  ghost predicate LeadsFrom(c: Context, t: Dir, node: nat, base: Path, l: Listed) {
    && |base| < |l.path| && l.path[..|base|] == base
    && forall q :: SameNames(c, q, l.path[|base|..]) ==>
         FindFrom(c, t, node, q) == Ok(l.sid) && ThroughStorages(c, t, node, q)
  }

  ghost predicate AllLead(c: Context, t: Dir, node: nat, base: Path, ls: seq<Listed>) {
    forall i :: 0 <= i < |ls| ==> LeadsFrom(c, t, node, base, ls[i])
  }

  lemma LeadsThrough(c: Context, t: Dir, node: nat, base: Path, k: nat, l: Listed)
    requires t.Loaded(node) && UniqueNames(c, t.Get(node).kids) && k < |t.Get(node).kids|
    requires IsStorage(t, t.Get(node).kids[k])
    requires LeadsFrom(c, t, t.Get(node).kids[k], base + [c.Name(t.Get(node).kids[k])], l)
    ensures LeadsFrom(c, t, node, base, l)
  {
    var kids := t.Get(node).kids;
    var base' := base + [c.Name(kids[k])];
    assert l.path[..|base|] == l.path[..|base'|][..|base|];
    assert l.path[|base|] == l.path[..|base'|][|base|];
    forall q | SameNames(c, q, l.path[|base|..])
      ensures FindFrom(c, t, node, q) == Ok(l.sid) && ThroughStorages(c, t, node, q)
    {
      var rest := l.path[|base|..];
      assert rest[0] == c.Name(kids[k]) && c.lower(q[0]) == c.lower(rest[0]);
      FindKidUnique(c, kids, k, q[0]);
      assert SameNames(c, q[1..], l.path[|base'|..]) by {
        forall i | 0 <= i < |q[1..]| ensures c.lower(q[1..][i]) == c.lower(l.path[|base'|..][i]) {
          assert q[1..][i] == q[i + 1] && l.path[|base'|..][i] == rest[i + 1];
        }
      }
    }
  }

  lemma LeadsToKid(c: Context, t: Dir, node: nat, base: Path, k: nat)
    requires t.Loaded(node) && UniqueNames(c, t.Get(node).kids) && k < |t.Get(node).kids|
    requires IsStorage(t, t.Get(node).kids[k]) || IsStream(t, t.Get(node).kids[k])
    ensures LeadsFrom(c, t, node, base, Listed(base + [c.Name(t.Get(node).kids[k])], t.Get(node).kids[k]))
  {
    var kids := t.Get(node).kids;
    var l := Listed(base + [c.Name(kids[k])], kids[k]);
    forall q | SameNames(c, q, l.path[|base|..])
      ensures FindFrom(c, t, node, q) == Ok(l.sid) && ThroughStorages(c, t, node, q)
    {
      assert l.path[|base|..][0] == c.Name(kids[k]);
      assert c.lower(q[0]) == c.lower(l.path[|base|..][0]);
      FindKidUnique(c, kids, k, q[0]);
      assert q[1..] == [];
    }
  }

  lemma {:induction false} ListLeads(
    c: Context, t: Dir, prefix: Path, node: nat, streams: bool, storages: bool,
    par: map<nat, nat>, rank: map<nat, nat>, height: nat)
    requires IsTree(c, t, par, rank) && Descends(c, t, rank) && Within(t, rank, node, height)
    ensures var r := List(c, t, prefix, node, streams, storages, rank, height);
            r.Ok? ==> AllLead(c, t, node, (prefix + [c.Name(node)])[1..], r.value)
    decreases height, 0
  {
    hide IsTree, Descends, Within, Below, AllLead, ListKids;
    KidsBelow(c, t, rank, node, height);
    assert t.Get(node).kids[0..] == t.Get(node).kids;
    ListKidsLead(c, t, prefix + [c.Name(node)], node, 0, streams, storages, par, rank, height - 1);
  }

  /** What the k-th child contributes is found from the node. */
  lemma {:induction false} ListKidLeads(
    c: Context, t: Dir, prefix: Path, node: nat, k: nat, streams: bool, storages: bool,
    par: map<nat, nat>, rank: map<nat, nat>, height: nat)
    requires IsTree(c, t, par, rank) && Descends(c, t, rank) && t.Loaded(node) && k < |t.Get(node).kids| && prefix != []
    requires Within(t, rank, t.Get(node).kids[k], height)
    ensures var r := ListKid(c, t, prefix, t.Get(node).kids[k], streams, storages, rank, height);
            r.Ok? ==> AllLead(c, t, node, prefix[1..], r.value)
    decreases height, 1, 0
  {
    hide *;
    var kid := t.Get(node).kids[k];
    var r := ListKid(c, t, prefix, kid, streams, storages, rank, height);
    ListKidCases(c, t, prefix, kid, streams, storages, rank, height);
    NamesUnique(c, t, par, rank, node);
    assert (prefix + [c.Name(kid)])[1..] == prefix[1..] + [c.Name(kid)];
    if r.Ok? && IsStorage(t, kid) {
      ListLeads(c, t, prefix, kid, streams, storages, par, rank, height);
      AllLeadThrough(c, t, node, prefix[1..], k, List(c, t, prefix, kid, streams, storages, rank, height).value);
    } else if r.Ok? && IsStream(t, kid) {
      LeadsToKid(c, t, node, prefix[1..], k);
      AllLeadShort(c, t, node, prefix[1..], [Listed(prefix[1..] + [c.Name(kid)], kid)]);
      AllLeadShort(c, t, node, prefix[1..], []);
    } else if r.Ok? {
      AllLeadShort(c, t, node, prefix[1..], []);
    }
  }

  /** What a child contributes, by the kind of entry it is. */
  lemma ListKidCases(c: Context, t: Dir, prefix: Path, kid: nat, streams: bool, storages: bool,
                     rank: map<nat, nat>, height: nat)
    requires Descends(c, t, rank) && Within(t, rank, kid, height) && prefix != []
    ensures t.Loaded(kid)
    ensures var r := ListKid(c, t, prefix, kid, streams, storages, rank, height);
            var below := List(c, t, prefix, kid, streams, storages, rank, height);
            var self := [Listed(prefix[1..] + [c.Name(kid)], kid)];
            r.Ok? ==>
              if IsStorage(t, kid) then below.Ok? && (r.value == self + below.value || r.value == below.value)
              else r.value == [] || (IsStream(t, kid) && r.value == self)
  {
    WithinLoads(t, rank, kid, height);
    hide Descends, Within, List;
    var below := List(c, t, prefix, kid, streams, storages, rank, height);
    assert below.Ok? ==> [] + below.value == below.value;
  }

  lemma AllLeadShort(c: Context, t: Dir, node: nat, base: Path, ls: seq<Listed>)
    requires |ls| <= 1 && (ls != [] ==> LeadsFrom(c, t, node, base, ls[0]))
    ensures AllLead(c, t, node, base, ls)
  {
  }

  lemma AllLeadThrough(c: Context, t: Dir, node: nat, base: Path, k: nat, ls: seq<Listed>)
    requires t.Loaded(node) && UniqueNames(c, t.Get(node).kids) && k < |t.Get(node).kids|
    requires IsStorage(t, t.Get(node).kids[k])
    requires AllLead(c, t, t.Get(node).kids[k], base + [c.Name(t.Get(node).kids[k])], ls)
    ensures AllLead(c, t, node, base, ls)
    ensures AllLead(c, t, node, base, [Listed(base + [c.Name(t.Get(node).kids[k])], t.Get(node).kids[k])] + ls)
  {
    hide UniqueNames, LeadsFrom;
    LeadsToKid(c, t, node, base, k);
    forall i | 0 <= i < |ls| ensures LeadsFrom(c, t, node, base, ls[i]) {
      LeadsThrough(c, t, node, base, k, ls[i]);
    }
  }

  lemma {:induction false} ListKidsLead(
    c: Context, t: Dir, prefix: Path, node: nat, k: nat, streams: bool, storages: bool,
    par: map<nat, nat>, rank: map<nat, nat>, height: nat)
    requires IsTree(c, t, par, rank) && Descends(c, t, rank)
    requires t.Loaded(node) && k <= |t.Get(node).kids| && prefix != []
    requires Below(t, rank, t.Get(node).kids[k..], height)
    ensures var r := ListKids(c, t, prefix, t.Get(node).kids[k..], streams, storages, rank, height);
            r.Ok? ==> AllLead(c, t, node, prefix[1..], r.value)
    decreases height, 2, |t.Get(node).kids| - k
  {
    hide IsTree, Descends, Below, LeadsFrom, ListKid;
    var kids := t.Get(node).kids;
    if k < |kids| {
      BelowTail(t, rank, kids[k..], height);
      assert kids[k..][0] == kids[k] && kids[k..][1..] == kids[k + 1..];
      ListKidLeads(c, t, prefix, node, k, streams, storages, par, rank, height);
      ListKidsLead(c, t, prefix, node, k + 1, streams, storages, par, rank, height);
    }
  }

  /** Lookup of any listed path, in any letter case, returns the entry it was listed for. */
  lemma FindsListed(
    c: Context, t: Dir, streams: bool, storages: bool, par: map<nat, nat>, rank: map<nat, nat>, i: nat, q: Path)
    requires IsTree(c, t, par, rank)
    requires (TreeDescends(c, t, par, rank); ListDir(c, t, streams, storages, rank).Ok?)
    requires i < |ListDir(c, t, streams, storages, rank).value|
    requires SameNames(c, q, ListDir(c, t, streams, storages, rank).value[i].path)
    ensures (TreeDescends(c, t, par, rank); Find(c, t, q) == Ok(ListDir(c, t, streams, storages, rank).value[i].sid))
  {
    TreeDescends(c, t, par, rank);
    ListLeads(c, t, [], 0, streams, storages, par, rank, |rank|);
    var ls := ListDir(c, t, streams, storages, rank).value;
    assert ([] + [c.Name(0)])[1..] == [];
    assert LeadsFrom(c, t, 0, [], ls[i]);
    assert ls[i].path[0..] == ls[i].path;
  }

  // ----- The listing names every entry once

  ghost predicate NoTwoSame(c: Context, ls: seq<Listed>) {
    forall i, j :: 0 <= i < j < |ls| ==> !SameNames(c, ls[i].path, ls[j].path)
  }

  /** The component of the path after `base` names the k-th of `kids`. */
  ghost predicate Through(c: Context, kids: seq<nat>, k: nat, base: Path, l: Listed) {
    k < |kids| && |base| < |l.path| && l.path[|base|] == c.Name(kids[k])
  }

  ghost predicate AllThrough(c: Context, kids: seq<nat>, k: nat, base: Path, ls: seq<Listed>) {
    forall i :: 0 <= i < |ls| ==> Through(c, kids, k, base, ls[i])
  }

  ghost predicate AllThroughFrom(c: Context, kids: seq<nat>, k: nat, base: Path, ls: seq<Listed>) {
    forall i :: 0 <= i < |ls| ==> ThroughSome(c, kids, k, base, ls[i])
  }

  ghost predicate ThroughSome(c: Context, kids: seq<nat>, k: nat, base: Path, l: Listed) {
    exists j: nat :: k <= j < |kids| && Through(c, kids, j, base, l)
  }

  lemma DifferentKids(c: Context, kids: seq<nat>, k: nat, base: Path, here: seq<Listed>, rest: seq<Listed>)
    requires UniqueNames(c, kids)
    requires AllThrough(c, kids, k, base, here) && AllThroughFrom(c, kids, k + 1, base, rest)
    requires NoTwoSame(c, here) && NoTwoSame(c, rest)
    ensures NoTwoSame(c, here + rest)
    ensures AllThroughFrom(c, kids, k, base, here + rest)
  {
    var ls := here + rest;
    forall i, j | 0 <= i < j < |ls| ensures !SameNames(c, ls[i].path, ls[j].path) {
      if i < |here| <= j {
        assert Through(c, kids, k, base, here[i]);
        assert ThroughSome(c, kids, k + 1, base, rest[j - |here|]);
        var m: nat :| k + 1 <= m < |kids| && Through(c, kids, m, base, rest[j - |here|]);
        assert c.lower(c.Name(kids[k])) != c.lower(c.Name(kids[m]));
      } else if j < |here| {
        assert !SameNames(c, here[i].path, here[j].path);
      } else {
        assert !SameNames(c, rest[i - |here|].path, rest[j - |here|].path);
      }
    }
    forall i | 0 <= i < |ls| ensures ThroughSome(c, kids, k, base, ls[i]) {
      if i < |here| {
        assert Through(c, kids, k, base, ls[i]);
      } else {
        assert ThroughSome(c, kids, k + 1, base, rest[i - |here|]);
      }
    }
  }

  /** A storage is listed before what is below it, and everything below has a longer path. */
  lemma SelfAndBelow(c: Context, t: Dir, kids: seq<nat>, k: nat, base: Path, below: seq<Listed>)
    requires k < |kids| && AllLead(c, t, kids[k], base + [c.Name(kids[k])], below) && NoTwoSame(c, below)
    ensures var self := Listed(base + [c.Name(kids[k])], kids[k]);
            && NoTwoSame(c, [self] + below) && AllThrough(c, kids, k, base, [self] + below)
            && AllThrough(c, kids, k, base, below)
  {
    var base' := base + [c.Name(kids[k])];
    forall i | 0 <= i < |below| ensures Through(c, kids, k, base, below[i]) && |below[i].path| > |base'| {
      assert LeadsFrom(c, t, kids[k], base', below[i]);
      assert below[i].path[|base|] == below[i].path[..|base'|][|base|];
    }
  }

  lemma {:induction false} ListDistinct(
    c: Context, t: Dir, prefix: Path, node: nat, streams: bool, storages: bool,
    par: map<nat, nat>, rank: map<nat, nat>, height: nat)
    requires IsTree(c, t, par, rank) && Descends(c, t, rank) && Within(t, rank, node, height)
    ensures var r := List(c, t, prefix, node, streams, storages, rank, height);
            r.Ok? ==> NoTwoSame(c, r.value)
    decreases height, 0
  {
    hide IsTree, Descends, Within, Below, NoTwoSame, ListKids;
    KidsBelow(c, t, rank, node, height);
    assert t.Get(node).kids[0..] == t.Get(node).kids;
    ListKidsDistinct(c, t, prefix + [c.Name(node)], node, 0, streams, storages, par, rank, height - 1);
  }

  lemma {:induction false} ListKidDistinct(
    c: Context, t: Dir, prefix: Path, node: nat, k: nat, streams: bool, storages: bool,
    par: map<nat, nat>, rank: map<nat, nat>, height: nat)
    requires IsTree(c, t, par, rank) && Descends(c, t, rank) && t.Loaded(node) && k < |t.Get(node).kids| && prefix != []
    requires Within(t, rank, t.Get(node).kids[k], height)
    ensures var r := ListKid(c, t, prefix, t.Get(node).kids[k], streams, storages, rank, height);
            r.Ok? ==> NoTwoSame(c, r.value) && AllThrough(c, t.Get(node).kids, k, prefix[1..], r.value)
    decreases height, 1, 0
  {
    hide IsTree, Descends, Within, List, AllLead;
    var kids := t.Get(node).kids;
    var below := List(c, t, prefix, kids[k], streams, storages, rank, height);
    ListLeads(c, t, prefix, kids[k], streams, storages, par, rank, height);
    ListDistinct(c, t, prefix, kids[k], streams, storages, par, rank, height);
    if below.Ok? {
      assert (prefix + [c.Name(kids[k])])[1..] == prefix[1..] + [c.Name(kids[k])];
      SelfAndBelow(c, t, kids, k, prefix[1..], below.value);
      assert [] + below.value == below.value;
    }
  }

  lemma {:induction false} ListKidsDistinct(
    c: Context, t: Dir, prefix: Path, node: nat, k: nat, streams: bool, storages: bool,
    par: map<nat, nat>, rank: map<nat, nat>, height: nat)
    requires IsTree(c, t, par, rank) && Descends(c, t, rank)
    requires t.Loaded(node) && k <= |t.Get(node).kids| && prefix != []
    requires Below(t, rank, t.Get(node).kids[k..], height)
    ensures var r := ListKids(c, t, prefix, t.Get(node).kids[k..], streams, storages, rank, height);
            r.Ok? ==> NoTwoSame(c, r.value) && AllThroughFrom(c, t.Get(node).kids, k, prefix[1..], r.value)
    decreases height, 2, |t.Get(node).kids| - k
  {
    var kids := t.Get(node).kids;
    if k < |kids| {
      hide IsTree, Descends, Below, ListKid, UniqueNames, NoTwoSame, AllThrough, AllThroughFrom;
      BelowTail(t, rank, kids[k..], height);
      NamesUnique(c, t, par, rank, node);
      assert kids[k..][0] == kids[k] && kids[k..][1..] == kids[k + 1..];
      ListKidDistinct(c, t, prefix, node, k, streams, storages, par, rank, height);
      ListKidsDistinct(c, t, prefix, node, k + 1, streams, storages, par, rank, height);
      var here := ListKid(c, t, prefix, kids[k], streams, storages, rank, height);
      var rest := ListKids(c, t, prefix, kids[k + 1..], streams, storages, rank, height);
      if here.Ok? && rest.Ok? {
        DifferentKids(c, kids, k, prefix[1..], here.value, rest.value);
      }
    }
  }

  /** No two listed paths are equal up to letter case. */
  lemma ListedOnceOnly(c: Context, t: Dir, streams: bool, storages: bool, par: map<nat, nat>, rank: map<nat, nat>)
    requires IsTree(c, t, par, rank)
    requires (TreeDescends(c, t, par, rank); ListDir(c, t, streams, storages, rank).Ok?)
    ensures (TreeDescends(c, t, par, rank); NoTwoSame(c, ListDir(c, t, streams, storages, rank).value))
  {
    TreeDescends(c, t, par, rank);
    ListDistinct(c, t, [], 0, streams, storages, par, rank, |rank|);
  }

  // ----- The listing is complete

  ghost predicate NamesPath(c: Context, ls: seq<Listed>, base: Path, q: Path) {
    exists i :: 0 <= i < |ls| && |base| <= |ls[i].path| && SameNames(c, q, ls[i].path[|base|..])
  }

  lemma NamedInLonger(c: Context, ls: seq<Listed>, more: seq<Listed>, base: Path, q: Path)
    requires NamesPath(c, ls, base, q)
    requires forall l :: l in ls ==> l in more
    ensures NamesPath(c, more, base, q)
  {
    var i :| 0 <= i < |ls| && |base| <= |ls[i].path| && SameNames(c, q, ls[i].path[|base|..]);
    assert ls[i] in more;
  }

  lemma ListedOneUp(c: Context, t: Dir, kid: nat, ls: seq<Listed>, base: Path, q: Path)
    requires q != [] && c.lower(c.Name(kid)) == c.lower(q[0])
    requires AllLead(c, t, kid, base + [c.Name(kid)], ls) && NamesPath(c, ls, base + [c.Name(kid)], q[1..])
    ensures NamesPath(c, ls, base, q)
  {
    var base' := base + [c.Name(kid)];
    var i :| 0 <= i < |ls| && |base'| <= |ls[i].path| && SameNames(c, q[1..], ls[i].path[|base'|..]);
    var path := ls[i].path;
    assert LeadsFrom(c, t, kid, base', ls[i]);
    assert path[|base|] == path[..|base'|][|base|];
    forall j | 0 <= j < |q| ensures c.lower(q[j]) == c.lower(path[|base|..][j]) {
      if j > 0 {
        assert q[1..][j - 1] == q[j] && path[|base'|..][j - 1] == path[|base|..][j];
      }
    }
  }

  lemma {:induction false} FoundKid(c: Context, kids: seq<nat>, name: string) returns (k: nat)
    requires FindKid(c, kids, name).Some?
    ensures k < |kids| && FindKid(c, kids, name) == Some(kids[k]) && c.lower(c.Name(kids[k])) == c.lower(name)
  {
    if c.lower(c.Name(kids[0])) == c.lower(name) {
      k := 0;
    } else {
      var k' := FoundKid(c, kids[1..], name);
      k := k' + 1;
    }
  }

  /** The loop over children lists what each child contributes. */
  lemma {:induction false} KidContributes(
    c: Context, t: Dir, prefix: Path, kids: seq<nat>, k: nat, streams: bool, storages: bool,
    rank: map<nat, nat>, height: nat)
    requires Descends(c, t, rank) && Below(t, rank, kids, height) && prefix != [] && k < |kids|
    requires ListKids(c, t, prefix, kids, streams, storages, rank, height).Ok?
    ensures Within(t, rank, kids[k], height)
    ensures ListKid(c, t, prefix, kids[k], streams, storages, rank, height).Ok?
    ensures forall l :: l in ListKid(c, t, prefix, kids[k], streams, storages, rank, height).value ==>
              l in ListKids(c, t, prefix, kids, streams, storages, rank, height).value
    decreases |kids|
  {
    hide Descends, Below, Within, ListKid;
    BelowTail(t, rank, kids, height);
    if k > 0 {
      KidContributes(c, t, prefix, kids[1..], k - 1, streams, storages, rank, height);
    }
  }

  lemma ListIsKids(c: Context, t: Dir, prefix: Path, node: nat, streams: bool, storages: bool, rank: map<nat, nat>,
                   height: nat)
    requires Descends(c, t, rank) && Within(t, rank, node, height)
    ensures t.Loaded(node) && height > 0 && Below(t, rank, t.Get(node).kids, height - 1)
    ensures List(c, t, prefix, node, streams, storages, rank, height)
         == ListKids(c, t, prefix + [c.Name(node)], t.Get(node).kids, streams, storages, rank, height - 1)
    ensures OddBelow(c, t, node, rank, height) == OddKids(c, t, t.Get(node).kids, rank, height - 1)
  {
    KidsBelow(c, t, rank, node, height);
    hide Descends, Within, Below, ListKids, OddKids;
  }

  /** The first step of such a lookup, and what remains of it. */
  lemma LookupStep(c: Context, t: Dir, node: nat, q: Path) returns (k: nat)
    requires ThroughStorages(c, t, node, q)
    ensures q != [] && t.Loaded(node)
    ensures k < |t.Get(node).kids| && c.lower(c.Name(t.Get(node).kids[k])) == c.lower(q[0])
    ensures IsStorage(t, t.Get(node).kids[k]) || IsStream(t, t.Get(node).kids[k])
    ensures |q| > 1 ==> IsStorage(t, t.Get(node).kids[k]) && ThroughStorages(c, t, t.Get(node).kids[k], q[1..])
  {
    k := FoundKid(c, t.Get(node).kids, q[0]);
    hide IsStorage, IsStream;
  }

  /** With both flags a storage is listed with everything below it, and a stream is listed. */
  lemma ListKidBoth(c: Context, t: Dir, prefix: Path, kid: nat, rank: map<nat, nat>, height: nat)
    requires Descends(c, t, rank) && Within(t, rank, kid, height) && prefix != []
    requires ListKid(c, t, prefix, kid, true, true, rank, height).Ok?
    ensures var ls := ListKid(c, t, prefix, kid, true, true, rank, height).value;
            var below := List(c, t, prefix, kid, true, true, rank, height);
            && (IsStorage(t, kid) || IsStream(t, kid) ==> Listed(prefix[1..] + [c.Name(kid)], kid) in ls)
            && (IsStorage(t, kid) ==> below.Ok? && forall l :: l in below.value ==> l in ls)
  {
    WithinLoads(t, rank, kid, height);
    hide Descends, Within, List;
  }

  lemma NamesItself(c: Context, ls: seq<Listed>, base: Path, kid: nat, q: Path)
    requires Listed(base + [c.Name(kid)], kid) in ls && |q| == 1 && c.lower(c.Name(kid)) == c.lower(q[0])
    ensures NamesPath(c, ls, base, q)
  {
    var i :| 0 <= i < |ls| && ls[i] == Listed(base + [c.Name(kid)], kid);
    assert ls[i].path[|base|..] == [c.Name(kid)];
  }

  /** What lookup reaches from a node through storages only is listed below that node. */
  lemma {:induction false} FoundIsListed(
    c: Context, t: Dir, prefix: Path, node: nat, q: Path, par: map<nat, nat>, rank: map<nat, nat>, height: nat)
    requires IsTree(c, t, par, rank) && Descends(c, t, rank) && Within(t, rank, node, height)
    requires List(c, t, prefix, node, true, true, rank, height).Ok?
    requires ThroughStorages(c, t, node, q)
    ensures NamesPath(c, List(c, t, prefix, node, true, true, rank, height).value, (prefix + [c.Name(node)])[1..], q)
    decreases |q|, 1
  {
    hide *;
    ListIsKids(c, t, prefix, node, true, true, rank, height);
    var k := LookupStep(c, t, node, q);
    var kids := t.Get(node).kids;
    var prefix' := prefix + [c.Name(node)];
    KidContributes(c, t, prefix', kids, k, true, true, rank, height - 1);
    FoundKidIsListed(c, t, prefix', kids[k], q, par, rank, height - 1);
    NamedInLonger(c, ListKid(c, t, prefix', kids[k], true, true, rank, height - 1).value,
                  ListKids(c, t, prefix', kids, true, true, rank, height - 1).value, prefix'[1..], q);
  }

  lemma {:induction false} FoundKidIsListed(
    c: Context, t: Dir, prefix: Path, kid: nat, q: Path, par: map<nat, nat>, rank: map<nat, nat>, height: nat)
    requires IsTree(c, t, par, rank) && Descends(c, t, rank) && Within(t, rank, kid, height) && prefix != []
    requires ListKid(c, t, prefix, kid, true, true, rank, height).Ok?
    requires q != [] && c.lower(c.Name(kid)) == c.lower(q[0]) && (IsStorage(t, kid) || IsStream(t, kid))
    requires |q| > 1 ==> IsStorage(t, kid) && ThroughStorages(c, t, kid, q[1..])
    ensures NamesPath(c, ListKid(c, t, prefix, kid, true, true, rank, height).value, prefix[1..], q)
    decreases |q|, 0
  {
    hide *;
    ListKidBoth(c, t, prefix, kid, rank, height);
    var ls := ListKid(c, t, prefix, kid, true, true, rank, height).value;
    if |q| == 1 {
      NamesItself(c, ls, prefix[1..], kid, q);
    } else {
      FoundIsListed(c, t, prefix, kid, q[1..], par, rank, height);
      var below := List(c, t, prefix, kid, true, true, rank, height).value;
      assert (prefix + [c.Name(kid)])[1..] == prefix[1..] + [c.Name(kid)];
      ListLeads(c, t, prefix, kid, true, true, par, rank, height);
      ListedOneUp(c, t, kid, below, prefix[1..], q);
      NamedInLonger(c, below, ls, prefix[1..], q);
    }
  }

  /** One of the listed paths is `q` up to letter case. */
  ghost predicate IsListed(c: Context, ls: seq<Listed>, q: Path) {
    exists i :: 0 <= i < |ls| && SameNames(c, q, ls[i].path)
  }

  /** A path is listed, up to letter case, exactly if lookup meets storages only until it ends at a storage or
      a stream. */
  lemma ListedExactly(c: Context, t: Dir, par: map<nat, nat>, rank: map<nat, nat>, q: Path)
    requires IsTree(c, t, par, rank)
    requires (TreeDescends(c, t, par, rank); ListDir(c, t, true, true, rank).Ok?)
    ensures (TreeDescends(c, t, par, rank); var ls := ListDir(c, t, true, true, rank).value;
             IsListed(c, ls, q) <==> ThroughStorages(c, t, 0, q))
  {
    hide IsTree, Descends, Within, ThroughStorages, SameNames, List, AllLead, NamesPath;
    TreeDescends(c, t, par, rank);
    var ls := ListDir(c, t, true, true, rank).value;
    ListLeads(c, t, [], 0, true, true, par, rank, |rank|);
    assert ([] + [c.Name(0)])[1..] == [];
    forall i | 0 <= i < |ls| && SameNames(c, q, ls[i].path) ensures ThroughStorages(c, t, 0, q) {
      LeadsAtTop(c, t, ls, i, q);
    }
    if ThroughStorages(c, t, 0, q) {
      FoundIsListed(c, t, [], 0, q, par, rank, |rank|);
      NamedAtTop(c, ls, q);
    }
  }

  lemma LeadsAtTop(c: Context, t: Dir, ls: seq<Listed>, i: nat, q: Path)
    requires AllLead(c, t, 0, [], ls) && i < |ls| && SameNames(c, q, ls[i].path)
    ensures ThroughStorages(c, t, 0, q)
  {
    hide SameNames, ThroughStorages, FindFrom;
    assert LeadsFrom(c, t, 0, [], ls[i]);
    assert ls[i].path[0..] == ls[i].path;
  }

  lemma NamedAtTop(c: Context, ls: seq<Listed>, q: Path)
    requires NamesPath(c, ls, [], q)
    ensures IsListed(c, ls, q)
  {
    hide SameNames;
    var i :| 0 <= i < |ls| && SameNames(c, q, ls[i].path[0..]);
    assert ls[i].path[0..] == ls[i].path;
  }

  // ----- Exactly when listing fails

  ghost predicate OddIsRaised(c: Context) {
    NeitherStreamNorStorage.Severity().RaisedAt(c.level)
  }

  /** Listing fails exactly if there is an odd entry to list and the level raises this defect. */
  ghost predicate FailsOnOdd(c: Context, r: Result<seq<Listed>, DirError>, odd: seq<DirError>) {
    && (r.Err? <==> OddIsRaised(c) && odd != [])
    && (r.Err? ==> r.error == NeitherStreamNorStorage)
  }

  lemma {:induction false} ListFails(c: Context, t: Dir, prefix: Path, node: nat, streams: bool, storages: bool,
                                     rank: map<nat, nat>, height: nat)
    requires Descends(c, t, rank) && Within(t, rank, node, height)
    ensures FailsOnOdd(c, List(c, t, prefix, node, streams, storages, rank, height), OddBelow(c, t, node, rank, height))
    decreases height, 0
  {
    hide Descends, Within, Below, ListKids, OddKids, FailsOnOdd;
    KidsBelow(c, t, rank, node, height);
    ListKidsFail(c, t, prefix + [c.Name(node)], t.Get(node).kids, streams, storages, rank, height - 1);
  }

  lemma {:induction false} ListKidsFail(c: Context, t: Dir, prefix: Path, kids: seq<nat>, streams: bool,
                                        storages: bool, rank: map<nat, nat>, height: nat)
    requires Descends(c, t, rank) && Below(t, rank, kids, height) && prefix != []
    ensures FailsOnOdd(c, ListKids(c, t, prefix, kids, streams, storages, rank, height),
                       OddKids(c, t, kids, rank, height))
    decreases height, 2, |kids|
  {
    hide Descends, Within, Below, ListKid, OddKid, OddIsRaised;
    if kids != [] {
      BelowTail(t, rank, kids, height);
      ListKidFails(c, t, prefix, kids[0], streams, storages, rank, height);
      ListKidsFail(c, t, prefix, kids[1..], streams, storages, rank, height);
    }
  }

  lemma {:induction false} ListKidFails(c: Context, t: Dir, prefix: Path, kid: nat, streams: bool, storages: bool,
                                        rank: map<nat, nat>, height: nat)
    requires Descends(c, t, rank) && Within(t, rank, kid, height) && prefix != []
    ensures FailsOnOdd(c, ListKid(c, t, prefix, kid, streams, storages, rank, height),
                       OddKid(c, t, kid, rank, height))
    decreases height, 1, 0
  {
    WithinLoads(t, rank, kid, height);
    hide Descends, Within, List, OddBelow;
    if t.Get(kid).raw.entryType == STGTY_STORAGE {
      ListFails(c, t, prefix, kid, streams, storages, rank, height);
    }
  }
}
