/** Strict loading leaves a tree: every entry in one place, names unique and sorted. */
module DirectoryProofs {
  import opened Common
  import opened DirectoryTree

  // ----- Sorting

  lemma {:induction false} InsertPermutes(c: Context, sid: nat, s: seq<nat>)
    ensures multiset(InsertByName(c, sid, s)) == multiset(s) + multiset{sid}
  {
    if s != [] && !NameLess(c.Name(sid), c.Name(s[0])) {
      InsertPermutes(c, sid, s[1..]);
      assert s == [s[0]] + s[1..];
    }
  }

  lemma {:induction false} SortPermutes(c: Context, s: seq<nat>)
    ensures multiset(SortByName(c, s)) == multiset(s)
    decreases |s|
  {
    hide InsertByName;
    if s != [] {
      var n := |s| - 1;
      SortPermutes(c, s[..n]);
      InsertPermutes(c, s[n], SortByName(c, s[..n]));
      assert s == s[..n] + [s[n]];
      assert multiset(s) == multiset(s[..n]) + multiset{s[n]};
    }
  }

  lemma {:induction false} NameLessTotal(a: string, b: string)
    ensures NameLess(a, b) || NameLess(b, a) || a == b
    ensures !(NameLess(a, b) && NameLess(b, a))
  {
    if a != [] && b != [] && a[0] == b[0] {
      NameLessTotal(a[1..], b[1..]);
      assert a == [a[0]] + a[1..] && b == [b[0]] + b[1..];
    }
  }

  lemma {:induction false} NameLessTransitive(a: string, b: string, c: string)
    requires NameLess(a, b) && NameLess(b, c)
    ensures NameLess(a, c)
  {
    if a != [] && a[0] == b[0] == c[0] {
      NameLessTransitive(a[1..], b[1..], c[1..]);
    }
  }

  /** No entry is followed by one with a smaller name. */
  ghost predicate SortedByName(c: Context, s: seq<nat>) {
    forall i, j :: 0 <= i < j < |s| ==> !NameLess(c.Name(s[j]), c.Name(s[i]))
  }

  lemma NotLessTransitive(a: string, b: string, c: string)
    requires !NameLess(b, a) && !NameLess(c, b)
    ensures !NameLess(c, a)
  {
    NameLessTotal(a, b);
    NameLessTotal(b, c);
    NameLessTotal(a, c);
    if NameLess(a, b) && NameLess(b, c) { NameLessTransitive(a, b, c); }
  }

  lemma {:induction false} InsertSorts(c: Context, sid: nat, s: seq<nat>)
    requires SortedByName(c, s)
    ensures SortedByName(c, InsertByName(c, sid, s))
  {
    var r := InsertByName(c, sid, s);
    if s == [] {
    } else if NameLess(c.Name(sid), c.Name(s[0])) {
      NameLessTotal(c.Name(sid), c.Name(s[0]));
      forall j | 0 <= j < |s| ensures !NameLess(c.Name(s[j]), c.Name(sid)) {
        if j > 0 { NotLessTransitive(c.Name(sid), c.Name(s[0]), c.Name(s[j])); }
      }
      SortedCons(c, sid, s);
    } else {
      forall i, j | 0 <= i < j < |s[1..]| ensures !NameLess(c.Name(s[1..][j]), c.Name(s[1..][i])) {
        assert s[1..][j] == s[j + 1] && s[1..][i] == s[i + 1];
      }
      InsertSorts(c, sid, s[1..]);
      var t := InsertByName(c, sid, s[1..]);
      InsertPermutes(c, sid, s[1..]);
      forall j | 0 <= j < |t| ensures !NameLess(c.Name(t[j]), c.Name(s[0])) {
        assert t[j] in multiset(t);
        if t[j] != sid {
          assert t[j] in multiset(s[1..]);
          var k :| 0 <= k < |s[1..]| && s[1..][k] == t[j];
          assert s[k + 1] == t[j];
        }
      }
      SortedCons(c, s[0], t);
    }
  }

  lemma SortedCons(c: Context, sid: nat, s: seq<nat>)
    requires SortedByName(c, s)
    requires forall j :: 0 <= j < |s| ==> !NameLess(c.Name(s[j]), c.Name(sid))
    ensures SortedByName(c, [sid] + s)
  {
  }

  lemma {:induction false} SortSorts(c: Context, s: seq<nat>)
    ensures SortedByName(c, SortByName(c, s))
    decreases |s|
  {
    if s != [] {
      var n := |s| - 1;
      SortSorts(c, s[..n]);
      InsertSorts(c, s[n], SortByName(c, s[..n]));
    }
  }

  // ----- The invariant of loading

  /** `par` gives each listed entry its storage and `rank` the order of loading;
      entries in `pending` are loaded but not listed anywhere. */
  ghost predicate Places(d: Dir, pending: set<nat>, par: map<nat, nat>, rank: map<nat, nat>) {
    && (forall s: nat :: s in par <==> d.Loaded(s) && s !in pending)
    && (forall s: nat :: s in rank <==> d.Loaded(s))
    && (forall s: nat :: s in pending ==> d.Loaded(s))
    && (forall s: nat :: s in par ==> d.Loaded(par[s]) && rank[par[s]] < rank[s])
    && (forall s: nat :: s in rank ==> rank[s] < |rank|)
  }

  /** The children of `p` are the entries placed there, each once. */
  ghost predicate ListedOnce(d: Dir, par: map<nat, nat>, p: nat)
    requires d.Loaded(p)
  {
    forall s: nat :: multiset(d.Get(p).kids)[s] == if s in par && par[s] == p then 1 else 0
  }

  /** The name index of a storage is exactly its list of children. */
  ghost predicate Indexed(c: Context, d: Dir, p: nat)
    requires d.Loaded(p)
  {
    var e := d.Get(p);
    && (forall s :: s in e.kids ==>
          d.Loaded(s) && c.lower(c.Name(s)) in e.kidsDict && e.kidsDict[c.lower(c.Name(s))] == s)
    && (forall k :: k in e.kidsDict ==> e.kidsDict[k] in e.kids)
  }

  ghost predicate Sound(c: Context, d: Dir, par: map<nat, nat>, p: nat)
    requires Fits(c, d) && d.Loaded(p)
  {
    && ListedOnce(d, par, p)
    && Indexed(c, d, p)
    && (d.Get(p).used <==> p in par)
    && d.Get(p).raw == c.records[p]
  }

  ghost predicate TreeInv(c: Context, d: Dir, pending: set<nat>, par: map<nat, nat>, rank: map<nat, nat>) {
    && Fits(c, d)
    && Places(d, pending, par, rank)
    && forall p: nat :: d.Loaded(p) ==> Sound(c, d, par, p)
  }

  /** Only `parent` among the entries of `d` may change, and what is new is sorted. */
  ghost predicate Frame(c: Context, d: Dir, d': Dir, parent: nat) {
    && Grows(d, d')
    && (forall s: nat :: d.Loaded(s) && s != parent ==> d'.Get(s) == d.Get(s))
    && (forall s: nat :: d'.Loaded(s) && !d.Loaded(s) ==> SortedByName(c, d'.Get(s).kids))
  }

  ghost predicate Extends(rank: map<nat, nat>, rank': map<nat, nat>) {
    forall s: nat :: s in rank ==> s in rank' && rank'[s] == rank[s]
  }

  /** The index of an entry depends only on the entry and the names of its children. */
  lemma IndexedKept(c: Context, d: Dir, d': Dir, p: nat)
    requires Grows(d, d') && d.Loaded(p) && Indexed(c, d, p)
    requires multiset(d'.Get(p).kids) == multiset(d.Get(p).kids) && d'.Get(p).kidsDict == d.Get(p).kidsDict
    ensures Indexed(c, d', p)
  {
    var a, b := d.Get(p).kids, d'.Get(p).kids;
    forall s: nat ensures s in b <==> s in a {
      assert s in multiset(b) <==> s in multiset(a);
    }
  }

  lemma SoundKept(c: Context, d: Dir, d': Dir, par: map<nat, nat>, par': map<nat, nat>, p: nat)
    requires Fits(c, d) && Grows(d, d') && d.Loaded(p) && Sound(c, d, par, p)
    requires multiset(d'.Get(p).kids) == multiset(d.Get(p).kids) && d'.Get(p).kidsDict == d.Get(p).kidsDict
    requires d'.Get(p).used <==> p in par'
    requires forall s: nat :: s in par' && par'[s] == p <==> s in par && par[s] == p
    ensures Sound(c, d', par', p)
  {
    IndexedKept(c, d, d', p);
    hide Indexed;
  }

  lemma PlacesKept(d: Dir, d': Dir, pending: set<nat>, par: map<nat, nat>, rank: map<nat, nat>)
    requires Places(d, pending, par, rank)
    requires forall s: nat :: d'.Loaded(s) <==> d.Loaded(s)
    ensures Places(d', pending, par, rank)
  {
  }

  lemma LoadPlaces(d: Dir, d': Dir, sid: nat, pending: set<nat>, par: map<nat, nat>, rank: map<nat, nat>)
    requires Places(d, pending, par, rank) && !d.Loaded(sid)
    requires forall s: nat :: d'.Loaded(s) <==> d.Loaded(s) || s == sid
    ensures Places(d', pending + {sid}, par, rank[sid := |rank|])
  {
    assert |rank[sid := |rank|]| == |rank| + 1;
  }

  lemma AdoptPlaces(
    d: Dir, d': Dir, parent: nat, sid: nat, pending: set<nat>, par: map<nat, nat>, rank: map<nat, nat>)
    requires Places(d, pending + {sid}, par, rank) && sid !in pending
    requires d.Loaded(parent) && d.Loaded(sid) && rank[parent] < rank[sid]
    requires forall s: nat :: d'.Loaded(s) <==> d.Loaded(s)
    ensures Places(d', pending, par[sid := parent], rank)
  {
  }

  /** A step that changes the children of `sid` only keeps every other entry sound. */
  lemma OthersSound(c: Context, d: Dir, d': Dir, sid: nat, par: map<nat, nat>)
    requires Fits(c, d) && Grows(d, d')
    requires forall p: nat :: d.Loaded(p) ==> Sound(c, d, par, p)
    requires forall p: nat :: d.Loaded(p) && p != sid ==> d'.Get(p) == d.Get(p)
    ensures forall p: nat :: d.Loaded(p) && p != sid ==> Sound(c, d', par, p)
  {
    UsedMeansPlaced(c, d, par);
    hide Sound;
    forall p: nat | d.Loaded(p) && p != sid ensures Sound(c, d', par, p) {
      SoundKept(c, d, d', par, par, p);
    }
  }

  lemma OthersSoundAfterAdopt(c: Context, d: Dir, d': Dir, parent: nat, sid: nat, par: map<nat, nat>)
    requires Fits(c, d) && d.Loaded(parent) && d.Loaded(sid) && parent != sid && sid !in par
    requires Adopted(c, d, d', parent, sid)
    requires forall p: nat :: d.Loaded(p) ==> Sound(c, d, par, p)
    ensures forall p: nat :: d.Loaded(p) && p != parent ==> Sound(c, d', par[sid := parent], p)
  {
    UsedMeansPlaced(c, d, par);
    hide Sound;
    forall p: nat | d.Loaded(p) && p != parent ensures Sound(c, d', par[sid := parent], p) {
      SoundKept(c, d, d', par, par[sid := parent], p);
    }
  }

  /** `d'` is `d` with the record of `sid` freshly loaded. */
  ghost predicate FreshlyLoaded(c: Context, d: Dir, d': Dir, sid: nat)
    requires Fits(c, d)
  {
    && Grows(d, d') && !d.Loaded(sid) && d'.Loaded(sid)
    && d'.Get(sid) == Entry(c.records[sid], [], map[], false)
    && forall s: nat :: s != sid ==> (d'.Loaded(s) <==> d.Loaded(s)) && (d.Loaded(s) ==> d'.Get(s) == d.Get(s))
  }

  lemma LoadKeepsTree(
    c: Context, d: Dir, d': Dir, sid: nat, pending: set<nat>, par: map<nat, nat>, rank: map<nat, nat>)
    requires TreeInv(c, d, pending, par, rank) && FreshlyLoaded(c, d, d', sid)
    ensures TreeInv(c, d', pending + {sid}, par, rank[sid := |rank|])
  {
    NotAParent(d, sid, pending, par, rank);
    FreshSound(c, d', par, sid);
    LoadPlaces(d, d', sid, pending, par, rank);
    hide Sound, Places;
    OthersSound(c, d, d', sid, par);
  }

  lemma NotAParent(d: Dir, sid: nat, pending: set<nat>, par: map<nat, nat>, rank: map<nat, nat>)
    requires Places(d, pending, par, rank) && !d.Loaded(sid)
    ensures sid !in par && forall s: nat :: s in par ==> par[s] != sid
  {
  }

  lemma UsedMeansPlaced(c: Context, d: Dir, par: map<nat, nat>)
    requires Fits(c, d) && forall p: nat :: d.Loaded(p) ==> Sound(c, d, par, p)
    ensures forall p: nat :: d.Loaded(p) ==> (d.Get(p).used <==> p in par)
  {
    hide Indexed, ListedOnce;
  }

  lemma FreshSound(c: Context, d: Dir, par: map<nat, nat>, sid: nat)
    requires Fits(c, d) && d.Loaded(sid) && d.Get(sid) == Entry(c.records[sid], [], map[], false)
    requires sid !in par && forall s: nat :: s in par ==> par[s] != sid
    ensures Sound(c, d, par, sid)
  {
  }

  lemma LoadResult(c: Context, d: Dir, sid: nat)
    requires Fits(c, d) && c.Strict() && Load(c, d, sid).Ok?
    ensures FreshlyLoaded(c, d, Load(c, d, sid).value, sid)
  {
    RecordKeepsEntries(c, d, sid, c.records[sid]);
    hide CheckRecord;
  }

  /** `d'` is `d` with `sid` listed under `parent`. */
  ghost predicate Adopted(c: Context, d: Dir, d': Dir, parent: nat, sid: nat)
    requires d.Loaded(parent) && d.Loaded(sid)
  {
    var key := c.lower(c.Name(sid));
    && Grows(d, d')
    && key !in d.Get(parent).kidsDict
    && d'.Get(parent) == d.Get(parent).(kids := d.Get(parent).kids + [sid],
                                        kidsDict := d.Get(parent).kidsDict[key := sid])
    && d'.Get(sid) == d.Get(sid).(used := true)
    && forall s: nat :: && (d'.Loaded(s) <==> d.Loaded(s))
                        && (d.Loaded(s) && s != parent && s != sid ==> d'.Get(s) == d.Get(s))
  }

  lemma AdoptResult(c: Context, d: Dir, parent: nat, sid: nat)
    requires c.Strict() && d.Loaded(parent) && d.Loaded(sid) && parent != sid && Adopt(c, d, parent, sid).Ok?
    ensures Adopted(c, d, Adopt(c, d, parent, sid).value, parent, sid)
  {
  }

  lemma AdoptIndexed(c: Context, d: Dir, d': Dir, parent: nat, sid: nat)
    requires d.Loaded(parent) && d.Loaded(sid) && parent != sid && Indexed(c, d, parent)
    requires Adopted(c, d, d', parent, sid)
    ensures Indexed(c, d', parent)
  {
    var e, e1 := d.Get(parent), d'.Get(parent);
    var key := c.lower(c.Name(sid));
    forall s | s in e1.kids
      ensures d'.Loaded(s) && c.lower(c.Name(s)) in e1.kidsDict && e1.kidsDict[c.lower(c.Name(s))] == s
    {
      assert s in e.kids || s == sid;
    }
    forall k | k in e1.kidsDict ensures e1.kidsDict[k] in e1.kids {
      if k != key { assert e.kidsDict[k] in e.kids; }
    }
  }

  lemma AdoptListed(d: Dir, d': Dir, par: map<nat, nat>, parent: nat, sid: nat)
    requires d.Loaded(parent) && d'.Loaded(parent) && ListedOnce(d, par, parent) && sid !in par
    requires d'.Get(parent).kids == d.Get(parent).kids + [sid]
    ensures ListedOnce(d', par[sid := parent], parent)
  {
  }

  lemma AdoptParentSound(c: Context, d: Dir, d': Dir, par: map<nat, nat>, parent: nat, sid: nat)
    requires Fits(c, d) && d.Loaded(parent) && d.Loaded(sid) && parent != sid && sid !in par
    requires Sound(c, d, par, parent) && Adopted(c, d, d', parent, sid)
    ensures Sound(c, d', par[sid := parent], parent)
  {
    AdoptIndexed(c, d, d', parent, sid);
    AdoptListed(d, d', par, parent, sid);
    hide Indexed, ListedOnce;
  }

  lemma AdoptKeepsTree(
    c: Context, d: Dir, d': Dir, parent: nat, sid: nat, pending: set<nat>, par: map<nat, nat>, rank: map<nat, nat>)
    requires TreeInv(c, d, pending + {sid}, par, rank) && sid !in pending
    requires d.Loaded(parent) && d.Loaded(sid) && parent != sid && rank[parent] < rank[sid]
    requires Adopted(c, d, d', parent, sid)
    ensures TreeInv(c, d', pending, par[sid := parent], rank)
  {
    hide Sound;
    AdoptPlaces(d, d', parent, sid, pending, par, rank);
    assert sid !in par;
    hide Places;
    AdoptParentSound(c, d, d', par, parent, sid);
    OthersSoundAfterAdopt(c, d, d', parent, sid, par);
    forall p: nat | d'.Loaded(p) ensures Sound(c, d', par[sid := parent], p) {
      assert d.Loaded(p);
    }
  }

  /** A pending entry is not used yet, so listing it cannot find it "referenced more than once". */
  lemma AdoptNeverTwice(
    c: Context, d: Dir, parent: nat, sid: nat, pending: set<nat>, par: map<nat, nat>, rank: map<nat, nat>)
    requires TreeInv(c, d, pending, par, rank) && sid in pending
    requires d.Loaded(parent) && d.Loaded(sid) && parent != sid
    ensures Adopt(c, d, parent, sid) != Err(EntryReferencedTwice)
  {
    hide *;
    PendingUnused(c, d, sid, pending, par, rank);
    AdoptUnused(c, d, parent, sid);
  }

  lemma AdoptUnused(c: Context, d: Dir, parent: nat, sid: nat)
    requires d.Loaded(parent) && d.Loaded(sid) && parent != sid && !d.Get(sid).used
    ensures Adopt(c, d, parent, sid) != Err(EntryReferencedTwice)
  {
    hide Grows, Severity.RaisedAt;
  }

  lemma PendingUnused(c: Context, d: Dir, sid: nat, pending: set<nat>, par: map<nat, nat>, rank: map<nat, nat>)
    requires TreeInv(c, d, pending, par, rank) && sid in pending && d.Loaded(sid)
    ensures !d.Get(sid).used
  {
    assert Sound(c, d, par, sid);
    hide ListedOnce, Indexed;
  }

  /** `d'` is `d` with the children of `sid` sorted. */
  ghost predicate Sorted(c: Context, d: Dir, d': Dir, sid: nat)
    requires d.Loaded(sid)
  {
    && Grows(d, d')
    && (forall s: nat :: d'.Loaded(s) <==> d.Loaded(s))
    && (forall s: nat :: d.Loaded(s) && s != sid ==> d'.Get(s) == d.Get(s))
    && multiset(d'.Get(sid).kids) == multiset(d.Get(sid).kids)
    && d'.Get(sid).kidsDict == d.Get(sid).kidsDict && d'.Get(sid).used == d.Get(sid).used
    && SortedByName(c, d'.Get(sid).kids)
  }

  lemma SortResult(c: Context, d: Dir, sid: nat)
    requires d.Loaded(sid)
    ensures Sorted(c, d, SortKids(c, d, sid), sid)
  {
    var kids := d.Get(sid).kids;
    var d' := SortKids(c, d, sid);
    SortPermutes(c, kids);
    SortSorts(c, kids);
  }

  lemma SortKeepsTree(c: Context, d: Dir, d': Dir, sid: nat, pending: set<nat>, par: map<nat, nat>, rank: map<nat, nat>)
    requires TreeInv(c, d, pending, par, rank) && d.Loaded(sid) && Sorted(c, d, d', sid)
    ensures TreeInv(c, d', pending, par, rank)
  {
    hide SortedByName, Sound, Places;
    PlacesKept(d, d', pending, par, rank);
    UsedMeansPlaced(c, d, par);
    assert Sound(c, d, par, sid);
    SoundKept(c, d, d', par, par, sid);
    OthersSound(c, d, d', sid, par);
    forall p: nat | d'.Loaded(p) ensures Sound(c, d', par, p) {
      assert d.Loaded(p);
    }
  }

  // ----- The invariant over a whole load

  /** What a successful call leaves behind: the invariant, and nothing old touched except `sid`. */
  ghost predicate Progress(c: Context, d: Dir, d': Dir, sid: nat, pending: set<nat>,
                           rank: map<nat, nat>, par': map<nat, nat>, rank': map<nat, nat>) {
    TreeInv(c, d', pending, par', rank') && Frame(c, d, d', sid) && Extends(rank, rank')
  }

  /** What the first half of append_kids changes: `sid` is new and has no children yet, `parent` may have more. */
  ghost predicate LeftFrame(c: Context, d: Dir, d': Dir, parent: nat, sid: nat) {
    && Grows(d, d') && !d.Loaded(sid) && d'.Loaded(sid) && d'.Get(sid).kids == []
    && (forall s: nat :: d.Loaded(s) && s != parent ==> d'.Get(s) == d.Get(s))
    && (forall s: nat :: d'.Loaded(s) && !d.Loaded(s) && s != sid ==> SortedByName(c, d'.Get(s).kids))
  }

  /** What the second half changes: `parent`, and `sid`, whose children are then sorted. */
  ghost predicate RightFrame(c: Context, d: Dir, d': Dir, parent: nat, sid: nat) {
    && Grows(d, d') && d'.Loaded(sid) && SortedByName(c, d'.Get(sid).kids)
    && (forall s: nat :: d.Loaded(s) && s != parent && s != sid ==> d'.Get(s) == d.Get(s))
    && (forall s: nat :: d'.Loaded(s) && !d.Loaded(s) ==> SortedByName(c, d'.Get(s).kids))
  }

  lemma LeftFrameHolds(c: Context, d: Dir, d1: Dir, d2: Dir, d3: Dir, parent: nat, sid: nat)
    requires Fits(c, d) && d.Loaded(parent) && FreshlyLoaded(c, d, d1, sid)
    requires d2.Loaded(parent) && d2.Loaded(sid) && Frame(c, d1, d2, parent) && Adopted(c, d2, d3, parent, sid)
    ensures LeftFrame(c, d, d3, parent, sid)
  {
    hide SortedByName;
  }

  lemma RightFrameHolds(c: Context, d: Dir, d4: Dir, d5: Dir, parent: nat, sid: nat)
    requires d.Loaded(sid) && d4.Loaded(sid) && d5.Loaded(sid)
    requires Frame(c, d, d4, parent) && Frame(c, d4, d5, sid) && SortedByName(c, d5.Get(sid).kids)
    ensures RightFrame(c, d, d5, parent, sid)
  {
    hide SortedByName;
  }

  lemma FrameOfBoth(c: Context, d: Dir, d3: Dir, d5: Dir, parent: nat, sid: nat)
    requires d.Loaded(parent) && LeftFrame(c, d, d3, parent, sid) && RightFrame(c, d3, d5, parent, sid)
    ensures Frame(c, d, d5, parent)
  {
    hide SortedByName;
  }

  lemma FrameOfNothing(c: Context, d: Dir, sid: nat)
    requires d.Loaded(sid) && d.Get(sid).kids == []
    ensures Frame(c, d, d, sid) && SortedByName(c, d.Get(sid).kids)
  {
  }

  lemma GrowsLoaded(c: Context, d: Dir, d': Dir, sid: nat)
    requires Frame(c, d, d', sid) && d.Loaded(sid)
    ensures d'.Loaded(sid)
  {
  }

  lemma FrameOfSort(c: Context, d: Dir, d': Dir, d'': Dir, sid: nat)
    requires Frame(c, d, d', sid) && d.Loaded(sid) && d'.Loaded(sid) && Sorted(c, d', d'', sid)
    ensures Frame(c, d, d'', sid) && SortedByName(c, d''.Get(sid).kids)
  {
    hide SortedByName;
  }

  lemma NoKidsYet(c: Context, d: Dir, d': Dir, parent: nat, sid: nat)
    requires d.Loaded(sid) && parent != sid && Frame(c, d, d', parent) && d.Get(sid).kids == []
    ensures d'.Loaded(sid) && d'.Get(sid).kids == []
  {
    hide SortedByName;
  }

  lemma LeftFrameLoads(c: Context, d: Dir, d': Dir, parent: nat, sid: nat)
    requires d.Loaded(parent) && LeftFrame(c, d, d', parent, sid)
    ensures d'.Loaded(parent) && d'.Loaded(sid) && d'.Get(sid).kids == [] && parent != sid
  {
  }

  lemma TreeParts(c: Context, d: Dir, pending: set<nat>, par: map<nat, nat>, rank: map<nat, nat>)
    requires TreeInv(c, d, pending, par, rank)
    ensures Fits(c, d) && Places(d, pending, par, rank)
  {
  }

  lemma FreshLoads(c: Context, d: Dir, d1: Dir, parent: nat, sid: nat)
    requires Fits(c, d) && d.Loaded(parent) && FreshlyLoaded(c, d, d1, sid)
    ensures Grows(d, d1) && !d.Loaded(sid) && d1.Loaded(parent) && d1.Loaded(sid)
  {
  }

  lemma LoadNeverTwice(c: Context, d: Dir, sid: nat)
    requires Fits(c, d)
    ensures Load(c, d, sid) != Err(EntryReferencedTwice)
  {
    if sid < |c.records| {
      ReportsItsDefects(c, d, RecordDefects(c, sid, c.records[sid]));
    }
  }

  lemma {:induction false} ReportsItsDefects(c: Context, d: Dir, defects: seq<DirError>)
    ensures Report(c, d, defects).Err? ==> Report(c, d, defects).error in defects
    decreases |defects|
  {
    if defects != [] && Raise(c, d, defects[0]).Ok? {
      ReportsItsDefects(c, Raise(c, d, defects[0]).value, defects[1..]);
    }
  }

  lemma RanksAfterLoad(
    d: Dir, d1: Dir, parent: nat, sid: nat, pending: set<nat>, par: map<nat, nat>, rank: map<nat, nat>,
    rank2: map<nat, nat>)
    requires Places(d, pending, par, rank) && d.Loaded(parent) && !d.Loaded(sid)
    requires Extends(rank[sid := |rank|], rank2)
    ensures sid !in pending && parent != sid
    ensures parent in rank2 && sid in rank2 && rank2[parent] < rank2[sid]
    ensures Extends(rank, rank2)
  {
    var rank1 := rank[sid := |rank|];
    assert parent in rank1 && rank1[parent] == rank[parent];
    assert sid in rank1;
  }

  lemma {:induction false} AppendLeftKeepsTree(
    c: Context, d: Dir, parent: nat, sid: nat, depth: nat,
    pending: set<nat>, par: map<nat, nat>, rank: map<nat, nat>)
    returns (par': map<nat, nat>, rank': map<nat, nat>)
    requires c.Strict() && TreeInv(c, d, pending, par, rank) && d.Loaded(parent)
    ensures AppendLeft(c, d, parent, sid, depth) != Err(EntryReferencedTwice)
    ensures AppendLeft(c, d, parent, sid, depth).Ok? ==>
              var d' := AppendLeft(c, d, parent, sid, depth).value;
              TreeInv(c, d', pending, par', rank') && LeftFrame(c, d, d', parent, sid) && Extends(rank, rank')
    decreases depth, 2
  {
    hide Load, Adopt, AppendKids, TreeInv, Places, Frame, LeftFrame, FreshlyLoaded, Adopted, Grows, Extends;
    par', rank' := par, rank;
    TreeParts(c, d, pending, par, rank);
    LoadNeverTwice(c, d, sid);
    if Load(c, d, sid).Err? {
      return;
    }
    var d1 := Load(c, d, sid).value;
    LoadResult(c, d, sid);
    FreshLoads(c, d, d1, parent, sid);
    LoadKeepsTree(c, d, d1, sid, pending, par, rank);
    var pending1, rank1, left := pending + {sid}, rank[sid := |rank|], c.records[sid].left;
    var par2, rank2 := AppendKidsKeepsTree(c, d1, parent, left, depth, pending1, par, rank1);
    if AppendKids(c, d1, parent, left, depth).Err? {
      return;
    }
    var d2 := AppendKids(c, d1, parent, left, depth).value;
    GrowsLoadedSid(d1, d2, parent);
    GrowsLoadedSid(d1, d2, sid);
    RanksAfterLoad(d, d1, parent, sid, pending, par, rank, rank2);
    AdoptNeverTwice(c, d2, parent, sid, pending1, par2, rank2);
    if Adopt(c, d2, parent, sid).Err? {
      return;
    }
    AdoptResult(c, d2, parent, sid);
    AdoptKeepsTree(c, d2, Adopt(c, d2, parent, sid).value, parent, sid, pending, par2, rank2);
    LeftFrameHolds(c, d, d1, d2, Adopt(c, d2, parent, sid).value, parent, sid);
    par', rank' := par2[sid := parent], rank2;
  }

  lemma {:induction false} AppendRightKeepsTree(
    c: Context, d: Dir, parent: nat, sid: nat, depth: nat,
    pending: set<nat>, par: map<nat, nat>, rank: map<nat, nat>)
    returns (par': map<nat, nat>, rank': map<nat, nat>)
    requires c.Strict() && TreeInv(c, d, pending, par, rank)
    requires d.Loaded(parent) && d.Loaded(sid) && parent != sid && d.Get(sid).kids == []
    ensures AppendRight(c, d, parent, sid, depth) != Err(EntryReferencedTwice)
    ensures AppendRight(c, d, parent, sid, depth).Ok? ==>
              var d' := AppendRight(c, d, parent, sid, depth).value;
              TreeInv(c, d', pending, par', rank') && RightFrame(c, d, d', parent, sid) && Extends(rank, rank')
    decreases depth, 2
  {
    hide AppendKids, BuildTree, TreeInv, Places, Frame, RightFrame, Grows, Extends, SortedByName;
    TreeParts(c, d, pending, par, rank);
    var right := c.records[sid].right;
    par', rank' := AppendKidsKeepsTree(c, d, parent, right, depth, pending, par, rank);
    var r := AppendKids(c, d, parent, right, depth);
    if r.Ok? {
      var rank1 := rank';
      NoKidsYet(c, d, r.value, parent, sid);
      par', rank' := BuildTreeKeepsTree(c, r.value, sid, depth, pending, par', rank');
      ExtendsTransitive(rank, rank1, rank');
      var r' := BuildTree(c, r.value, sid, depth);
      if r'.Ok? {
        GrowsLoadedSid(r.value, r'.value, sid);
        RightFrameHolds(c, d, r.value, r'.value, parent, sid);
      }
    }
  }

  lemma ExtendsTransitive(a: map<nat, nat>, b: map<nat, nat>, c: map<nat, nat>)
    ensures Extends(a, b) && Extends(b, c) ==> Extends(a, c)
  {
  }

  /** The invariant over append_kids. */
  lemma {:induction false} AppendKidsKeepsTree(
    c: Context, d: Dir, parent: nat, sid: nat, depth: nat,
    pending: set<nat>, par: map<nat, nat>, rank: map<nat, nat>)
    returns (par': map<nat, nat>, rank': map<nat, nat>)
    requires c.Strict() && TreeInv(c, d, pending, par, rank) && d.Loaded(parent)
    ensures AppendKids(c, d, parent, sid, depth) != Err(EntryReferencedTwice)
    ensures AppendKids(c, d, parent, sid, depth).Ok? ==>
              Progress(c, d, AppendKids(c, d, parent, sid, depth).value, parent, pending, rank, par', rank')
    decreases depth, 1
  {
    hide AppendLeft, AppendRight, TreeInv, Places, Frame, LeftFrame, RightFrame, Grows, Extends;
    par', rank' := par, rank;
    TreeParts(c, d, pending, par, rank);
    NothingYet(c, d, parent, rank);
    if depth > 0 && sid != NOSTREAM {
      par', rank' := AppendLeftKeepsTree(c, d, parent, sid, depth - 1, pending, par, rank);
      var r := AppendLeft(c, d, parent, sid, depth - 1);
      if r.Ok? {
        var rank1 := rank';
        LeftFrameLoads(c, d, r.value, parent, sid);
        par', rank' := AppendRightKeepsTree(c, r.value, parent, sid, depth - 1, pending, par', rank');
        ExtendsTransitive(rank, rank1, rank');
        var r' := AppendRight(c, r.value, parent, sid, depth - 1);
        if r'.Ok? {
          FrameOfBoth(c, d, r.value, r'.value, parent, sid);
        }
      }
    }
  }

  lemma NothingYet(c: Context, d: Dir, sid: nat, rank: map<nat, nat>)
    ensures Frame(c, d, d, sid) && Extends(rank, rank)
  {
  }

  lemma {:induction false} BuildTreeKeepsTree(
    c: Context, d: Dir, sid: nat, depth: nat, pending: set<nat>, par: map<nat, nat>, rank: map<nat, nat>)
    returns (par': map<nat, nat>, rank': map<nat, nat>)
    requires c.Strict() && TreeInv(c, d, pending, par, rank) && d.Loaded(sid) && d.Get(sid).kids == []
    ensures BuildTree(c, d, sid, depth) != Err(EntryReferencedTwice)
    ensures BuildTree(c, d, sid, depth).Ok? ==>
              && Progress(c, d, BuildTree(c, d, sid, depth).value, sid, pending, rank, par', rank')
              && SortedByName(c, BuildTree(c, d, sid, depth).value.Get(sid).kids)
    decreases depth, 1
  {
    hide AppendKids, SortKids, TreeInv, Places, Frame, Grows, Extends, SortedByName;
    par', rank' := par, rank;
    TreeParts(c, d, pending, par, rank);
    NothingYet(c, d, sid, rank);
    FrameOfNothing(c, d, sid);
    if depth > 0 && c.records[sid].child != NOSTREAM {
      par', rank' := AppendKidsKeepsTree(c, d, sid, c.records[sid].child, depth - 1, pending, par, rank);
      var r := AppendKids(c, d, sid, c.records[sid].child, depth - 1);
      if r.Ok? {
        GrowsLoaded(c, d, r.value, sid);
        SortResult(c, r.value, sid);
        FrameOfSort(c, d, r.value, SortKids(c, r.value, sid), sid);
        SortKeepsTree(c, r.value, SortKids(c, r.value, sid), sid, pending, par', rank');
      }
    }
  }

  // ----- What strict loading guarantees

  /** No two children share a name, ignoring case. */
  ghost predicate UniqueNames(c: Context, kids: seq<nat>) {
    forall i, j :: 0 <= i < j < |kids| ==> c.lower(c.Name(kids[i])) != c.lower(c.Name(kids[j]))
  }

  /** The loaded entries form a tree under entry 0: every other one occurs exactly once among all lists of
      children, namely under `par`, and `rank` grows from a storage to its children. */
  ghost predicate IsTree(c: Context, t: Dir, par: map<nat, nat>, rank: map<nat, nat>) {
    && t.Loaded(0)
    && Places(t, {0}, par, rank)
    && forall p: nat :: t.Loaded(p) ==> WellPlaced(c, t, par, p)
  }

  ghost predicate WellPlaced(c: Context, t: Dir, par: map<nat, nat>, p: nat)
    requires t.Loaded(p)
  {
    && ListedOnce(t, par, p)
    && UniqueNames(c, t.Get(p).kids)
    && SortedByName(c, t.Get(p).kids)
    && p < |c.records| && t.Get(p).raw == c.records[p]
  }

  lemma OccursTwice(s: seq<nat>, i: nat, j: nat)
    requires i < j < |s| && s[i] == s[j]
    ensures multiset(s)[s[i]] >= 2
  {
    assert s == s[..i] + [s[i]] + s[i + 1..j] + [s[j]] + s[j + 1..];
  }

  lemma IndexedUnique(c: Context, t: Dir, par: map<nat, nat>, p: nat)
    requires t.Loaded(p) && ListedOnce(t, par, p) && Indexed(c, t, p)
    ensures UniqueNames(c, t.Get(p).kids)
  {
    var kids := t.Get(p).kids;
    forall i, j | 0 <= i < j < |kids| ensures c.lower(c.Name(kids[i])) != c.lower(c.Name(kids[j])) {
      assert kids[i] in kids && kids[j] in kids;
      if kids[i] == kids[j] { OccursTwice(kids, i, j); }
    }
  }

  /** Strict loading of any directory, however its links are tangled, ends with an error or with a tree; the
      "referenced more than once" error is never the reason. */
  lemma StrictLoadYieldsTree(c: Context, d: Dir, depth: nat) returns (par: map<nat, nat>, rank: map<nat, nat>)
    requires Fits(c, d) && c.Strict() && forall s: nat :: !d.Loaded(s)
    ensures LoadDirectory(c, d, depth) != Err(EntryReferencedTwice)
    ensures LoadDirectory(c, d, depth).Ok? ==> IsTree(c, LoadDirectory(c, d, depth).value, par, rank)
  {
    par, rank := map[], map[];
    LoadNeverTwice(c, d, 0);
    if Load(c, d, 0).Ok? {
      LoadResult(c, d, 0);
      var d1 := Load(c, d, 0).value;
      assert TreeInv(c, d, {}, par, rank);
      LoadKeepsTree(c, d, d1, 0, {}, par, rank);
      assert {} + {0} == {0};
      par, rank := BuildTreeKeepsTree(c, d1, 0, depth, {0}, par, rank[0 := |rank|]);
      if BuildTree(c, d1, 0, depth).Ok? {
        TreeAfterBuild(c, d1, BuildTree(c, d1, 0, depth).value, par, rank);
      }
    }
  }

  lemma TreeAfterBuild(c: Context, d: Dir, t: Dir, par: map<nat, nat>, rank: map<nat, nat>)
    requires TreeInv(c, t, {0}, par, rank) && Frame(c, d, t, 0)
    requires forall s: nat :: d.Loaded(s) ==> s == 0
    requires SortedByName(c, t.Get(0).kids)
    ensures IsTree(c, t, par, rank)
  {
    assert t.Loaded(0);
    hide SortedByName, UniqueNames, ListedOnce, Indexed, Places;
    forall p: nat | t.Loaded(p) ensures WellPlaced(c, t, par, p) {
      assert Sound(c, t, par, p);
      IndexedUnique(c, t, par, p);
    }
  }

  function Climb(par: map<nat, nat>, s: nat, steps: nat): nat
    decreases steps
  {
    if steps == 0 || s !in par then s else Climb(par, par[s], steps - 1)
  }

  /** Every loaded entry hangs below the root. */
  lemma {:induction false} ReachesRoot(c: Context, t: Dir, par: map<nat, nat>, rank: map<nat, nat>, s: nat, steps: nat)
    requires IsTree(c, t, par, rank) && t.Loaded(s) && steps >= rank[s]
    ensures Climb(par, s, steps) == 0
    decreases steps
  {
    hide WellPlaced;
    if s in par {
      ReachesRoot(c, t, par, rank, par[s], steps - 1);
    }
  }

  // ----- Heads of sector chains

  /** The loaded FAT streams start at different sectors, none of them in `reserved`. */
  ghost predicate DistinctHeads(c: Context, d: Dir, reserved: set<nat>) {
    && (forall h :: h in reserved ==> h in d.usedFat)
    && (forall s: nat :: d.Loaded(s) && HasHead(c, d.Get(s).raw) ==>
          d.Get(s).raw.start in d.usedFat && d.Get(s).raw.start !in reserved)
    && (forall s: nat, s': nat :: d.Loaded(s) && d.Loaded(s') && s != s'
                                  && HasHead(c, d.Get(s).raw) && HasHead(c, d.Get(s').raw) ==>
          d.Get(s).raw.start != d.Get(s').raw.start)
  }

  ghost predicate HasHead(c: Context, raw: RawEntry) {
    c.OwnsFatStream(raw) && !SpecialSector(raw.start)
  }

  /** The loaded small streams start at different mini sectors. */
  ghost predicate DistinctMiniHeads(c: Context, d: Dir) {
    && (forall s: nat :: d.Loaded(s) && c.OwnsMiniStream(d.Get(s).raw) ==> d.Get(s).raw.start in d.usedMini)
    && (forall s: nat, s': nat :: d.Loaded(s) && d.Loaded(s') && s != s'
                                  && c.OwnsMiniStream(d.Get(s).raw) && c.OwnsMiniStream(d.Get(s').raw) ==>
          d.Get(s).raw.start != d.Get(s').raw.start)
  }

  /** The record has a known type and a short name, and it is the root record exactly if it is entry 0. */
  ghost predicate LegalRecord(raw: RawEntry, sid: nat) {
    && raw.entryType in {STGTY_ROOT, STGTY_STORAGE, STGTY_STREAM, STGTY_EMPTY}
    && (raw.entryType == STGTY_ROOT <==> sid == 0)
    && raw.nameLength <= 64
  }

  ghost predicate LegalRecords(d: Dir) {
    forall s: nat :: d.Loaded(s) ==> LegalRecord(d.Get(s).raw, s)
  }

  ghost predicate Vetted(c: Context, d: Dir, reserved: set<nat>) {
    DistinctHeads(c, d, reserved) && DistinctMiniHeads(c, d) && LegalRecords(d)
  }

  lemma LoadKeepsVetted(c: Context, d: Dir, sid: nat, reserved: set<nat>)
    requires Fits(c, d) && c.Strict() && Load(c, d, sid).Ok? && Vetted(c, d, reserved)
    ensures Vetted(c, Load(c, d, sid).value, reserved)
  {
    LoadResult(c, d, sid);
    LoadRecordsHead(c, d, sid);
    var d' := Load(c, d, sid).value;
    hide Load, FreshlyLoaded, DistinctHeads, DistinctMiniHeads, LegalRecords, LegalRecord, RecordsHead, HasHead;
    FatHeadsKept(c, d, d', sid, reserved);
    MiniHeadsKept(c, d, d', sid);
    LegalKept(c, d, d', sid);
  }

  /** A record that passes is legal, and its head, if it has one, is new and is recorded. */
  lemma LoadRecordsHead(c: Context, d: Dir, sid: nat)
    requires Fits(c, d) && c.Strict() && Load(c, d, sid).Ok?
    ensures LegalRecord(c.records[sid], sid)
    ensures RecordsHead(d.usedFat, Load(c, d, sid).value.usedFat, HasHead(c, c.records[sid]), c.records[sid].start)
    ensures RecordsHead(
              d.usedMini, Load(c, d, sid).value.usedMini, c.OwnsMiniStream(c.records[sid]), c.records[sid].start)
  {
    var defects := RecordDefects(c, sid, c.records[sid]);
    ReportKeepsEntries(c, d, defects);
    LegalWithout(c, sid, c.records[sid]);
    hide Report, RecordDefects, LegalRecord;
  }

  ghost predicate RecordsHead(used: seq<nat>, used': seq<nat>, owns: bool, start: nat) {
    used' == (if owns then used + [start] else used) && (owns ==> start !in used)
  }

  lemma LegalWithout(c: Context, sid: nat, raw: RawEntry)
    requires forall e :: e in RecordDefects(c, sid, raw) ==> e.Severity() == Unsure || e.Severity() == Potential
    ensures LegalRecord(raw, sid)
  {
    hide Context.Size;
    var defects := RecordDefects(c, sid, raw);
    assert UnhandledType !in defects;
    assert DuplicateRoot !in defects;
    assert IncorrectRoot !in defects;
    assert NameTooLong !in defects;
  }

  lemma FatHeadsKept(c: Context, d: Dir, d': Dir, sid: nat, reserved: set<nat>)
    requires Fits(c, d) && FreshlyLoaded(c, d, d', sid) && DistinctHeads(c, d, reserved)
    requires RecordsHead(d.usedFat, d'.usedFat, HasHead(c, c.records[sid]), c.records[sid].start)
    ensures DistinctHeads(c, d', reserved)
  {
    hide HasHead;
  }

  lemma MiniHeadsKept(c: Context, d: Dir, d': Dir, sid: nat)
    requires Fits(c, d) && FreshlyLoaded(c, d, d', sid) && DistinctMiniHeads(c, d)
    requires RecordsHead(d.usedMini, d'.usedMini, c.OwnsMiniStream(c.records[sid]), c.records[sid].start)
    ensures DistinctMiniHeads(c, d')
  {
    hide Context.OwnsMiniStream;
  }

  lemma LegalKept(c: Context, d: Dir, d': Dir, sid: nat)
    requires Fits(c, d) && FreshlyLoaded(c, d, d', sid) && LegalRecords(d) && LegalRecord(c.records[sid], sid)
    ensures LegalRecords(d')
  {
    hide LegalRecord;
  }

  lemma SameRecordsVetted(c: Context, d: Dir, d': Dir, reserved: set<nat>)
    requires Vetted(c, d, reserved) && Grows(d, d') && Grows(d', d)
    requires d'.usedFat == d.usedFat && d'.usedMini == d.usedMini
    ensures Vetted(c, d', reserved)
  {
  }

  lemma {:induction false} AppendLeftKeepsVetted(
    c: Context, d: Dir, parent: nat, sid: nat, depth: nat, reserved: set<nat>)
    requires Fits(c, d) && c.Strict() && d.Loaded(parent) && Vetted(c, d, reserved)
    ensures AppendLeft(c, d, parent, sid, depth).Ok? ==> Vetted(c, AppendLeft(c, d, parent, sid, depth).value, reserved)
    decreases depth, 2
  {
    if AppendLeft(c, d, parent, sid, depth).Ok? {
      hide Vetted, CheckRecord, Adopt;
      LoadKeepsVetted(c, d, sid, reserved);
      var d1 := Load(c, d, sid).value;
      AppendKidsKeepsVetted(c, d1, parent, c.records[sid].left, depth, reserved);
      var d2 := AppendKids(c, d1, parent, c.records[sid].left, depth).value;
      AdoptGrowsBack(c, d2, parent, sid);
      SameRecordsVetted(c, d2, Adopt(c, d2, parent, sid).value, reserved);
    }
  }

  lemma {:induction false} AppendKidsKeepsVetted(
    c: Context, d: Dir, parent: nat, sid: nat, depth: nat, reserved: set<nat>)
    requires Fits(c, d) && c.Strict() && d.Loaded(parent) && Vetted(c, d, reserved)
    ensures AppendKids(c, d, parent, sid, depth).Ok? ==> Vetted(c, AppendKids(c, d, parent, sid, depth).value, reserved)
    decreases depth, 1
  {
    hide Vetted, AppendLeft, AppendRight;
    if depth > 0 && sid != NOSTREAM && AppendLeft(c, d, parent, sid, depth - 1).Ok? {
      AppendLeftKeepsVetted(c, d, parent, sid, depth - 1, reserved);
      GrowsLoadedSid(d, AppendLeft(c, d, parent, sid, depth - 1).value, parent);
      AppendRightKeepsVetted(c, AppendLeft(c, d, parent, sid, depth - 1).value, parent, sid, depth - 1, reserved);
    }
  }

  lemma {:induction false} AppendRightKeepsVetted(
    c: Context, d: Dir, parent: nat, sid: nat, depth: nat, reserved: set<nat>)
    requires Fits(c, d) && c.Strict() && d.Loaded(parent) && d.Loaded(sid) && Vetted(c, d, reserved)
    ensures AppendRight(c, d, parent, sid, depth).Ok? ==>
              Vetted(c, AppendRight(c, d, parent, sid, depth).value, reserved)
    decreases depth, 2
  {
    hide Vetted, AppendKids, BuildTree;
    if AppendKids(c, d, parent, c.records[sid].right, depth).Ok? {
      AppendKidsKeepsVetted(c, d, parent, c.records[sid].right, depth, reserved);
      BuildTreeKeepsVetted(c, AppendKids(c, d, parent, c.records[sid].right, depth).value, sid, depth, reserved);
    }
  }

  lemma AdoptGrowsBack(c: Context, d: Dir, parent: nat, sid: nat)
    requires c.Strict() && d.Loaded(parent) && d.Loaded(sid) && Adopt(c, d, parent, sid).Ok?
    ensures Grows(d, Adopt(c, d, parent, sid).value) && Grows(Adopt(c, d, parent, sid).value, d)
    ensures Adopt(c, d, parent, sid).value.usedFat == d.usedFat && Adopt(c, d, parent, sid).value.usedMini == d.usedMini
  {
  }

  lemma {:induction false} BuildTreeKeepsVetted(c: Context, d: Dir, sid: nat, depth: nat, reserved: set<nat>)
    requires Fits(c, d) && c.Strict() && d.Loaded(sid) && Vetted(c, d, reserved)
    ensures BuildTree(c, d, sid, depth).Ok? ==> Vetted(c, BuildTree(c, d, sid, depth).value, reserved)
    decreases depth, 1
  {
    if c.records[sid].child != NOSTREAM && BuildTree(c, d, sid, depth).Ok? {
      AppendKidsKeepsVetted(c, d, sid, c.records[sid].child, depth - 1, reserved);
      var d1 := AppendKids(c, d, sid, c.records[sid].child, depth - 1).value;
      SameRecordsVetted(c, d1, SortKids(c, d1, sid), reserved);
    }
  }

  /** What the checks of single records add up to, whatever the order in which the records were reached. */
  lemma StrictLoadVetted(c: Context, d: Dir, depth: nat)
    requires Fits(c, d) && c.Strict() && forall s: nat :: !d.Loaded(s)
    ensures LoadDirectory(c, d, depth).Ok? ==> Vetted(c, LoadDirectory(c, d, depth).value, set h: nat | h in d.usedFat)
  {
    if LoadDirectory(c, d, depth).Ok? {
      var reserved := set h: nat | h in d.usedFat;
      LoadKeepsVetted(c, d, 0, reserved);
      BuildTreeKeepsVetted(c, Load(c, d, 0).value, 0, depth, reserved);
    }
  }

  /** After a strict load all FAT streams have different first sectors, which also differ from those of
      the directory, MiniFAT and DIFAT recorded before. */
  lemma StrictLoadDistinctHeads(c: Context, d: Dir, depth: nat)
    requires Fits(c, d) && c.Strict() && forall s: nat :: !d.Loaded(s)
    ensures LoadDirectory(c, d, depth).Ok? ==>
              DistinctHeads(c, LoadDirectory(c, d, depth).value, set h: nat | h in d.usedFat)
  {
    StrictLoadVetted(c, d, depth);
  }
}
