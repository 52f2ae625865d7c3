/** After loading at any level children lie below their storage along links, so that listing and lookup end. */
module DirectoryReach {
  import opened Common
  import opened DirectoryTree
  import opened DirectoryProofs
  import opened DirectoryLookup
  import opened DirectoryLevels

  /** `p` follows links from `s` to `t`. */
  ghost predicate Connects(c: Context, s: nat, t: nat, p: seq<nat>) {
    IsPath(c, p) && p[0] == s && p[|p| - 1] == t
  }

  /** append_kids may visit `t` for the storage `s`. */
  ghost predicate Under(c: Context, s: nat, t: nat) {
    s < |c.records| && exists p: seq<nat> :: Connects(c, c.records[s].child, t, p)
  }

  /** append_kids may visit `s` at all. */
  ghost predicate Visited(c: Context, s: nat) {
    Under(c, 0, s)
  }

  lemma UnderFurther(c: Context, s: nat, t: nat, u: nat)
    requires Under(c, s, t) && Linked(c, t, u) && u < |c.records| && u != NOSTREAM
    ensures Under(c, s, u)
  {
    var p: seq<nat> :| Connects(c, c.records[s].child, t, p);
    var q := p + [u];
    forall i | 0 <= i < |q| - 1 ensures Linked(c, q[i], q[i + 1]) {
      if i < |p| - 1 {
        assert Linked(c, p[i], p[i + 1]);
      }
    }
    assert Connects(c, c.records[s].child, u, q);
  }

  lemma UnderFirst(c: Context, s: nat)
    requires s < |c.records| && c.records[s].child < |c.records| && c.records[s].child != NOSTREAM
    ensures Under(c, s, c.records[s].child)
  {
    assert Connects(c, c.records[s].child, c.records[s].child, [c.records[s].child]);
  }

  // ----- The invariant

  ghost predicate KidOf(c: Context, d: Dir, p: nat, k: nat) {
    d.Loaded(k) && Visited(c, k) && Under(c, p, k)
  }

  ghost predicate EntryReached(c: Context, d: Dir, p: nat)
    requires d.Loaded(p)
  {
    && p < |c.records| && d.Get(p).raw == c.records[p] && (p == 0 || Visited(c, p))
    && forall k :: k in d.Get(p).kids ==> KidOf(c, d, p, k)
  }

  ghost predicate Reached(c: Context, d: Dir) {
    Fits(c, d) && forall p: nat :: d.Loaded(p) ==> EntryReached(c, d, p)
  }

  /** `sid` is where the links of the storage `parent` have led so far, unless it is no entry. */
  ghost predicate Leads(c: Context, parent: nat, sid: nat) {
    sid < |c.records| && sid != NOSTREAM ==> Visited(c, sid) && Under(c, parent, sid)
  }

  lemma LeadsFurther(c: Context, parent: nat, sid: nat, next: nat)
    requires sid < |c.records| && sid != NOSTREAM && Leads(c, parent, sid) && Linked(c, sid, next)
    ensures Leads(c, parent, next)
  {
    hide Under;
    if next < |c.records| && next != NOSTREAM {
      UnderFurther(c, parent, sid, next);
      UnderFurther(c, 0, sid, next);
    }
  }

  lemma LeadsDown(c: Context, sid: nat)
    requires sid < |c.records| && (sid == 0 || (sid != NOSTREAM && Visited(c, sid)))
    ensures Leads(c, sid, c.records[sid].child)
  {
    hide Under;
    var next := c.records[sid].child;
    if next < |c.records| && next != NOSTREAM {
      UnderFirst(c, sid);
      if sid != 0 { UnderFurther(c, 0, sid, next); }
    }
  }

  /** An entry stays reached when its record stays and it gets no new children but those given. */
  lemma EntryKept(c: Context, d: Dir, d': Dir, p: nat)
    requires Grows(d, d') && d.Loaded(p) && EntryReached(c, d, p)
    requires forall k :: k in d'.Get(p).kids ==> k in d.Get(p).kids || KidOf(c, d, p, k)
    ensures EntryReached(c, d', p)
  {
    hide Visited, Under;
  }

  lemma LoadReached(c: Context, d: Dir, sid: nat)
    requires Reached(c, d) && Load(c, d, sid).Ok? && (sid == 0 || Visited(c, sid))
    ensures Reached(c, Load(c, d, sid).value)
  {
    hide Visited, Under, CheckRecord, EntryReached;
    RecordKeepsEntries(c, d, sid, c.records[sid]);
    var d' := Load(c, d, sid).value;
    forall p: nat | d'.Loaded(p) ensures EntryReached(c, d', p) {
      if d.Loaded(p) {
        EntryKept(c, d, d', p);
      } else {
        FreshReached(c, d', p);
      }
    }
  }

  lemma FreshReached(c: Context, d: Dir, p: nat)
    requires d.Loaded(p) && p < |c.records| && d.Get(p).raw == c.records[p] && d.Get(p).kids == []
    requires p == 0 || Visited(c, p)
    ensures EntryReached(c, d, p)
  {
  }

  lemma AdoptReached(c: Context, d: Dir, parent: nat, sid: nat)
    requires Reached(c, d) && d.Loaded(parent) && d.Loaded(sid) && Visited(c, sid) && Under(c, parent, sid)
    requires Adopt(c, d, parent, sid).Ok?
    ensures Reached(c, Adopt(c, d, parent, sid).value)
  {
    hide Visited, Under, EntryReached;
    var d' := Adopt(c, d, parent, sid).value;
    forall p: nat | d'.Loaded(p) ensures EntryReached(c, d', p) {
      assert d.Loaded(p);
      EntryKept(c, d, d', p);
    }
  }

  lemma SortReached(c: Context, d: Dir, sid: nat)
    requires Reached(c, d) && d.Loaded(sid)
    ensures Reached(c, SortKids(c, d, sid))
  {
    hide Visited, Under, EntryReached;
    var d' := SortKids(c, d, sid);
    SortPermutes(c, d.Get(sid).kids);
    forall p: nat | d'.Loaded(p) ensures EntryReached(c, d', p) {
      forall k | k in d'.Get(p).kids ensures k in d.Get(p).kids {
        if p == sid { assert k in multiset(d'.Get(p).kids); }
      }
      EntryKept(c, d, d', p);
    }
  }

  // ----- The invariant over a whole load

  lemma {:induction false} AppendLeftReached(c: Context, d: Dir, parent: nat, sid: nat, depth: nat)
    requires Reached(c, d) && d.Loaded(parent) && Leads(c, parent, sid) && sid != NOSTREAM
    ensures AppendLeft(c, d, parent, sid, depth).Ok? ==> Reached(c, AppendLeft(c, d, parent, sid, depth).value)
    decreases depth, 2
  {
    if AppendLeft(c, d, parent, sid, depth).Ok? {
      hide Reached, Load, Adopt, AppendKids, Under, Visited;
      ReachedFits(c, d);
      LoadInRange(c, d, sid);
      LoadReached(c, d, sid);
      var d1 := Load(c, d, sid).value;
      LeadsFurther(c, parent, sid, c.records[sid].left);
      AppendKidsReached(c, d1, parent, c.records[sid].left, depth);
      AdoptReached(c, AppendKids(c, d1, parent, c.records[sid].left, depth).value, parent, sid);
    }
  }

  lemma ReachedFits(c: Context, d: Dir)
    requires Reached(c, d)
    ensures Fits(c, d)
  {
  }

  lemma LoadInRange(c: Context, d: Dir, sid: nat)
    requires Fits(c, d) && Load(c, d, sid).Ok?
    ensures sid < |c.records|
  {
  }

  lemma LoadedReached(c: Context, d: Dir, sid: nat)
    requires Reached(c, d) && d.Loaded(sid)
    ensures sid < |c.records| && (sid == 0 || Visited(c, sid))
  {
  }

  lemma {:induction false} AppendRightReached(c: Context, d: Dir, parent: nat, sid: nat, depth: nat)
    requires Reached(c, d) && d.Loaded(parent) && d.Loaded(sid) && Leads(c, parent, sid) && sid != NOSTREAM
    ensures AppendRight(c, d, parent, sid, depth).Ok? ==> Reached(c, AppendRight(c, d, parent, sid, depth).value)
    decreases depth, 2
  {
    ReachedFits(c, d);
    hide Reached, AppendKids, BuildTree, Under, Visited;
    LeadsFurther(c, parent, sid, c.records[sid].right);
    AppendKidsReached(c, d, parent, c.records[sid].right, depth);
    var r1 := AppendKids(c, d, parent, c.records[sid].right, depth);
    if r1.Ok? {
      BuildTreeReached(c, r1.value, sid, depth);
    }
  }

  lemma {:induction false} AppendKidsReached(c: Context, d: Dir, parent: nat, sid: nat, depth: nat)
    requires Reached(c, d) && d.Loaded(parent) && Leads(c, parent, sid)
    ensures AppendKids(c, d, parent, sid, depth).Ok? ==> Reached(c, AppendKids(c, d, parent, sid, depth).value)
    decreases depth, 1
  {
    hide Reached, AppendLeft, AppendRight, Leads, Grows;
    ReachedFits(c, d);
    if depth > 0 && sid != NOSTREAM {
      AppendLeftReached(c, d, parent, sid, depth - 1);
      var r1 := AppendLeft(c, d, parent, sid, depth - 1);
      if r1.Ok? {
        GrowsLoadedSid(d, r1.value, parent);
        AppendRightReached(c, r1.value, parent, sid, depth - 1);
      }
    }
  }

  lemma {:induction false} BuildTreeReached(c: Context, d: Dir, sid: nat, depth: nat)
    requires Reached(c, d) && d.Loaded(sid) && sid != NOSTREAM
    ensures BuildTree(c, d, sid, depth).Ok? ==> Reached(c, BuildTree(c, d, sid, depth).value)
    decreases depth, 1
  {
    ReachedFits(c, d);
    LoadedReached(c, d, sid);
    LeadsDown(c, sid);
    hide Reached, AppendKids, SortKids, Leads, Visited;
    if depth > 0 && c.records[sid].child != NOSTREAM {
      AppendKidsReached(c, d, sid, c.records[sid].child, depth - 1);
      var r1 := AppendKids(c, d, sid, c.records[sid].child, depth - 1);
      if r1.Ok? {
        SortReached(c, r1.value, sid);
      }
    }
  }

  /** After loading, every entry hangs below the root, and children lie where the links of their storage lead. */
  lemma LoadReachedAll(c: Context, d: Dir, depth: nat)
    requires Fits(c, d) && forall s: nat :: !d.Loaded(s)
    ensures LoadDirectory(c, d, depth).Ok? ==>
              Reached(c, LoadDirectory(c, d, depth).value) && LoadDirectory(c, d, depth).value.Loaded(0)
  {
    assert Reached(c, d);
    hide Reached, Load, BuildTree, EntryReached;
    if Load(c, d, 0).Ok? {
      LoadReached(c, d, 0);
      BuildTreeReached(c, Load(c, d, 0).value, 0, depth);
    }
  }

  // ----- Listing and lookup end

  /** The fewest nested calls in which append_kids comes back from `s`. */
  ghost function Least(c: Context, s: nat, depth: nat): (k: nat)
    requires Ends(c, s, depth)
    ensures 0 < k <= depth && Ends(c, s, k) && forall j: nat :: j < k ==> !Ends(c, s, j)
  {
    if depth > 0 && Ends(c, s, depth - 1) then Least(c, s, depth - 1)
    else
      assert forall j: nat :: j < depth ==> !Ends(c, s, j) by {
        forall j: nat | j < depth ensures !Ends(c, s, j) {
          if Ends(c, s, j) { EndsDeeper(c, s, j, depth - 1); }
        }
      }
      depth
  }

  /** Entries that come back later rank lower; the root ranks lowest. */
  ghost function RankOf(c: Context, depth: nat, s: nat): nat {
    if s != 0 && Ends(c, s, depth) then depth + 1 - Least(c, s, depth) else 0
  }

  ghost function Ranks(c: Context, depth: nat): map<nat, nat> {
    map s | s in FirstNats(|c.records| + depth + 1) :: RankOf(c, depth, s)
  }

  lemma RanksSize(c: Context, depth: nat)
    ensures |Ranks(c, depth)| == |c.records| + depth + 1
  {
    assert Ranks(c, depth).Keys == FirstNats(|c.records| + depth + 1);
  }

  /** A storage other than the root ranks below what its links lead to. */
  lemma RankGrows(c: Context, depth: nat, s: nat, t: nat)
    requires s != 0 && s != NOSTREAM && t != 0 && Ends(c, s, depth) && Under(c, s, t)
    ensures Ends(c, t, depth) && RankOf(c, depth, s) < RankOf(c, depth, t)
  {
    var p: seq<nat> :| Connects(c, c.records[s].child, t, p);
    var k := Least(c, s, depth);
    EndsNext(c, s, p[0], k);
    EndsAlong(c, p, 0, |p| - 1, k - 1);
    EndsDeeper(c, t, k - 1 - (|p| - 1), depth);
    EndsDeeper(c, t, k - 1 - (|p| - 1), k - 1);
  }

  /** Links never lead back to the root. */
  lemma RootNotVisited(c: Context, depth: nat)
    requires c.records != [] && EndsBelow(c, 0, depth)
    ensures !Visited(c, 0)
  {
    if Visited(c, 0) {
      var child := c.records[0].child;
      var p: seq<nat> :| Connects(c, child, 0, p);
      var q := p + [child];
      forall i | 0 <= i < |q| - 1 ensures Linked(c, q[i], q[i + 1]) {
        if i < |p| - 1 { assert Linked(c, p[i], p[i + 1]); }
      }
      LoopNeverEnds(c, q, 0, |q| - 1, depth - 1);
    }
  }

  lemma VisitedEnds(c: Context, depth: nat, s: nat)
    requires c.records != [] && EndsBelow(c, 0, depth) && Visited(c, s)
    ensures Ends(c, s, depth)
  {
    var p: seq<nat> :| Connects(c, c.records[0].child, s, p);
    EndsAlong(c, p, 0, |p| - 1, depth - 1);
    EndsDeeper(c, s, depth - 1 - (|p| - 1), depth);
  }

  lemma LoadEndsBelow(c: Context, d: Dir, depth: nat)
    requires Fits(c, d) && LoadDirectory(c, d, depth).Ok?
    ensures LoadDirectory(Default(c), d, depth) == LoadDirectory(c, d, depth)
    ensures c.records != [] && EndsBelow(Default(c), 0, depth)
  {
    hide Load, BuildTree, EndsBelow, OkUnless;
    var c' := Default(c);
    LevelsAgree(c, d, depth);
    LoadInRange(c', d, 0);
    DefaultBuildTree(c', Load(c', d, 0).value, 0, depth);
    OkEnds(c', BuildTree(c', Load(c', d, 0).value, 0, depth), EndsBelow(c', 0, depth));
  }

  lemma OkEnds(c: Context, r: Result<Dir, DirError>, ends: bool)
    requires OkUnless(c, r, ends) && r.Ok?
    ensures ends
  {
  }

  lemma EntryDescends(c: Context, t: Dir, depth: nat, p: nat)
    requires c.records != [] && EndsBelow(c, 0, depth) && t.Loaded(p) && EntryReached(c, t, p)
    ensures DescendsFrom(c, t, Ranks(c, depth), p)
  {
    hide Under, Visited, Ends, EndsBelow;
    var rank := Ranks(c, depth);
    RanksSize(c, depth);
    RootNotVisited(c, depth);
    if p != 0 { VisitedEnds(c, depth, p); VisitedIsEntry(c, p); }
    forall k | k in t.Get(p).kids ensures t.Loaded(k) && k in rank && rank[p] < rank[k] {
      assert KidOf(c, t, p, k);
      VisitedEnds(c, depth, k);
      VisitedIsEntry(c, k);
      if p != 0 { RankGrows(c, depth, p, k); }
    }
  }

  lemma VisitedIsEntry(c: Context, s: nat)
    requires Visited(c, s)
    ensures s < |c.records| && s != NOSTREAM
  {
  }

  /** Whatever the level, in a loaded directory every step down leads to an entry of higher rank: listing and
      lookup apply to it and end. */
  lemma LoadDescends(c: Context, d: Dir, depth: nat) returns (rank: map<nat, nat>)
    requires Fits(c, d) && (forall s: nat :: !d.Loaded(s)) && LoadDirectory(c, d, depth).Ok?
    ensures var t := LoadDirectory(c, d, depth).value; Descends(c, t, rank) && Within(t, rank, 0, |rank|)
  {
    hide LoadDirectory, EndsBelow, EntryReached, DescendsFrom;
    var c', t := Default(c), LoadDirectory(c, d, depth).value;
    LoadEndsBelow(c, d, depth);
    LoadReachedAll(c', d, depth);
    rank := Ranks(c', depth);
    RanksSize(c', depth);
    forall p: nat | t.Loaded(p) ensures DescendsFrom(c, t, rank, p) {
      EntryDescends(c', t, depth, p);
      DescendsAtAnyLevel(c, t, rank, p);
    }
    RootRank(c', depth);
  }

  lemma DescendsAtAnyLevel(c: Context, t: Dir, rank: map<nat, nat>, p: nat)
    requires t.Loaded(p) && DescendsFrom(Default(c), t, rank, p)
    ensures DescendsFrom(c, t, rank, p)
  {
  }

  lemma RootRank(c: Context, depth: nat)
    ensures 0 in Ranks(c, depth) && Ranks(c, depth)[0] == 0
  {
  }
}
