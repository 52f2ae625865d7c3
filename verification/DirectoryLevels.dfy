/** What the defect level changes when a directory is loaded, and when loading ends. */
module DirectoryLevels {
  import opened Common
  import opened DirectoryTree
  import opened DirectoryProofs

  /** The same file opened at the default level, at which only fatal defects are raised. */
  ghost function Default(c: Context): Context {
    c.(level := Fatal)
  }

  /** None of `issues` would be raised at the level of `c`. */
  ghost predicate Tolerated(c: Context, issues: seq<DirError>) {
    forall e :: e in issues ==> !e.Severity().RaisedAt(c.level)
  }

  // ----- The result at one level follows from the result at the default level

  /** `r` and `s` are the outcomes of one step from `d`, at the level of `c` and at the default level: the step
      succeeds at the level of `c` exactly if it records no issue that this level raises, with the same result. */
  ghost predicate Agree(c: Context, d: Dir, r: Result<Dir, DirError>, s: Result<Dir, DirError>) {
    && (s.Ok? ==> d.issues <= s.value.issues)
    && (r.Ok? <==> s.Ok? && Tolerated(c, s.value.issues[|d.issues|..]))
    && (r.Ok? ==> r == s)
  }

  ghost function Then(first: Result<Dir, DirError>, second: Result<Dir, DirError>): Result<Dir, DirError> {
    if first.Ok? then second else first
  }

  lemma AgreeThen(c: Context, d: Dir, r1: Result<Dir, DirError>, s1: Result<Dir, DirError>,
                  r2: Result<Dir, DirError>, s2: Result<Dir, DirError>)
    requires Agree(c, d, r1, s1)
    requires s1.Ok? ==> Agree(c, s1.value, r2, s2)
    ensures Agree(c, d, Then(r1, r2), Then(s1, s2))
  {
    if s1.Ok? && s2.Ok? {
      var a, b, e := |d.issues|, |s1.value.issues|, s2.value.issues;
      assert e[a..] == e[a..b] + e[b..] && e[a..b] == s1.value.issues[a..];
    }
  }

  lemma AgreeOk(c: Context, d: Dir, d': Dir)
    requires d'.issues == d.issues
    ensures Agree(c, d, Ok(d'), Ok(d'))
  {
  }

  lemma AgreeRaise(c: Context, d: Dir, e: DirError)
    ensures Agree(c, d, Raise(c, d, e), Raise(Default(c), d, e))
  {
    assert e.Severity().RaisedAt(Fatal) ==> e.Severity().RaisedAt(c.level);
    if !e.Severity().RaisedAt(Fatal) {
      assert (d.issues + [e])[|d.issues|..] == [e];
    }
  }

  lemma {:induction false} AgreeReport(c: Context, d: Dir, defects: seq<DirError>)
    ensures Agree(c, d, Report(c, d, defects), Report(Default(c), d, defects))
    decreases |defects|
  {
    if defects == [] {
      AgreeOk(c, d, d);
    } else {
      AgreeRaise(c, d, defects[0]);
      var s1 := Raise(Default(c), d, defects[0]);
      if s1.Ok? {
        AgreeReport(c, s1.value, defects[1..]);
        AgreeThen(c, d, Raise(c, d, defects[0]), s1,
                  Report(c, s1.value, defects[1..]), Report(Default(c), s1.value, defects[1..]));
      }
    }
  }

  lemma AgreeCheckRecord(c: Context, d: Dir, sid: nat, raw: RawEntry)
    ensures Agree(c, d, CheckRecord(c, d, sid, raw), CheckRecord(Default(c), d, sid, raw))
  {
    assert RecordDefects(Default(c), sid, raw) == RecordDefects(c, sid, raw);
    var defects := RecordDefects(c, sid, raw);
    hide Agree, Report, RecordDefects, CheckHead;
    AgreeReport(c, d, defects);
    if Report(Default(c), d, defects).Ok? {
      var d1 := Report(Default(c), d, defects).value;
      AgreeCheckHead(c, d1, raw);
      AgreeThen(c, d, Report(c, d, defects), Report(Default(c), d, defects),
                CheckHead(c, d1, raw), CheckHead(Default(c), d1, raw));
      AgreeValue(c, d, Report(c, d, defects), Report(Default(c), d, defects));
    }
  }

  lemma AgreeValue(c: Context, d: Dir, r: Result<Dir, DirError>, s: Result<Dir, DirError>)
    requires Agree(c, d, r, s)
    ensures r.Ok? ==> r == s
  {
  }

  lemma AgreeCheckHead(c: Context, d: Dir, raw: RawEntry)
    ensures Agree(c, d, CheckHead(c, d, raw), CheckHead(Default(c), d, raw))
  {
    AgreeRaise(c, d, StreamReferencedTwice);
    AgreeOk(c, d, d);
    AgreeOk(c, d, d.(usedFat := d.usedFat + [raw.start]));
    AgreeOk(c, d, d.(usedMini := d.usedMini + [raw.start]));
    hide Agree, Raise;
  }

  lemma AgreeLoad(c: Context, d: Dir, sid: nat)
    requires Fits(c, d)
    ensures Agree(c, d, Load(c, d, sid), Load(Default(c), d, sid))
  {
    if sid < |c.records| {
      AgreeRaise(c, d, DoubleReference);
      AgreeCheckRecord(c, d, sid, c.records[sid]);
      hide CheckRecord, Raise;
    }
  }

  /** The second half of Adopt: marks `sid`, now listed under its parent, as used. */
  ghost function MarkUsed(c: Context, d: Dir, sid: nat): Result<Dir, DirError>
    requires d.Loaded(sid)
  {
    match (if d.Get(sid).used then Raise(c, d, EntryReferencedTwice) else Ok(d))
    case Err(e) => Err(e)
    case Ok(d1) => Ok(d1.Put(sid, d1.Get(sid).(used := true)))
  }

  lemma AgreeMarkUsed(c: Context, d: Dir, d1: Dir, sid: nat)
    requires d1.Loaded(sid) && d1.issues == d.issues
    ensures Agree(c, d, MarkUsed(c, d1, sid), MarkUsed(Default(c), d1, sid))
  {
    AgreeRaise(c, d1, EntryReferencedTwice);
  }

  lemma AgreeAdopt(c: Context, d: Dir, parent: nat, sid: nat)
    requires d.Loaded(parent) && d.Loaded(sid)
    ensures Agree(c, d, Adopt(c, d, parent, sid), Adopt(Default(c), d, parent, sid))
  {
    var key := c.lower(c.Name(sid));
    assert Default(c).lower(Default(c).Name(sid)) == key;
    var taken := key in d.Get(parent).kidsDict;
    AgreeRaise(c, d, DuplicateFilename);
    AgreeOk(c, d, d);
    var r1 := if taken then Raise(c, d, DuplicateFilename) else Ok(d);
    var s1 := if taken then Raise(Default(c), d, DuplicateFilename) else Ok(d);
    if s1.Ok? {
      var d1 := s1.value;
      var p := d1.Get(parent);
      var d2 := d1.Put(parent, p.(kids := p.kids + [sid], kidsDict := p.kidsDict[key := sid]));
      AgreeMarkUsed(c, d1, d2, sid);
      AgreeThen(c, d, r1, s1, MarkUsed(c, d2, sid), MarkUsed(Default(c), d2, sid));
      AgreeValue(c, d, r1, s1);
      hide Agree, Raise;
    }
  }

  lemma {:induction false} SameInsert(c: Context, sid: nat, sorted: seq<nat>)
    ensures InsertByName(Default(c), sid, sorted) == InsertByName(c, sid, sorted)
  {
    if sorted != [] {
      SameInsert(c, sid, sorted[1..]);
    }
  }

  lemma {:induction false} SameSort(c: Context, sids: seq<nat>)
    ensures SortByName(Default(c), sids) == SortByName(c, sids)
    decreases |sids|
  {
    if sids != [] {
      SameSort(c, sids[..|sids| - 1]);
      SameInsert(c, sids[|sids| - 1], SortByName(c, sids[..|sids| - 1]));
    }
  }

  lemma {:induction false} AgreeAppendLeft(c: Context, d: Dir, parent: nat, sid: nat, depth: nat)
    requires Fits(c, d) && d.Loaded(parent)
    ensures Agree(c, d, AppendLeft(c, d, parent, sid, depth), AppendLeft(Default(c), d, parent, sid, depth))
    decreases depth, 2
  {
    hide Agree, Load, Adopt, AppendKids, Grows;
    AgreeLoad(c, d, sid);
    var r1, s1 := Load(c, d, sid), Load(Default(c), d, sid);
    AgreeValue(c, d, r1, s1);
    if s1.Ok? {
      GrowsLoadedSid(d, s1.value, parent);
      AgreeLeftRest(c, s1.value, parent, sid, depth);
      AgreeThen(c, d, r1, s1, LeftRest(c, s1.value, parent, sid, depth),
                LeftRest(Default(c), s1.value, parent, sid, depth));
    }
  }

  /** AppendLeft after the record of `sid` is loaded. */
  ghost function LeftRest(c: Context, d: Dir, parent: nat, sid: nat, depth: nat): Result<Dir, DirError>
    requires Fits(c, d) && d.Loaded(parent) && d.Loaded(sid)
  {
    match AppendKids(c, d, parent, c.records[sid].left, depth)
    case Err(e) => Err(e)
    case Ok(d1) => Adopt(c, d1, parent, sid)
  }

  lemma {:induction false} AgreeLeftRest(c: Context, d: Dir, parent: nat, sid: nat, depth: nat)
    requires Fits(c, d) && d.Loaded(parent) && d.Loaded(sid)
    ensures Agree(c, d, LeftRest(c, d, parent, sid, depth), LeftRest(Default(c), d, parent, sid, depth))
    decreases depth, 2, 0
  {
    hide Agree, Adopt, AppendKids, Grows;
    var left := c.records[sid].left;
    AgreeAppendKids(c, d, parent, left, depth);
    var r1, s1 := AppendKids(c, d, parent, left, depth), AppendKids(Default(c), d, parent, left, depth);
    AgreeValue(c, d, r1, s1);
    if s1.Ok? {
      GrowsLoadedSid(d, s1.value, parent);
      GrowsLoadedSid(d, s1.value, sid);
      AgreeAdopt(c, s1.value, parent, sid);
      AgreeThen(c, d, r1, s1, Adopt(c, s1.value, parent, sid), Adopt(Default(c), s1.value, parent, sid));
    }
  }

  lemma {:induction false} AgreeAppendRight(c: Context, d: Dir, parent: nat, sid: nat, depth: nat)
    requires Fits(c, d) && d.Loaded(parent) && d.Loaded(sid)
    ensures Agree(c, d, AppendRight(c, d, parent, sid, depth), AppendRight(Default(c), d, parent, sid, depth))
    decreases depth, 2
  {
    hide Agree, AppendKids, BuildTree, Grows;
    var right := c.records[sid].right;
    AgreeAppendKids(c, d, parent, right, depth);
    var r1, s1 := AppendKids(c, d, parent, right, depth), AppendKids(Default(c), d, parent, right, depth);
    AgreeValue(c, d, r1, s1);
    if s1.Ok? {
      GrowsLoadedSid(d, s1.value, sid);
      AgreeBuildTree(c, s1.value, sid, depth);
      AgreeThen(c, d, r1, s1, BuildTree(c, s1.value, sid, depth), BuildTree(Default(c), s1.value, sid, depth));
    }
  }

  lemma {:induction false} AgreeAppendKids(c: Context, d: Dir, parent: nat, sid: nat, depth: nat)
    requires Fits(c, d) && d.Loaded(parent)
    ensures Agree(c, d, AppendKids(c, d, parent, sid, depth), AppendKids(Default(c), d, parent, sid, depth))
    decreases depth, 1
  {
    AgreeOk(c, d, d);
    AgreeErr(c, d, RecursionLimit);
    hide Agree, AppendLeft, AppendRight, Grows;
    if depth > 0 && sid != NOSTREAM {
      AgreeBoth(c, d, parent, sid, depth - 1);
    }
  }

  /** Both halves of append_kids. */
  ghost function Both(c: Context, d: Dir, parent: nat, sid: nat, depth: nat): Result<Dir, DirError>
    requires Fits(c, d) && d.Loaded(parent)
  {
    match AppendLeft(c, d, parent, sid, depth)
    case Err(e) => Err(e)
    case Ok(d1) => AppendRight(c, d1, parent, sid, depth)
  }

  lemma {:induction false} AgreeBoth(c: Context, d: Dir, parent: nat, sid: nat, depth: nat)
    requires Fits(c, d) && d.Loaded(parent)
    ensures Agree(c, d, Both(c, d, parent, sid, depth), Both(Default(c), d, parent, sid, depth))
    decreases depth, 3
  {
    hide Agree, AppendLeft, AppendRight, Grows;
    AgreeAppendLeft(c, d, parent, sid, depth);
    var r1, s1 := AppendLeft(c, d, parent, sid, depth), AppendLeft(Default(c), d, parent, sid, depth);
    AgreeValue(c, d, r1, s1);
    if s1.Ok? {
      GrowsLoadedSid(d, s1.value, parent);
      AgreeAppendRight(c, s1.value, parent, sid, depth);
      AgreeThen(c, d, r1, s1, AppendRight(c, s1.value, parent, sid, depth),
                AppendRight(Default(c), s1.value, parent, sid, depth));
    }
  }

  lemma AgreeErr(c: Context, d: Dir, e: DirError)
    ensures Agree(c, d, Err(e), Err(e))
  {
  }

  lemma AgreeSort(c: Context, d: Dir, sid: nat)
    requires d.Loaded(sid)
    ensures SortKids(Default(c), d, sid) == SortKids(c, d, sid)
    ensures Agree(c, d, Ok(SortKids(c, d, sid)), Ok(SortKids(Default(c), d, sid)))
  {
    SameSort(c, d.Get(sid).kids);
    AgreeOk(c, d, SortKids(c, d, sid));
  }

  lemma {:induction false} AgreeBuildTree(c: Context, d: Dir, sid: nat, depth: nat)
    requires Fits(c, d) && d.Loaded(sid)
    ensures Agree(c, d, BuildTree(c, d, sid, depth), BuildTree(Default(c), d, sid, depth))
    decreases depth, 1
  {
    AgreeOk(c, d, d);
    AgreeErr(c, d, RecursionLimit);
    hide Agree, AppendKids, SortKids, Grows;
    var child := c.records[sid].child;
    if depth > 0 && child != NOSTREAM {
      AgreeAppendKids(c, d, sid, child, depth - 1);
      var r1, s1 := AppendKids(c, d, sid, child, depth - 1), AppendKids(Default(c), d, sid, child, depth - 1);
      AgreeValue(c, d, r1, s1);
      if s1.Ok? {
        GrowsLoadedSid(d, s1.value, sid);
        AgreeSort(c, s1.value, sid);
        AgreeThen(c, d, r1, s1, Ok(SortKids(c, s1.value, sid)), Ok(SortKids(Default(c), s1.value, sid)));
      }
    }
  }

  /** Loading succeeds at the level of `c` exactly if it succeeds at the default level without recording an issue
      that the level of `c` raises; the directory is then the same. */
  lemma LevelsAgree(c: Context, d: Dir, depth: nat)
    requires Fits(c, d)
    ensures var r, s := LoadDirectory(c, d, depth), LoadDirectory(Default(c), d, depth);
            && (s.Ok? ==> d.issues <= s.value.issues)
            && (r.Ok? <==> s.Ok? && Tolerated(c, s.value.issues[|d.issues|..]))
            && (r.Ok? ==> r == s)
  {
    AgreeLoad(c, d, 0);
    hide Load, BuildTree;
    var r1, s1 := Load(c, d, 0), Load(Default(c), d, 0);
    if s1.Ok? {
      AgreeBuildTree(c, s1.value, 0, depth);
      AgreeThen(c, d, r1, s1, BuildTree(c, s1.value, 0, depth), BuildTree(Default(c), s1.value, 0, depth));
    }
  }

  /** Since the load has begun no defect of severity "incorrect" has been recorded. */
  ghost predicate NoDefect(d: Dir, t: Dir) {
    && d.issues <= t.issues
    && forall e :: e in t.issues[|d.issues|..] ==> e.Severity() == Unsure || e.Severity() == Potential
  }

  /** A load at any level that records no such defect leaves a tree of entries that pass the checks of records. */
  lemma LoadWithoutDefect(c: Context, d: Dir, depth: nat) returns (par: map<nat, nat>, rank: map<nat, nat>)
    requires Fits(c, d) && forall s: nat :: !d.Loaded(s)
    ensures LoadDirectory(c, d, depth).Ok? && NoDefect(d, LoadDirectory(c, d, depth).value) ==>
              && IsTree(c, LoadDirectory(c, d, depth).value, par, rank)
              && Vetted(c, LoadDirectory(c, d, depth).value, set h: nat | h in d.usedFat)
  {
    hide LoadDirectory, IsTree, Vetted;
    var strict := c.(level := Incorrect);
    LevelsAgree(c, d, depth);
    LevelsAgree(strict, d, depth);
    assert Default(strict) == Default(c);
    par, rank := StrictLoadYieldsTree(strict, d, depth);
    StrictLoadVetted(strict, d, depth);
    var r := LoadDirectory(c, d, depth);
    if r.Ok? && NoDefect(d, r.value) {
      assert LoadDirectory(strict, d, depth) == r;
      TreeAtAnyLevel(strict, c, r.value, par, rank);
      VettedAtAnyLevel(strict, c, r.value, set h: nat | h in d.usedFat);
    }
  }

  lemma VettedAtAnyLevel(a: Context, b: Context, t: Dir, reserved: set<nat>)
    requires Default(a) == Default(b) && Vetted(a, t, reserved)
    ensures Vetted(b, t, reserved)
  {
    hide LegalRecord, SpecialSector;
    assert forall raw :: a.OwnsFatStream(raw) <==> b.OwnsFatStream(raw);
    assert forall raw :: a.OwnsMiniStream(raw) <==> b.OwnsMiniStream(raw);
    hide Context.OwnsFatStream, Context.OwnsMiniStream;
  }

  lemma TreeAtAnyLevel(a: Context, b: Context, t: Dir, par: map<nat, nat>, rank: map<nat, nat>)
    requires Default(a) == Default(b) && IsTree(a, t, par, rank)
    ensures IsTree(b, t, par, rank)
  {
    hide WellPlaced, Places;
    forall p: nat | t.Loaded(p) ensures WellPlaced(b, t, par, p) {
      PlacedAtAnyLevel(a, b, t, par, p);
    }
  }

  lemma PlacedAtAnyLevel(a: Context, b: Context, t: Dir, par: map<nat, nat>, p: nat)
    requires Default(a) == Default(b) && t.Loaded(p) && WellPlaced(a, t, par, p)
    ensures WellPlaced(b, t, par, p)
  {
    hide ListedOnce, NameLess;
    var kids := t.Get(p).kids;
    forall i | 0 <= i < |kids| ensures a.Name(kids[i]) == b.Name(kids[i]) { }
    assert SortedByName(b, kids) && UniqueNames(b, kids);
  }

  // ----- When loading ends

  /** append_kids from `sid` meets entries of the directory only, and comes back within `depth` nested calls. */
  ghost predicate Ends(c: Context, sid: nat, depth: nat)
    decreases depth
  {
    && depth > 0
    && (sid == NOSTREAM
        || (&& sid < |c.records|
            && Ends(c, c.records[sid].left, depth - 1)
            && Ends(c, c.records[sid].right, depth - 1)
            && EndsBelow(c, sid, depth - 1)))
  }

  /** So does build_storage_tree. */
  ghost predicate EndsBelow(c: Context, sid: nat, depth: nat)
    requires sid < |c.records|
    decreases depth
  {
    depth > 0 && (c.records[sid].child == NOSTREAM || Ends(c, c.records[sid].child, depth - 1))
  }

  lemma {:induction false} DefaultReports(c: Context, d: Dir, defects: seq<DirError>)
    requires c.level == Fatal && forall e :: e in defects ==> e.Severity() != Fatal
    ensures Report(c, d, defects).Ok?
    decreases |defects|
  {
    if defects != [] {
      DefaultReports(c, Raise(c, d, defects[0]).value, defects[1..]);
    }
  }

  /** At the default level an entry is loaded exactly if its index is in range. */
  lemma DefaultLoads(c: Context, d: Dir, sid: nat)
    requires Fits(c, d) && c.level == Fatal
    ensures Load(c, d, sid).Ok? <==> sid < |c.records|
    ensures Load(c, d, sid).Err? ==> Load(c, d, sid) == Err(IndexOutOfRange)
  {
    hide CheckRecord;
    if sid < |c.records| {
      DefaultChecks(c, d, sid, c.records[sid]);
    }
  }

  lemma DefaultChecks(c: Context, d: Dir, sid: nat, raw: RawEntry)
    requires c.level == Fatal
    ensures CheckRecord(c, d, sid, raw).Ok?
  {
    hide Report;
    DefaultReports(c, d, RecordDefects(c, sid, raw));
  }

  lemma DefaultAdopts(c: Context, d: Dir, parent: nat, sid: nat)
    requires c.level == Fatal && d.Loaded(parent) && d.Loaded(sid)
    ensures Adopt(c, d, parent, sid).Ok?
  {
  }

  /** An error of a load that cannot be overlooked. */
  ghost predicate OkUnless(c: Context, r: Result<Dir, DirError>, ends: bool) {
    && (r.Ok? <==> ends)
    && (r.Err? ==> r.error == RecursionLimit || (r.error == IndexOutOfRange && !LinksInRange(c)))
  }

  ghost predicate LinksInRange(c: Context) {
    forall s: nat :: s < |c.records| ==> InRange(c, c.records[s].left) && InRange(c, c.records[s].right)
                                         && InRange(c, c.records[s].child)
  }

  ghost predicate InRange(c: Context, sid: nat) {
    sid == NOSTREAM || sid < |c.records|
  }

  lemma {:induction false} DefaultAppendLeft(c: Context, d: Dir, parent: nat, sid: nat, depth: nat)
    requires Fits(c, d) && c.level == Fatal && d.Loaded(parent) && sid < |c.records|
    ensures OkUnless(c, AppendLeft(c, d, parent, sid, depth), Ends(c, c.records[sid].left, depth))
    decreases depth, 2
  {
    hide Load, Adopt, AppendKids, Ends;
    DefaultLoads(c, d, sid);
    var d1 := Load(c, d, sid).value;
    DefaultAppendKids(c, d1, parent, c.records[sid].left, depth);
    if AppendKids(c, d1, parent, c.records[sid].left, depth).Ok? {
      DefaultAdopts(c, AppendKids(c, d1, parent, c.records[sid].left, depth).value, parent, sid);
    }
  }

  lemma {:induction false} DefaultAppendRight(c: Context, d: Dir, parent: nat, sid: nat, depth: nat)
    requires Fits(c, d) && c.level == Fatal && d.Loaded(parent) && d.Loaded(sid)
    ensures OkUnless(c, AppendRight(c, d, parent, sid, depth),
                     Ends(c, c.records[sid].right, depth) && EndsBelow(c, sid, depth))
    decreases depth, 2
  {
    hide AppendKids, BuildTree, Ends, EndsBelow;
    DefaultAppendKids(c, d, parent, c.records[sid].right, depth);
    if AppendKids(c, d, parent, c.records[sid].right, depth).Ok? {
      DefaultBuildTree(c, AppendKids(c, d, parent, c.records[sid].right, depth).value, sid, depth);
    }
  }

  lemma LeftOutOfRange(c: Context, d: Dir, parent: nat, sid: nat, depth: nat)
    requires Fits(c, d) && d.Loaded(parent) && sid >= |c.records|
    ensures AppendLeft(c, d, parent, sid, depth) == Err(IndexOutOfRange)
  {
  }

  lemma {:induction false} DefaultAppendKids(c: Context, d: Dir, parent: nat, sid: nat, depth: nat)
    requires Fits(c, d) && c.level == Fatal && d.Loaded(parent) && (LinksInRange(c) ==> InRange(c, sid))
    ensures OkUnless(c, AppendKids(c, d, parent, sid, depth), Ends(c, sid, depth))
    decreases depth, 1
  {
    hide AppendLeft, AppendRight, LinksInRange, Grows;
    if depth == 0 || sid == NOSTREAM {
    } else if sid >= |c.records| {
      LeftOutOfRange(c, d, parent, sid, depth - 1);
    } else {
      DefaultAppendLeft(c, d, parent, sid, depth - 1);
      var r1 := AppendLeft(c, d, parent, sid, depth - 1);
      if r1.Ok? {
        GrowsLoadedSid(d, r1.value, parent);
        DefaultAppendRight(c, r1.value, parent, sid, depth - 1);
      }
    }
  }

  lemma {:induction false} DefaultBuildTree(c: Context, d: Dir, sid: nat, depth: nat)
    requires Fits(c, d) && c.level == Fatal && d.Loaded(sid)
    ensures OkUnless(c, BuildTree(c, d, sid, depth), EndsBelow(c, sid, depth))
    decreases depth, 1
  {
    hide AppendKids, Ends;
    if depth > 0 && c.records[sid].child != NOSTREAM {
      DefaultAppendKids(c, d, sid, c.records[sid].child, depth - 1);
    }
  }

  // ----- Loading ends exactly where no entry leads back to itself

  /** `p` follows links from entry to entry. */
  ghost predicate IsPath(c: Context, p: seq<nat>) {
    && p != []
    && (forall i :: 0 <= i < |p| ==> p[i] < |c.records| && p[i] != NOSTREAM)
    && forall i :: 0 <= i < |p| - 1 ==> Linked(c, p[i], p[i + 1])
  }

  ghost predicate Linked(c: Context, s: nat, t: nat)
    requires s < |c.records|
  {
    t == c.records[s].left || t == c.records[s].right || t == c.records[s].child
  }

  /** From `sid` the links stay in the directory and no path of links meets an entry twice. */
  ghost predicate Tame(c: Context, sid: nat) {
    && InRange(c, sid)
    && forall p: seq<nat> :: IsPath(c, p) && p[0] == sid ==> TamePath(c, p)
  }

  ghost predicate TamePath(c: Context, p: seq<nat>)
    requires IsPath(c, p)
  {
    var raw := c.records[p[|p| - 1]];
    Distinct(p) && InRange(c, raw.left) && InRange(c, raw.right) && InRange(c, raw.child)
  }

  lemma {:induction false} EndsDeeper(c: Context, sid: nat, depth: nat, more: nat)
    requires Ends(c, sid, depth) && depth <= more
    ensures Ends(c, sid, more)
    decreases depth
  {
    if sid != NOSTREAM {
      var raw := c.records[sid];
      EndsDeeper(c, raw.left, depth - 1, more - 1);
      EndsDeeper(c, raw.right, depth - 1, more - 1);
      if raw.child != NOSTREAM {
        EndsDeeper(c, raw.child, depth - 2, more - 2);
      }
    }
  }

  /** Where the walk ends, it ends one level earlier from the next entry on. */
  lemma EndsNext(c: Context, s: nat, t: nat, depth: nat)
    requires Ends(c, s, depth) && s != NOSTREAM && t != NOSTREAM && Linked(c, s, t)
    ensures depth > 0 && Ends(c, t, depth - 1)
  {
    if t == c.records[s].child {
      EndsDeeper(c, t, depth - 2, depth - 1);
    }
  }

  lemma {:induction false} EndsAlong(c: Context, p: seq<nat>, i: nat, j: nat, depth: nat)
    requires IsPath(c, p) && i <= j < |p| && Ends(c, p[i], depth)
    ensures j - i < depth && Ends(c, p[j], depth - (j - i))
    decreases j - i
  {
    if i < j {
      assert Linked(c, p[i], p[i + 1]);
      EndsNext(c, p[i], p[i + 1], depth);
      EndsAlong(c, p, i + 1, j, depth - 1);
    }
  }

  lemma {:induction false} LoopNeverEnds(c: Context, p: seq<nat>, i: nat, j: nat, depth: nat)
    requires IsPath(c, p) && i < j < |p| && p[i] == p[j]
    ensures !Ends(c, p[i], depth)
    decreases depth
  {
    if Ends(c, p[i], depth) {
      EndsAlong(c, p, i, j, depth);
      LoopNeverEnds(c, p, i, j, depth - (j - i));
    }
  }

  lemma EndsIsTame(c: Context, sid: nat, depth: nat)
    requires Ends(c, sid, depth)
    ensures Tame(c, sid)
  {
    EndsInRange(c, sid, depth);
    hide Distinct, Ends;
    forall p: seq<nat> | IsPath(c, p) && p[0] == sid ensures TamePath(c, p) {
      EndsAlong(c, p, 0, |p| - 1, depth);
      LinksInRangeAfter(c, p, depth - (|p| - 1));
      PathDistinct(c, p, depth);
    }
  }

  lemma EndsInRange(c: Context, sid: nat, depth: nat)
    requires Ends(c, sid, depth)
    ensures InRange(c, sid)
  {
  }

  lemma LinksInRangeAfter(c: Context, p: seq<nat>, depth: nat)
    requires IsPath(c, p) && Ends(c, p[|p| - 1], depth)
    ensures var raw := c.records[p[|p| - 1]];
            InRange(c, raw.left) && InRange(c, raw.right) && InRange(c, raw.child)
  {
    var raw := c.records[p[|p| - 1]];
    assert Ends(c, raw.left, depth - 1) && Ends(c, raw.right, depth - 1);
    assert raw.child == NOSTREAM || Ends(c, raw.child, depth - 2);
  }

  lemma PathDistinct(c: Context, p: seq<nat>, depth: nat)
    requires IsPath(c, p) && Ends(c, p[0], depth)
    ensures Distinct(p)
  {
    forall i, j | 0 <= i < j < |p| ensures p[i] != p[j] {
      EndsAlong(c, p, 0, i, depth);
      if p[i] == p[j] {
        LoopNeverEnds(c, p, i, j, depth - i);
      }
    }
  }

  /** A walk that does not end in time has left the directory or gone through many entries. */
  lemma {:induction false} LongPath(c: Context, sid: nat, k: nat) returns (p: seq<nat>)
    requires InRange(c, sid) && !Ends(c, sid, 2 * k + 1)
    ensures IsPath(c, p) && p[0] == sid
    ensures |p| == k + 1 || !TamePath(c, p)
    decreases k
  {
    p := [sid];
    var raw := c.records[sid];
    if k > 0 && InRange(c, raw.left) && InRange(c, raw.right) && InRange(c, raw.child) {
      var next := LateLink(c, sid, k);
      var rest := LongPath(c, next, k - 1);
      p := [sid] + rest;
      PathFurther(c, sid, rest);
    }
  }

  lemma LateLink(c: Context, sid: nat, k: nat) returns (next: nat)
    requires k > 0 && sid != NOSTREAM && sid < |c.records| && !Ends(c, sid, 2 * k + 1)
    ensures Linked(c, sid, next) && !Ends(c, next, 2 * (k - 1) + 1)
  {
    var raw := c.records[sid];
    if !Ends(c, raw.left, 2 * k) {
      next := raw.left;
    } else if !Ends(c, raw.right, 2 * k) {
      next := raw.right;
    } else {
      next := raw.child;
    }
    if Ends(c, next, 2 * k - 1) {
      EndsDeeper(c, next, 2 * k - 1, 2 * k);
    }
  }

  lemma PathFurther(c: Context, sid: nat, rest: seq<nat>)
    requires sid < |c.records| && sid != NOSTREAM && IsPath(c, rest) && Linked(c, sid, rest[0])
    ensures IsPath(c, [sid] + rest)
    ensures TamePath(c, [sid] + rest) ==> TamePath(c, rest)
  {
    var p := [sid] + rest;
    forall i | 0 <= i < |p| - 1 ensures Linked(c, p[i], p[i + 1]) {
      if i > 0 {
        assert Linked(c, rest[i - 1], rest[i]);
      }
    }
    assert p[|p| - 1] == rest[|rest| - 1];
    assert forall i :: 0 <= i < |rest| ==> rest[i] == p[i + 1];
  }

  lemma TameEnds(c: Context, sid: nat)
    requires Tame(c, sid)
    ensures Ends(c, sid, 2 * |c.records| + 1)
  {
    if !Ends(c, sid, 2 * |c.records| + 1) {
      var p := LongPath(c, sid, |c.records|);
      assert TamePath(c, p);
      Pigeonhole(p, |c.records|);
    }
  }

  /** Loading at the default level, with room for enough nested calls, succeeds exactly if from the root's child
      the links stay in the directory and no path of links meets an entry twice; two links to one entry are allowed.
      Where the links stay in the directory but a path leads back, no number of nested calls is enough. */
  lemma DefaultLoadEnds(c: Context, d: Dir, depth: nat)
    requires Fits(c, d) && c.level == Fatal && c.records != []
    ensures LoadDirectory(c, d, depth).Ok? ==> Tame(c, c.records[0].child)
    ensures Tame(c, c.records[0].child) && depth >= 2 * |c.records| + 2 ==> LoadDirectory(c, d, depth).Ok?
    ensures LinksInRange(c) && !Tame(c, c.records[0].child) ==>
              LoadDirectory(c, d, depth) == Err(RecursionLimit)
  {
    hide Load, BuildTree, Tame, LinksInRange, Ends;
    var child := c.records[0].child;
    DefaultLoads(c, d, 0);
    DefaultBuildTree(c, Load(c, d, 0).value, 0, depth);
    if EndsBelow(c, 0, depth) {
      if child == NOSTREAM { NothingBelow(c); } else { EndsIsTame(c, child, depth - 1); }
    }
    if Tame(c, child) && depth >= 2 * |c.records| + 2 {
      TameEnds(c, child);
      EndsDeeper(c, child, 2 * |c.records| + 1, depth - 1);
    }
  }

  lemma NothingBelow(c: Context)
    ensures Tame(c, NOSTREAM)
  {
  }

  // ----- Strict loading always ends

  lemma LoadNeverTooDeep(c: Context, d: Dir, sid: nat)
    requires Fits(c, d)
    ensures Load(c, d, sid) != Err(RecursionLimit)
    ensures c.Strict() && Load(c, d, sid).Ok? ==> |Load(c, d, sid).value.Unloaded()| == |d.Unloaded()| - 1
  {
    hide CheckRecord;
    if sid < |c.records| {
      CheckNeverTooDeep(c, d, sid, c.records[sid]);
    }
  }

  lemma CheckNeverTooDeep(c: Context, d: Dir, sid: nat, raw: RawEntry)
    ensures CheckRecord(c, d, sid, raw) != Err(RecursionLimit)
  {
    hide Report;
    ReportsItsDefects(c, d, RecordDefects(c, sid, raw));
  }

  lemma FewerUnloaded(d: Dir, d': Dir)
    requires Grows(d, d')
    ensures |d'.Unloaded()| <= |d.Unloaded()|
  {
    GrowsUnloaded(d, d');
    SubsetSize(d'.Unloaded(), d.Unloaded());
  }

  lemma SubsetSize(a: set<nat>, b: set<nat>)
    requires a <= b
    ensures |a| <= |b|
  {
    assert b == a + (b - a);
  }

  /** What is needed of the number of nested calls: two for every entry not loaded yet, and one more. */
  lemma {:induction false} StrictAppendLeftEnds(c: Context, d: Dir, parent: nat, sid: nat, depth: nat)
    requires Fits(c, d) && c.Strict() && d.Loaded(parent) && depth + 1 > 2 * |d.Unloaded()|
    ensures var r := AppendLeft(c, d, parent, sid, depth);
            && r != Err(RecursionLimit)
            && (r.Ok? ==> |r.value.Unloaded()| <= |d.Unloaded()| - 1)
    decreases depth, 2
  {
    hide Load, Adopt, AppendKids;
    LoadNeverTooDeep(c, d, sid);
    if Load(c, d, sid).Ok? {
      var d1 := Load(c, d, sid).value;
      StrictAppendKidsEnds(c, d1, parent, c.records[sid].left, depth);
      var r2 := AppendKids(c, d1, parent, c.records[sid].left, depth);
      if r2.Ok? {
        AdoptNeverTooDeep(c, r2.value, parent, sid);
        FewerUnloaded(d1, r2.value);
        if Adopt(c, r2.value, parent, sid).Ok? {
          FewerUnloaded(r2.value, Adopt(c, r2.value, parent, sid).value);
        }
      }
    }
  }

  lemma AdoptNeverTooDeep(c: Context, d: Dir, parent: nat, sid: nat)
    requires d.Loaded(parent) && d.Loaded(sid)
    ensures Adopt(c, d, parent, sid) != Err(RecursionLimit)
  {
    hide Grows;
  }

  lemma {:induction false} StrictAppendRightEnds(c: Context, d: Dir, parent: nat, sid: nat, depth: nat)
    requires Fits(c, d) && c.Strict() && d.Loaded(parent) && d.Loaded(sid) && depth > 2 * |d.Unloaded()| + 1
    ensures AppendRight(c, d, parent, sid, depth) != Err(RecursionLimit)
    decreases depth, 2
  {
    hide AppendKids, BuildTree;
    StrictAppendKidsEnds(c, d, parent, c.records[sid].right, depth);
    var r1 := AppendKids(c, d, parent, c.records[sid].right, depth);
    if r1.Ok? {
      FewerUnloaded(d, r1.value);
      StrictBuildTreeEnds(c, r1.value, sid, depth);
    }
  }

  lemma {:induction false} StrictAppendKidsEnds(c: Context, d: Dir, parent: nat, sid: nat, depth: nat)
    requires Fits(c, d) && c.Strict() && d.Loaded(parent) && depth > 2 * |d.Unloaded()|
    ensures AppendKids(c, d, parent, sid, depth) != Err(RecursionLimit)
    decreases depth, 1
  {
    hide AppendLeft, AppendRight;
    if sid != NOSTREAM {
      StrictAppendLeftEnds(c, d, parent, sid, depth - 1);
      var r1 := AppendLeft(c, d, parent, sid, depth - 1);
      if r1.Ok? {
        StrictAppendRightEnds(c, r1.value, parent, sid, depth - 1);
      }
    }
  }

  lemma {:induction false} StrictBuildTreeEnds(c: Context, d: Dir, sid: nat, depth: nat)
    requires Fits(c, d) && c.Strict() && d.Loaded(sid) && depth > 2 * |d.Unloaded()| + 1
    ensures BuildTree(c, d, sid, depth) != Err(RecursionLimit)
    decreases depth, 1
  {
    hide AppendKids;
    if c.records[sid].child != NOSTREAM {
      StrictAppendKidsEnds(c, d, sid, c.records[sid].child, depth - 1);
    }
  }

  /** Where double references are raised, loading ends on any links, within two nested calls for each entry. */
  lemma StrictLoadEnds(c: Context, d: Dir, depth: nat)
    requires Fits(c, d) && c.Strict() && depth >= 2 * |c.records| + 2
    ensures LoadDirectory(c, d, depth) != Err(RecursionLimit)
  {
    hide Load, BuildTree;
    LoadNeverTooDeep(c, d, 0);
    UnloadedAtMost(d);
    if Load(c, d, 0).Ok? {
      StrictBuildTreeEnds(c, Load(c, d, 0).value, 0, depth);
    }
  }

  ghost function FirstNats(n: nat): (all: set<nat>)
    ensures |all| == n && forall s: nat :: s < n <==> s in all
  {
    if n == 0 then {} else FirstNats(n - 1) + {n - 1}
  }

  lemma UnloadedAtMost(d: Dir)
    ensures |d.Unloaded()| <= |d.entries|
  {
    SubsetSize(d.Unloaded(), FirstNats(|d.entries|));
  }
}
