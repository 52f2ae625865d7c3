/** The directory as mutable objects: entries that are linked in place, and the methods that load and search them. */
module Directory {
  import opened Common
  import opened DirectoryTree
  import opened DirectoryLookup

  /** _OleDirectoryEntry; other entries are referred to by their index in the directory. */
  class DirEntry {
    const sid: nat
    const raw: RawEntry
    var kids: seq<nat>
    var kidsDict: map<string, nat>
    var used: bool

    constructor (sid: nat, raw: RawEntry)
      ensures this.sid == sid && this.raw == raw && kids == [] && kidsDict == map[] && !used
    {
      this.sid, this.raw, kids, kidsDict, used := sid, raw, [], map[], false;
    }

    function Value(): Entry
      reads this
    {
      Entry(raw, kids, kidsDict, used)
    }
  }

  class OleDirectory {
    const c: Context
    var direntries: seq<DirEntry?>
    var usedFat: seq<nat>
    var usedMini: seq<nat>
    var issues: seq<DirError>

    /** Nothing loaded yet; `usedFat` holds the streams the header names. */
    constructor (c: Context, usedFat: seq<nat>)
      ensures this.c == c && Valid() && Objects() == {}
      ensures Model() == Dir(seq(|c.records|, i => None), usedFat, [], [])
      ensures Fits(c, Model()) && forall s: nat :: !Model().Loaded(s)
    {
      this.c, this.usedFat, usedMini, issues := c, usedFat, [], [];
      direntries := seq(|c.records|, i => null);
    }

    ghost predicate Valid()
      reads this
    {
      && |direntries| == |c.records|
      && forall i :: 0 <= i < |direntries| && direntries[i] != null ==>
           direntries[i].sid == i && direntries[i].raw == c.records[i]
    }

    ghost function Objects(): set<object>
      reads this
    {
      set i | 0 <= i < |direntries| && direntries[i] != null :: direntries[i] as object
    }

    /** `e` is the object the directory holds for its index. */
    ghost predicate Holds(e: DirEntry)
      reads this
    {
      e.sid < |direntries| == |c.records| && direntries[e.sid] == e && e.raw == c.records[e.sid]
    }

    /** Entries, once loaded, stay where they are. */
    ghost predicate Keeps(before: seq<DirEntry?>)
      reads this
    {
      && |direntries| == |before|
      && forall i :: 0 <= i < |before| && before[i] != null ==> direntries[i] == before[i]
    }

    static function ValueOf(e: DirEntry?): Option<Entry>
      reads e
    {
      if e == null then None else Some(e.Value())
    }

    /** The directory as a value. */
    ghost function Model(): (d: Dir)
      reads this, Objects()
      ensures |d.entries| == |direntries|
      ensures forall i :: 0 <= i < |direntries| ==> d.entries[i] == ValueOf(direntries[i])
      ensures d.usedFat == usedFat && d.usedMini == usedMini && d.issues == issues
    {
      var values := seq(|direntries|, i requires 0 <= i < |direntries| reads this, Objects() => ValueOf(direntries[i]));
      Dir(values, usedFat, usedMini, issues)
    }

    /** _raise_defect. */
    method RaiseDefect(e: DirError) returns (r: Result<(), DirError>)
      requires Valid()
      modifies this`issues
      ensures match Raise(c, old(Model()), e)
              case Err(e) => r == Err(e) && Model() == old(Model())
              case Ok(d) => r == Ok(()) && Model() == d
    {
      if e.Severity().RaisedAt(c.level) {
        return Err(e);
      }
      issues := issues + [e];
      return Ok(());
    }

    /** _check_duplicate_stream. */
    method CheckDuplicate(start: nat, minifat: bool) returns (r: Result<(), DirError>)
      requires Valid()
      modifies this`usedFat, this`usedMini, this`issues
      ensures match CheckDuplicateStream(c, old(Model()), start, minifat)
              case Err(e) => r == Err(e)
              case Ok(d) => r == Ok(()) && Model() == d
    {
      r := Ok(());
      if minifat {
        if start in usedMini {
          r := RaiseDefect(StreamReferencedTwice);
        } else {
          usedMini := usedMini + [start];
        }
      } else if SpecialSector(start) {
        return;
      } else if start in usedFat {
        r := RaiseDefect(StreamReferencedTwice);
      } else {
        usedFat := usedFat + [start];
      }
    }

    /** `r` is what comes of reporting `defects` on `d`, and the directory now is what that leaves. */
    ghost predicate Reported(d: Dir, defects: seq<DirError>, r: Result<(), DirError>)
      reads this, Objects()
    {
      match Report(c, d, defects)
      case Err(e) => r == Err(e)
      case Ok(d1) => r == Ok(()) && Model() == d1
    }

    /** One of the tests made while a record is parsed, unless an earlier one has failed. */
    method RaiseIf(before: Result<(), DirError>, bad: bool, e: DirError, ghost d: Dir, ghost earlier: seq<DirError>)
      returns (r: Result<(), DirError>)
      requires Valid() && Reported(d, earlier, before)
      modifies this`issues
      ensures Reported(d, earlier + if bad then [e] else [], r)
    {
      ReportMore(c, d, earlier, if bad then [e] else []);
      r := before;
      if before.Ok? && bad {
        r := RaiseDefect(e);
      }
    }

    /** The checks made while a record is parsed. */
    method CheckRaw(sid: nat, raw: RawEntry) returns (r: Result<(), DirError>)
      requires Valid()
      modifies this`usedFat, this`usedMini, this`issues
      ensures match CheckRecord(c, old(Model()), sid, raw)
              case Err(e) => r == Err(e)
              case Ok(d) => r == Ok(()) && Model() == d
    {
      r := CheckFields(sid, raw);
      if r.Err? {
        return;
      }
      if c.OwnsFatStream(raw) {
        r := CheckDuplicate(raw.start, false);
      } else if c.OwnsMiniStream(raw) {
        r := CheckDuplicate(raw.start, true);
      }
    }

    method CheckFields(sid: nat, raw: RawEntry) returns (r: Result<(), DirError>)
      requires Valid()
      modifies this`issues
      ensures Reported(old(Model()), RecordDefects(c, sid, raw), r)
    {
      ghost var d := Model();
      r := Ok(());
      assert Reported(d, [], r);
      hide Reported;
      var bad := raw.entryType !in {STGTY_ROOT, STGTY_STORAGE, STGTY_STREAM, STGTY_EMPTY};
      r := RaiseIf(r, bad, UnhandledType, d, []);
      ghost var found := if bad then [UnhandledType] else [];
      assert [] + found == found;
      bad := raw.entryType == STGTY_ROOT && sid != 0;
      r := RaiseIf(r, bad, DuplicateRoot, d, found);
      found := found + if bad then [DuplicateRoot] else [];
      bad := sid == 0 && raw.entryType != STGTY_ROOT;
      r := RaiseIf(r, bad, IncorrectRoot, d, found);
      found := found + if bad then [IncorrectRoot] else [];
      bad := raw.nameLength > 64;
      r := RaiseIf(r, bad, NameTooLong, d, found);
      found := found + if bad then [NameTooLong] else [];
      bad := c.sectorSize == 512 && raw.sizeHigh != 0 && raw.sizeHigh != 0xFFFF_FFFF;
      r := RaiseIf(r, bad, IncorrectStreamSize, d, found);
      found := found + if bad then [IncorrectStreamSize] else [];
      bad := raw.entryType == STGTY_STORAGE && c.Size(raw) != 0;
      r := RaiseIf(r, bad, StorageWithSize, d, found);
      assert RecordDefects(c, sid, raw) == found + if bad then [StorageWithSize] else [];
    }

    /** _load_direntry. */
    method LoadDirentry(sid: nat) returns (r: Result<DirEntry, DirError>)
      requires Valid()
      modifies this
      ensures match Load(c, old(Model()), sid)
              case Err(e) => r == Err(e)
              case Ok(d) =>
                && r.Ok? && Valid() && Model() == d && r.value.sid == sid
                && Holds(r.value) && Keeps(old(direntries)) && fresh(Objects() - old(Objects()))
    {
      if sid >= |direntries| {
        return Err(IndexOutOfRange);
      }
      var known := direntries[sid];
      if known != null {
        var raised := RaiseDefect(DoubleReference);
        return if raised.Err? then Err(raised.error) else Ok(known);
      }
      RecordKeepsEntries(c, Model(), sid, c.records[sid]);
      var checked := CheckRaw(sid, c.records[sid]);
      if checked.Err? {
        return Err(checked.error);
      }
      var e := AddEntry(sid);
      return Ok(e);
    }

    method AddEntry(sid: nat) returns (e: DirEntry)
      requires Valid() && sid < |direntries| && direntries[sid] == null
      modifies this`direntries
      ensures Valid() && e.sid == sid && Holds(e) && Keeps(old(direntries)) && fresh(Objects() - old(Objects()))
      ensures Model() == old(Model()).Put(sid, Entry(c.records[sid], [], map[], false))
    {
      ghost var d := Model();
      e := new DirEntry(sid, c.records[sid]);
      direntries := direntries[sid := e];
      forall o | o in Objects() ensures o == e || o in old(Objects()) {
        var i :| 0 <= i < |direntries| && direntries[i] != null && o == direntries[i] as object;
        assert i == sid || direntries[i] == old(direntries)[i];
      }
      assert Model().entries == d.Put(sid, e.Value()).entries;
    }

    /** The part of append_kids between the two subtrees: lists `child` under `parent`. */
    method AdoptChild(parent: DirEntry, child: DirEntry) returns (r: Result<(), DirError>)
      requires Valid() && Holds(parent) && Holds(child)
      modifies this`issues, parent, child
      ensures Valid()
      ensures match Adopt(c, old(Model()), parent.sid, child.sid)
              case Err(e) => r == Err(e)
              case Ok(d) => r == Ok(()) && Model() == d && Grows(old(Model()), d)
    {
      var key := c.lower(child.raw.name);
      if key in parent.kidsDict {
        r := RaiseDefect(DuplicateFilename);
        if r.Err? {
          return;
        }
      }
      AddKid(parent, key, child.sid);
      r := Ok(());
      if child.used {
        r := RaiseDefect(EntryReferencedTwice);
        if r.Err? {
          return;
        }
      }
      MarkUsed(child);
    }

    method AddKid(parent: DirEntry, key: string, sid: nat)
      requires Valid() && Holds(parent)
      modifies parent
      ensures Valid()
      ensures var p := old(Model()).Get(parent.sid);
              Model() == old(Model()).Put(parent.sid, p.(kids := p.kids + [sid], kidsDict := p.kidsDict[key := sid]))
    {
      ghost var d := Model();
      ghost var p := d.Get(parent.sid);
      parent.kids := parent.kids + [sid];
      parent.kidsDict := parent.kidsDict[key := sid];
      assert Model().entries
          == d.Put(parent.sid, p.(kids := p.kids + [sid], kidsDict := p.kidsDict[key := sid])).entries;
    }

    method MarkUsed(child: DirEntry)
      requires Valid() && Holds(child)
      modifies child
      ensures Valid() && Model() == old(Model()).Put(child.sid, old(Model()).Get(child.sid).(used := true))
    {
      ghost var d := Model();
      child.used := true;
      assert Model().entries == d.Put(child.sid, d.Get(child.sid).(used := true)).entries;
    }

    twostate lemma StillHolds(e: DirEntry)
      requires old(Holds(e)) && Keeps(old(direntries))
      ensures Holds(e)
    {
    }

    /** append_kids as far as the child itself: its record, its left subtree, then its place in the list. */
    method AppendLeft(parent: DirEntry, childSid: nat, depth: nat, ghost d: Dir) returns (r: Result<DirEntry, DirError>)
      requires Valid() && Holds(parent) && d == Model() && Fits(c, d) && d.Loaded(parent.sid)
      modifies this, Objects()
      decreases depth, 2
      ensures r.Err? ==> DirectoryTree.AppendLeft(c, d, parent.sid, childSid, depth) == Err(r.error)
      ensures r.Ok? ==> DirectoryTree.AppendLeft(c, d, parent.sid, childSid, depth) == Ok(Model()) && Valid()
      ensures r.Ok? ==> Keeps(old(direntries)) && fresh(Objects() - old(Objects()))
      ensures r.Ok? ==> Holds(r.value) && r.value.sid == childSid
    {
      hide Load, Adopt, Grows, Model, ValueOf;
      var loaded := LoadDirentry(childSid);
      if loaded.Err? {
        return Err(loaded.error);
      }
      var child := loaded.value;
      var left := AppendKids(parent, child.raw.left, depth, Model());
      if left.Err? {
        return Err(left.error);
      }
      var adopted := AdoptChild(parent, child);
      if adopted.Err? {
        return Err(adopted.error);
      }
      return Ok(child);
    }

    /** append_kids from there on: the right subtree, then the child's own children. */
    method AppendRight(parent: DirEntry, child: DirEntry, depth: nat, ghost d: Dir) returns (r: Result<(), DirError>)
      requires Valid() && Holds(parent) && Holds(child)
      requires d == Model() && Fits(c, d) && d.Loaded(parent.sid) && d.Loaded(child.sid)
      modifies this, Objects()
      decreases depth, 2
      ensures r.Err? ==> DirectoryTree.AppendRight(c, d, parent.sid, child.sid, depth) == Err(r.error)
      ensures r.Ok? ==> DirectoryTree.AppendRight(c, d, parent.sid, child.sid, depth) == Ok(Model()) && Valid()
      ensures r.Ok? ==> Keeps(old(direntries)) && fresh(Objects() - old(Objects()))
    {
      assert child.raw == c.records[child.sid];
      hide Grows, Dir.Loaded, Model, ValueOf, Holds;
      r := AppendKids(parent, child.raw.right, depth, d);
      if r.Err? {
        return;
      }
      StillHolds(child);
      GrowsLoadedSid(d, Model(), child.sid);
      r := BuildStorageTree(child, depth, Model());
    }

    /** append_kids: walks the left subtree, the child itself, the right subtree, then the child's own children. */
    method AppendKids(parent: DirEntry, childSid: nat, depth: nat, ghost d: Dir) returns (r: Result<(), DirError>)
      requires Valid() && Holds(parent) && d == Model() && Fits(c, d) && d.Loaded(parent.sid)
      modifies this, Objects()
      decreases depth, 1
      ensures r.Err? ==> DirectoryTree.AppendKids(c, d, parent.sid, childSid, depth) == Err(r.error)
      ensures r.Ok? ==> DirectoryTree.AppendKids(c, d, parent.sid, childSid, depth) == Ok(Model()) && Valid()
      ensures r.Ok? ==> Keeps(old(direntries)) && fresh(Objects() - old(Objects()))
    {
      hide DirectoryTree.AppendLeft, DirectoryTree.AppendRight, Grows, Dir.Loaded, Model, ValueOf, Holds;
      if depth == 0 {
        return Err(RecursionLimit);
      }
      if childSid == NOSTREAM {
        return Ok(());
      }
      var child := AppendLeft(parent, childSid, depth - 1, d);
      if child.Err? {
        return Err(child.error);
      }
      StillHolds(parent);
      GrowsLoadedSid(d, Model(), parent.sid);
      r := AppendRight(parent, child.value, depth - 1, Model());
    }

    /** build_storage_tree. */
    method BuildStorageTree(e: DirEntry, depth: nat, ghost d: Dir) returns (r: Result<(), DirError>)
      requires Valid() && Holds(e) && d == Model() && Fits(c, d) && d.Loaded(e.sid)
      modifies this, Objects()
      decreases depth, 1
      ensures r.Err? ==> BuildTree(c, d, e.sid, depth) == Err(r.error)
      ensures r.Ok? ==> BuildTree(c, d, e.sid, depth) == Ok(Model()) && Valid()
      ensures r.Ok? ==> Keeps(old(direntries)) && fresh(Objects() - old(Objects()))
    {
      hide Model, ValueOf, DirectoryTree.AppendKids, Grows, SortByName, SortKids;
      if depth == 0 {
        return Err(RecursionLimit);
      }
      if e.raw.child == NOSTREAM {
        return Ok(());
      }
      r := AppendKids(e, e.raw.child, depth - 1, d);
      if r.Ok? {
        SortKidsOf(e);
      }
    }

    /** `self.kids.sort()`. */
    method SortKidsOf(e: DirEntry)
      requires Valid() && Holds(e)
      modifies e
      ensures Valid() && Model() == SortKids(c, old(Model()), e.sid)
    {
      e.kids := SortByName(c, e.kids);
      assert Model().entries == SortKids(c, old(Model()), e.sid).entries;
    }

    /** loaddirectory. */
    method LoadDirectory(depth: nat, ghost d: Dir) returns (r: Result<(), DirError>)
      requires Valid() && d == Model() && Fits(c, d)
      modifies this, Objects()
      ensures r.Err? ==> DirectoryTree.LoadDirectory(c, d, depth) == Err(r.error)
      ensures r.Ok? ==> DirectoryTree.LoadDirectory(c, d, depth) == Ok(Model()) && Valid()
    {
      LoadDirectorySteps(c, d, depth);
      hide *;
      var root := LoadDirentry(0);
      if root.Err? {
        return Err(root.error);
      }
      r := BuildStorageTree(root.value, depth, Model());
    }

    /** `t` has the entries of the directory. */
    ghost predicate Shows(t: Dir)
      reads this, Objects()
    {
      && |t.entries| == |direntries|
      && forall i :: 0 <= i < |direntries| ==> t.entries[i] == ValueOf(direntries[i])
    }

    /** A loaded entry is an object of the directory. */
    lemma LoadedObject(t: Dir, rank: map<nat, nat>, sid: nat)
      requires Valid() && Shows(t) && Descends(c, t, rank) && t.Loaded(sid)
      ensures sid < |direntries| && direntries[sid] != null
      ensures Holds(direntries[sid]) && direntries[sid].sid == sid
      ensures direntries[sid].kids == t.Get(sid).kids && direntries[sid].raw == t.Get(sid).raw
      ensures direntries[sid].raw.name == c.Name(sid)
    {
      assert t.entries[sid] == ValueOf(direntries[sid]);
      assert DescendsFrom(c, t, rank, sid);
    }

    /** _find: walks the path, taking at each step the first child with a matching name. */
    method FindPath(path: Path, ghost t: Dir, ghost rank: map<nat, nat>)
      returns (r: Result<nat, DirError>)
      requires Valid() && t == Model() && Descends(c, t, rank) && t.Loaded(0)
      ensures r == Find(c, t, path)
    {
      assert Shows(t);
      hide Descends, DescendsFrom, Model, ValueOf, FindKid, Shows;
      var node: nat := 0;
      assert path[0..] == path;
      for i := 0 to |path|
        invariant t.Loaded(node)
        invariant FindFrom(c, t, node, path[i..]) == Find(c, t, path)
      {
        LoadedObject(t, rank, node);
        assert path[i..][0] == path[i] && path[i..][1..] == path[i + 1..];
        var j := FirstMatch(direntries[node].kids, path[i]);
        if j == |direntries[node].kids| {
          return Err(FileNotFound);
        }
        KidIsLoaded(c, t, rank, node, j);
        node := direntries[node].kids[j];
      }
      return Ok(node);
    }

    /** The inner loop of _find. */
    method FirstMatch(kids: seq<nat>, name: string) returns (j: nat)
      ensures j <= |kids| && FindKid(c, kids, name) == if j == |kids| then None else Some(kids[j])
    {
      j := 0;
      assert kids[0..] == kids;
      while j < |kids| && c.lower(c.Name(kids[j])) != c.lower(name)
        invariant 0 <= j <= |kids|
        invariant FindKid(c, kids[j..], name) == FindKid(c, kids, name)
      {
        assert kids[j..][0] == kids[j] && kids[j..][1..] == kids[j + 1..];
        j := j + 1;
      }
      assert j < |kids| ==> kids[j..][0] == kids[j];
    }

    /** listdir; defects that are not raised are recorded. */
    method ListDirectory(streams: bool, storages: bool, ghost t: Dir, ghost rank: map<nat, nat>)
      returns (r: Result<seq<Listed>, DirError>)
      requires Valid() && t == Model() && Descends(c, t, rank) && Within(t, rank, 0, |rank|)
      modifies this`issues
      ensures Valid() && Shows(t)
      ensures r == ListDir(c, t, streams, storages, rank)
      ensures issues == old(issues) + Recorded(c, OddBelow(c, t, 0, rank, |rank|))
    {
      assert Shows(t);
      hide Descends, DescendsFrom, Within, Model, ValueOf, List, Objects, Holds, Shows;
      WithinLoads(t, rank, 0, |rank|);
      LoadedObject(t, rank, 0);
      r := ListInto([], [], direntries[0], streams, storages, t, rank, |rank|);
      if r.Ok? {
        ghost var listed := ListDir(c, t, streams, storages, rank).value;
        assert [] + listed == listed;
      }
    }

    /** _list: appends to `files` what lies below `node`. */
    method ListInto(files: seq<Listed>, prefix: Path, node: DirEntry, streams: bool, storages: bool,
                    ghost t: Dir, ghost rank: map<nat, nat>, ghost height: nat)
      returns (r: Result<seq<Listed>, DirError>)
      requires Valid() && Shows(t) && Holds(node)
      requires Descends(c, t, rank) && Within(t, rank, node.sid, height)
      modifies this`issues
      decreases height, 0
      ensures Valid() && Shows(t)
      ensures r == Appended(files, List(c, t, prefix, node.sid, streams, storages, rank, height))
      ensures issues == old(issues) + Recorded(c, OddBelow(c, t, node.sid, rank, height))
    {
      assert direntries[node.sid] == node;
      hide Descends, DescendsFrom, Within, Below, ValueOf, ListKid, OddKid, Objects, Holds, OddIsRaised, Shows,
           ListKids, OddKids, OddBelow, Appended, Recorded, FailsOnOdd, List, Grows, Context.Name;
      LoadedObject(t, rank, node.sid);
      ListIsKids(c, t, prefix, node.sid, streams, storages, rank, height);
      var prefix' := prefix + [node.raw.name];
      var kids := node.kids;
      assert kids[0..] == kids;
      var out := files;
      ghost var due := issues + Recorded(c, OddKids(c, t, kids, rank, height - 1));
      for i := 0 to |kids|
        invariant Valid() && Shows(t)
        invariant Below(t, rank, kids[i..], height - 1)
        invariant Appended(files, ListKids(c, t, prefix', kids, streams, storages, rank, height - 1))
               == Appended(out, ListKids(c, t, prefix', kids[i..], streams, storages, rank, height - 1))
        invariant issues + Recorded(c, OddKids(c, t, kids[i..], rank, height - 1)) == due
      {
        ListStep(c, t, prefix', kids, i, streams, storages, rank, height - 1, out);
        ListKidFails(c, t, prefix', kids[i], streams, storages, rank, height - 1);
        OneListed(c, out, ListKid(c, t, prefix', kids[i], streams, storages, rank, height - 1),
                  OddKid(c, t, kids[i], rank, height - 1));
        OneRecorded(c, issues, OddKid(c, t, kids[i], rank, height - 1), OddKids(c, t, kids[i + 1..], rank, height - 1));
        var more := ListOne(out, prefix', kids[i], streams, storages, t, rank, height - 1);
        if more.Err? {
          NothingRecorded(c, issues, OddKids(c, t, kids[i + 1..], rank, height - 1));
          return more;
        }
        out := more.value;
      }
      NoneLeft(c, t, prefix', kids, streams, storages, rank, height - 1, out);
      return Ok(out);
    }

    /** The body of the loop of _list. */
    method ListOne(files: seq<Listed>, prefix: Path, kid: nat, streams: bool, storages: bool,
                   ghost t: Dir, ghost rank: map<nat, nat>, ghost height: nat)
      returns (r: Result<seq<Listed>, DirError>)
      requires Valid() && Shows(t) && prefix != []
      requires Descends(c, t, rank) && Within(t, rank, kid, height)
      modifies this`issues
      decreases height, 1
      ensures Valid() && Shows(t)
      ensures r == Appended(files, ListKid(c, t, prefix, kid, streams, storages, rank, height))
      ensures issues == old(issues) + Recorded(c, OddKid(c, t, kid, rank, height))
    {
      hide Descends, DescendsFrom, ValueOf, List, OddBelow, Objects, Holds;
      LoadedObject(t, rank, kid);
      var entry := direntries[kid];
      var self := Listed(prefix[1..] + [entry.raw.name], kid);
      if entry.raw.entryType == STGTY_STORAGE {
        var out := if storages then files + [self] else files;
        r := ListInto(out, prefix, entry, streams, storages, t, rank, height);
        AppendedTwice(files, if storages then [self] else [],
                      List(c, t, prefix, kid, streams, storages, rank, height));
        assert files + [] == files;
      } else if entry.raw.entryType == STGTY_STREAM {
        r := Ok(if streams then files + [self] else files);
        assert files + [] == files && issues + [] == issues;
      } else {
        assert files + [] == files && issues + [] == issues;
        var raised := RaiseDefect(NeitherStreamNorStorage);
        r := if raised.Err? then Err(raised.error) else Ok(files);
      }
    }
  }

  /** The issues that are recorded for odd entries. */
  ghost function Recorded(c: Context, odd: seq<DirError>): seq<DirError> {
    if OddIsRaised(c) then [] else odd
  }

  lemma OneRecorded(c: Context, issues: seq<DirError>, here: seq<DirError>, rest: seq<DirError>)
    ensures issues + Recorded(c, here + rest) == issues + Recorded(c, here) + Recorded(c, rest)
  {
  }

  lemma NothingRecorded(c: Context, issues: seq<DirError>, odd: seq<DirError>)
    requires OddIsRaised(c)
    ensures issues + Recorded(c, odd) == issues
  {
  }

  /** One turn of the loop of _list. */
  lemma ListStep(c: Context, t: Dir, prefix: Path, kids: seq<nat>, i: nat, streams: bool, storages: bool,
                 rank: map<nat, nat>, height: nat, out: seq<Listed>)
    requires Descends(c, t, rank) && i < |kids| && Below(t, rank, kids[i..], height) && prefix != []
    ensures Within(t, rank, kids[i], height) && Below(t, rank, kids[i + 1..], height)
    ensures var here := ListKid(c, t, prefix, kids[i], streams, storages, rank, height);
            Appended(out, ListKids(c, t, prefix, kids[i..], streams, storages, rank, height))
            == match here
               case Err(e) => Err(e)
               case Ok(more) =>
                 Appended(out + more, ListKids(c, t, prefix, kids[i + 1..], streams, storages, rank, height))
    ensures OddKids(c, t, kids[i..], rank, height)
         == OddKid(c, t, kids[i], rank, height) + OddKids(c, t, kids[i + 1..], rank, height)
  {
    hide Descends, Within, Below, ListKid, OddKid;
    BelowTail(t, rank, kids[i..], height);
    assert kids[i..][0] == kids[i] && kids[i..][1..] == kids[i + 1..];
    var here := ListKid(c, t, prefix, kids[i], streams, storages, rank, height);
    if here.Ok? {
      AppendedTwice(out, here.value, ListKids(c, t, prefix, kids[i + 1..], streams, storages, rank, height));
    }
  }

  lemma OneListed(c: Context, out: seq<Listed>, r: Result<seq<Listed>, DirError>, odd: seq<DirError>)
    requires FailsOnOdd(c, r, odd)
    ensures r.Err? ==> Appended(out, r) == Err(r.error) && OddIsRaised(c)
    ensures r.Ok? ==> Appended(out, r) == Ok(out + r.value)
  {
  }

  lemma NoneLeft(c: Context, t: Dir, prefix: Path, kids: seq<nat>, streams: bool, storages: bool,
                 rank: map<nat, nat>, height: nat, out: seq<Listed>)
    requires Descends(c, t, rank) && Below(t, rank, kids[|kids|..], height) && prefix != []
    ensures Appended(out, ListKids(c, t, prefix, kids[|kids|..], streams, storages, rank, height)) == Ok(out)
    ensures Recorded(c, OddKids(c, t, kids[|kids|..], rank, height)) == []
  {
    assert out + [] == out;
  }

  lemma LoadDirectorySteps(c: Context, d: Dir, depth: nat)
    requires Fits(c, d)
    ensures Load(c, d, 0).Err? ==> DirectoryTree.LoadDirectory(c, d, depth) == Err(Load(c, d, 0).error)
    ensures Load(c, d, 0).Ok? ==>
              && Fits(c, Load(c, d, 0).value) && Load(c, d, 0).value.Loaded(0)
              && DirectoryTree.LoadDirectory(c, d, depth) == BuildTree(c, Load(c, d, 0).value, 0, depth)
  {
  }

  lemma KidIsLoaded(c: Context, t: Dir, rank: map<nat, nat>, node: nat, j: nat)
    requires Descends(c, t, rank) && t.Loaded(node) && j < |t.Get(node).kids|
    ensures t.Loaded(t.Get(node).kids[j])
  {
    assert DescendsFrom(c, t, rank, node);
  }

  ghost function Appended(files: seq<Listed>, r: Result<seq<Listed>, DirError>): Result<seq<Listed>, DirError> {
    match r
    case Err(e) => Err(e)
    case Ok(more) => Ok(files + more)
  }

  lemma AppendedTwice(a: seq<Listed>, b: seq<Listed>, r: Result<seq<Listed>, DirError>)
    ensures Appended(a, Appended(b, r)) == Appended(a + b, r)
  {
    if r.Ok? { assert a + (b + r.value) == (a + b) + r.value; }
  }
}
