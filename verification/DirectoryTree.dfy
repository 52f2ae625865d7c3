/** Loading the directory: _load_direntry, append_kids and build_storage_tree as functions on values. */
module DirectoryTree {
  import opened Common
  import opened SectorChains

  const NOSTREAM: nat := 0xFFFF_FFFF

  const STGTY_EMPTY := 0
  const STGTY_STORAGE := 1
  const STGTY_STREAM := 2
  const STGTY_ROOT := 5

  datatype DirError =
    | IndexOutOfRange
    | DoubleReference
    | UnhandledType
    | DuplicateRoot
    | IncorrectRoot
    | NameTooLong
    | IncorrectStreamSize
    | StorageWithSize
    | StreamReferencedTwice
    | DuplicateFilename
    | EntryReferencedTwice
    | NeitherStreamNorStorage
    | FileNotFound
    | RecursionLimit
  {
    /** The severity a defect is reported with. */
    function Severity(): Severity {
      match this
      case IncorrectStreamSize => Unsure
      case StorageWithSize => Potential
      case IndexOutOfRange | FileNotFound | RecursionLimit => Fatal
      case _ => Incorrect
    }
  }

  /** A directory record as stored in the file, its name already decoded. */
  datatype RawEntry = RawEntry(
    name: string,
    nameLength: nat,
    entryType: nat,
    left: nat,
    right: nat,
    child: nat,
    start: nat,
    sizeLow: nat,
    sizeHigh: nat)

  /** A loaded record: its children's sids in `kids`, and indexed by lower-case name in `kidsDict`. */
  datatype Entry = Entry(raw: RawEntry, kids: seq<nat>, kidsDict: map<string, nat>, used: bool)

  /** What does not change while the directory is loaded. */
  datatype Context = Context(
    records: seq<RawEntry>,
    lower: string -> string,
    sectorSize: nat,
    cutoff: nat,
    level: Severity)
  {
    /** Defects of severity "incorrect" are raised, so that a double reference is an error. */
    ghost predicate Strict() { Incorrect.RaisedAt(level) }

    /** The name an entry gets when its record is loaded. */
    function Name(sid: nat): string {
      if sid < |records| then records[sid].name else ""
    }

    function Size(raw: RawEntry): nat {
      if sectorSize == 512 then raw.sizeLow else raw.sizeLow + 0x1_0000_0000 * raw.sizeHigh
    }

    /** Does the entry own a sector chain in the FAT (as opposed to the MiniFAT, or none)? */
    predicate OwnsFatStream(raw: RawEntry) {
      && (raw.entryType == STGTY_ROOT || raw.entryType == STGTY_STREAM)
      && Size(raw) > 0
      && !(Size(raw) < cutoff && raw.entryType == STGTY_STREAM)
    }

    predicate OwnsMiniStream(raw: RawEntry) {
      Size(raw) > 0 && Size(raw) < cutoff && raw.entryType == STGTY_STREAM
    }
  }

  /** Entries not loaded yet are None; the next two lists hold the first sectors of the streams seen so far,
      and `issues` the defects that were recorded and not raised. */
  datatype Dir = Dir(entries: seq<Option<Entry>>, usedFat: seq<nat>, usedMini: seq<nat>, issues: seq<DirError>) {
    predicate Loaded(sid: nat) {
      sid < |entries| && entries[sid].Some?
    }

    ghost function Unloaded(): set<nat> {
      set sid: nat | sid < |entries| && entries[sid].None?
    }

    function Get(sid: nat): Entry
      requires Loaded(sid)
    {
      entries[sid].value
    }

    function Put(sid: nat, e: Entry): Dir
      requires sid < |entries|
    {
      this.(entries := entries[sid := Some(e)])
    }
  }

  // ----- Loading one record

  predicate SpecialSector(sect: nat) {
    sect == DIFSECT || sect == FATSECT || sect == ENDOFCHAIN || sect == FREESECT
  }

  /** _raise_defect: an error, or one more recorded issue. */
  function Raise(c: Context, d: Dir, e: DirError): Result<Dir, DirError> {
    if e.Severity().RaisedAt(c.level) then Err(e) else Ok(d.(issues := d.issues + [e]))
  }

  /** _raise_defect for one defect after the other. */
  function Report(c: Context, d: Dir, defects: seq<DirError>): Result<Dir, DirError>
    decreases |defects|
  {
    if defects == [] then Ok(d)
    else
      match Raise(c, d, defects[0])
      case Err(e) => Err(e)
      case Ok(d1) => Report(c, d1, defects[1..])
  }

  /** _check_duplicate_stream. */
  function CheckDuplicateStream(c: Context, d: Dir, start: nat, minifat: bool): Result<Dir, DirError> {
    if minifat then
      if start in d.usedMini then Raise(c, d, StreamReferencedTwice)
      else Ok(d.(usedMini := d.usedMini + [start]))
    else if SpecialSector(start) then Ok(d)
    else if start in d.usedFat then Raise(c, d, StreamReferencedTwice)
    else Ok(d.(usedFat := d.usedFat + [start]))
  }

  /** The defects that a record shows by itself, in the order in which they are looked for. */
  function RecordDefects(c: Context, sid: nat, raw: RawEntry): seq<DirError> {
    (if raw.entryType !in {STGTY_ROOT, STGTY_STORAGE, STGTY_STREAM, STGTY_EMPTY} then [UnhandledType] else [])
    + (if raw.entryType == STGTY_ROOT && sid != 0 then [DuplicateRoot] else [])
    + (if sid == 0 && raw.entryType != STGTY_ROOT then [IncorrectRoot] else [])
    + (if raw.nameLength > 64 then [NameTooLong] else [])
    + (if c.sectorSize == 512 && raw.sizeHigh != 0 && raw.sizeHigh != 0xFFFF_FFFF then [IncorrectStreamSize] else [])
    + (if raw.entryType == STGTY_STORAGE && c.Size(raw) != 0 then [StorageWithSize] else [])
  }

  /** The checks of the constructor of _OleDirectoryEntry. */
  function CheckRecord(c: Context, d: Dir, sid: nat, raw: RawEntry): Result<Dir, DirError> {
    match Report(c, d, RecordDefects(c, sid, raw))
    case Err(e) => Err(e)
    case Ok(d1) => CheckHead(c, d1, raw)
  }

  /** The last of them, for an entry that owns a chain of sectors. */
  function CheckHead(c: Context, d: Dir, raw: RawEntry): Result<Dir, DirError> {
    if c.OwnsFatStream(raw) then CheckDuplicateStream(c, d, raw.start, false)
    else if c.OwnsMiniStream(raw) then CheckDuplicateStream(c, d, raw.start, true)
    else Ok(d)
  }

  lemma {:induction false} ReportKeepsEntries(c: Context, d: Dir, defects: seq<DirError>)
    ensures Report(c, d, defects).Ok? ==> Report(c, d, defects).value == d.(issues := d.issues + defects)
    ensures c.Strict() && Report(c, d, defects).Ok? ==>
              forall e :: e in defects ==> e.Severity() == Unsure || e.Severity() == Potential
    decreases |defects|
  {
    if defects != [] && Report(c, d, defects).Ok? {
      ReportKeepsEntries(c, Raise(c, d, defects[0]).value, defects[1..]);
      assert defects == [defects[0]] + defects[1..];
      assert d.issues + [defects[0]] + defects[1..] == d.issues + defects;
    } else {
      assert d.issues + [] == d.issues;
    }
  }

  /** Defects are reported one after the other. */
  lemma {:induction false} ReportMore(c: Context, d: Dir, defects: seq<DirError>, more: seq<DirError>)
    ensures Report(c, d, defects + more) == match Report(c, d, defects)
                                            case Err(e) => Err(e)
                                            case Ok(d1) => Report(c, d1, more)
    decreases |defects|
  {
    if defects == [] {
      assert defects + more == more;
    } else {
      assert (defects + more)[0] == defects[0] && (defects + more)[1..] == defects[1..] + more;
      if Raise(c, d, defects[0]).Ok? {
        ReportMore(c, Raise(c, d, defects[0]).value, defects[1..], more);
      }
    }
  }

  lemma RecordKeepsEntries(c: Context, d: Dir, sid: nat, raw: RawEntry)
    ensures CheckRecord(c, d, sid, raw).Ok? ==> CheckRecord(c, d, sid, raw).value.entries == d.entries
  {
    ReportKeepsEntries(c, d, RecordDefects(c, sid, raw));
  }

  /** What every successful step keeps: records stay loaded with the same content. */
  ghost predicate Grows(d: Dir, d': Dir) {
    && |d.entries| == |d'.entries|
    && forall s :: d.Loaded(s) ==> d'.Loaded(s) && d'.Get(s).raw == d.Get(s).raw
  }

  lemma GrowsUnloaded(d: Dir, d': Dir)
    requires Grows(d, d')
    ensures d'.Unloaded() <= d.Unloaded()
  {
    forall s | s in d'.Unloaded() ensures s in d.Unloaded() {
      assert !d'.Loaded(s);
    }
  }

  lemma GrowsLoadedSid(d: Dir, d': Dir, sid: nat)
    requires Grows(d, d') && d.Loaded(sid)
    ensures d'.Loaded(sid)
  {
  }

  ghost predicate Fits(c: Context, d: Dir) {
    |c.records| == |d.entries|
  }

  /** _load_direntry. */
  function Load(c: Context, d: Dir, sid: nat): (r: Result<Dir, DirError>)
    requires Fits(c, d)
    ensures r.Ok? ==> Fits(c, r.value) && Grows(d, r.value) && r.value.Loaded(sid)
    ensures r.Ok? ==> r.value.Unloaded() == d.Unloaded() - {sid}
    ensures r.Ok? && c.Strict() ==> sid in d.Unloaded()
  {
    if sid >= |d.entries| then Err(IndexOutOfRange)
    else if d.entries[sid].Some? then Raise(c, d, DoubleReference)
    else
      RecordKeepsEntries(c, d, sid, c.records[sid]);
      match CheckRecord(c, d, sid, c.records[sid])
      case Err(e) => Err(e)
      case Ok(d1) => Ok(d1.Put(sid, Entry(c.records[sid], [], map[], false)))
  }

  // ----- Building the tree

  /** Lists `sid` as a child of `parent`. */
  function Adopt(c: Context, d: Dir, parent: nat, sid: nat): (r: Result<Dir, DirError>)
    requires d.Loaded(parent) && d.Loaded(sid)
    ensures r.Ok? ==> Grows(d, r.value)
  {
    var key := c.lower(c.Name(sid));
    match (if key in d.Get(parent).kidsDict then Raise(c, d, DuplicateFilename) else Ok(d))
    case Err(e) => Err(e)
    case Ok(d1) =>
      var p := d1.Get(parent);
      var d2 := d1.Put(parent, p.(kids := p.kids + [sid], kidsDict := p.kidsDict[key := sid]));
      match (if d2.Get(sid).used then Raise(c, d2, EntryReferencedTwice) else Ok(d2))
      case Err(e) => Err(e)
      case Ok(d3) => Ok(d3.Put(sid, d3.Get(sid).(used := true)))
  }

  /** append_kids up to the point where `sid` itself is listed: its record, its left subtree, then itself. */
  function AppendLeft(c: Context, d: Dir, parent: nat, sid: nat, depth: nat): (r: Result<Dir, DirError>)
    requires Fits(c, d) && d.Loaded(parent)
    ensures r.Ok? ==> Fits(c, r.value) && Grows(d, r.value) && r.value.Loaded(sid)
    decreases depth, 2
  {
    match Load(c, d, sid)
    case Err(e) => Err(e)
    case Ok(d1) =>
      match AppendKids(c, d1, parent, c.records[sid].left, depth)
      case Err(e) => Err(e)
      case Ok(d2) => Adopt(c, d2, parent, sid)
  }

  /** append_kids from there on: the right subtree, and last the children of `sid` itself. */
  function AppendRight(c: Context, d: Dir, parent: nat, sid: nat, depth: nat): (r: Result<Dir, DirError>)
    requires Fits(c, d) && d.Loaded(parent) && d.Loaded(sid)
    ensures r.Ok? ==> Fits(c, r.value) && Grows(d, r.value)
    decreases depth, 2
  {
    match AppendKids(c, d, parent, c.records[sid].right, depth)
    case Err(e) => Err(e)
    case Ok(d1) => BuildTree(c, d1, sid, depth)
  }

  /** append_kids; the interpreter allows `depth` more calls inside each other. */
  function AppendKids(c: Context, d: Dir, parent: nat, sid: nat, depth: nat): (r: Result<Dir, DirError>)
    requires Fits(c, d) && d.Loaded(parent)
    ensures r.Ok? ==> Fits(c, r.value) && Grows(d, r.value)
    decreases depth, 1
  {
    if depth == 0 then Err(RecursionLimit)
    else if sid == NOSTREAM then Ok(d)
    else
      match AppendLeft(c, d, parent, sid, depth - 1)
      case Err(e) => Err(e)
      case Ok(d1) => AppendRight(c, d1, parent, sid, depth - 1)
  }

  /** build_storage_tree. */
  function BuildTree(c: Context, d: Dir, sid: nat, depth: nat): (r: Result<Dir, DirError>)
    requires Fits(c, d) && d.Loaded(sid)
    ensures r.Ok? ==> Fits(c, r.value) && Grows(d, r.value)
    decreases depth, 1
  {
    if depth == 0 then Err(RecursionLimit)
    else if c.records[sid].child == NOSTREAM then Ok(d)
    else
      match AppendKids(c, d, sid, c.records[sid].child, depth - 1)
      case Err(e) => Err(e)
      case Ok(d1) => Ok(SortKids(c, d1, sid))
  }

  /** loaddirectory: the root, then everything below it. */
  function LoadDirectory(c: Context, d: Dir, depth: nat): (r: Result<Dir, DirError>)
    requires Fits(c, d)
    ensures r.Ok? ==> r.value.Loaded(0)
  {
    match Load(c, d, 0)
    case Err(e) => Err(e)
    case Ok(d1) => BuildTree(c, d1, 0, depth)
  }

  // ----- Sorting by name

  /** Code-point order of names. */
  predicate NameLess(a: string, b: string) {
    if b == [] then false
    else if a == [] then true
    else a[0] < b[0] || (a[0] == b[0] && NameLess(a[1..], b[1..]))
  }

  /** Inserts `sid` after the entries that are not greater, so that equal names keep their order. */
  function InsertByName(c: Context, sid: nat, sorted: seq<nat>): seq<nat> {
    if sorted == [] then [sid]
    else if NameLess(c.Name(sid), c.Name(sorted[0])) then [sid] + sorted
    else [sorted[0]] + InsertByName(c, sid, sorted[1..])
  }

  /** list.sort: the stable sort by name. */
  function SortByName(c: Context, sids: seq<nat>): seq<nat>
    decreases |sids|
  {
    if sids == [] then [] else InsertByName(c, sids[|sids| - 1], SortByName(c, sids[..|sids| - 1]))
  }

  function SortKids(c: Context, d: Dir, sid: nat): Dir
    requires d.Loaded(sid)
  {
    d.Put(sid, d.Get(sid).(kids := SortByName(c, d.Get(sid).kids)))
  }
}
