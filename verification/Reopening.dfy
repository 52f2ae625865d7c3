/** Opening a file from scratch, before and after one of its streams is rewritten by name. */
module Reopening {
  import opened Common
  import opened SectorChains
  import opened OleStream
  import opened StreamWriting
  import opened FatLoading
  import opened FatRewriting
  import opened MiniStreams
  import opened DirectoryTree
  import opened DirectoryProofs
  import opened DirectoryLevels
  import opened DirectoryLookup
  import opened StreamIsolation
  import opened NamedStreams

  datatype FileError =
    | FatFailed(fat: FatError)
    | DirectoryUnreadable(stream: OpenError)
    | DirectoryFailed(dir: DirError)
    | PathFailed(named: NamedError)

  /** The header, and how directory records are decoded and names folded to lower case. */
  datatype Format = Format(
    h: FatHeader,
    sectDirStart: nat,
    miniFatStart: nat,
    csectMiniFat: nat,
    miniSectorSize: nat,
    cutoff: nat,
    decode: seq<byte> -> seq<RawEntry>,
    lower: string -> string,
    level: Severity,
    depth: nat)
  {
    ghost predicate Valid() { h.Valid() && miniSectorSize > 0 }

    function ContextOf(records: seq<RawEntry>): Context {
      Context(records, lower, h.sectorSize, cutoff, level)
    }

    /** The streams that the header names, in the order in which they are checked for duplicates. */
    function HeaderStreams(): seq<nat> {
      [sectDirStart] + (if csectMiniFat > 0 then [miniFatStart] else [])
      + (if h.csectDif > 0 then [h.sectDifStart] else [])
    }
  }

  /** What an opened file has loaded. */
  datatype Opened = Opened(fat: seq<nat>, c: Context, t: Dir) {
    function Layout(f: Format): MiniLayout
      requires t.Loaded(0)
    {
      MiniLayout(f.miniFatStart, f.csectMiniFat, t.Get(0).raw.start, c.Size(t.Get(0).raw), f.miniSectorSize, f.cutoff)
    }
  }

  /** _check_duplicate_stream for one FAT stream after the other. */
  function CheckHeads(c: Context, d: Dir, heads: seq<nat>): Result<Dir, DirError>
    decreases |heads|
  {
    if heads == [] then Ok(d)
    else
      match CheckDuplicateStream(c, d, heads[0], false)
      case Err(e) => Err(e)
      case Ok(d1) => CheckHeads(c, d1, heads[1..])
  }

  lemma {:induction false} HeadsChecked(c: Context, d: Dir, heads: seq<nat>)
    ensures CheckHeads(c, d, heads).Ok? ==>
              var d' := CheckHeads(c, d, heads).value;
              && d'.entries == d.entries && (forall h :: h in d.usedFat ==> h in d'.usedFat)
              && forall h :: h in heads ==> h in d'.usedFat || SpecialSector(h)
    decreases |heads|
  {
    if heads != [] && CheckDuplicateStream(c, d, heads[0], false).Ok? {
      HeadsChecked(c, CheckDuplicateStream(c, d, heads[0], false).value, heads[1..]);
      assert heads == [heads[0]] + heads[1..];
    }
  }

  function Nothing(n: nat): Dir {
    Dir(seq(n, _ => None), [], [], [])
  }

  /** open, from the point where the header has been read: duplicate streams of the header, the FAT, the directory. */
  function OpenFile(file: seq<byte>, f: Format): (r: Result<Opened, FileError>)
    requires f.Valid() && file != []
    ensures r.Ok? ==> r.value.t.Loaded(0)
  {
    match CheckHeads(f.ContextOf([]), Nothing(0), f.HeaderStreams())
    case Err(e) => Err(DirectoryFailed(e))
    case Ok(d) =>
      match LoadFat(file, f.h, f.level)
      case Err(e) => Err(FatFailed(e))
      case Ok(fat) =>
        match FatVolume(file, fat, f.h.sectorSize).Open(f.sectDirStart, UNKNOWN_SIZE)
        case Err(e) => Err(DirectoryUnreadable(e))
        case Ok(bytes) =>
          match LoadDirectory(f.ContextOf(f.decode(bytes)), Blank(d, |f.decode(bytes)|), f.depth)
          case Err(e) => Err(DirectoryFailed(e))
          case Ok(t) => Ok(Opened(fat, f.ContextOf(f.decode(bytes)), t))
  }

  /** `n` entries, none of them loaded, and the streams that the header has named. */
  function Blank(d: Dir, n: nat): Dir {
    d.(entries := seq(n, _ => None))
  }

  /** The volume of an opened file. */
  function VolumeOf(file: seq<byte>, f: Format, o: Opened): (vol: Volume)
    requires f.Valid()
    ensures ValidMain(vol)
  {
    FatVolume(file, o.fat, f.h.sectorSize)
  }

  /** The content of the stream that a path names, in a file opened from scratch. */
  function OpenPath(file: seq<byte>, f: Format, path: Path): Result<seq<byte>, FileError>
    requires f.Valid() && file != []
  {
    match OpenFile(file, f)
    case Err(e) => Err(e)
    case Ok(o) =>
      match OpenNamed(o.c, o.t, VolumeOf(file, f, o), o.Layout(f), f.level, path)
      case Err(e) => Err(PathFailed(e))
      case Ok(content) => Ok(content)
  }

  // ----- What a file must be like

  /** The sectors that the header reserves. */
  ghost function ReservedBy(f: Format): set<nat> {
    match CheckHeads(f.ContextOf([]), Nothing(0), f.HeaderStreams())
    case Err(_) => {}
    case Ok(d) => set h: nat | h in d.usedFat
  }

  /** The sectors that hold the table are marked in it as what they are. */
  ghost predicate TableMarked(file: seq<byte>, h: FatHeader, fat: seq<nat>)
    requires h.Valid()
  {
    forall x :: x in TableSectors(file, h) && x < |fat| ==> fat[x] == FATSECT || fat[x] == DIFSECT
  }

  /** An opened file with no recorded defect and a table in which streams, FAT and DIFAT have no sector in common. */
  ghost predicate Orderly(file: seq<byte>, f: Format, o: Opened)
    requires f.Valid() && file != []
  {
    && OpenFile(file, f) == Ok(o)
    && (forall e :: e in o.t.issues ==> e.Severity() == Unsure || e.Severity() == Potential)
    && CleanTable(o.c, o.t, o.fat, ReservedBy(f)) && TableMarked(file, f.h, o.fat)
  }

  // ----- Rewriting and opening again

  lemma OrderlyParts(file: seq<byte>, f: Format, o: Opened) returns (par: map<nat, nat>, rank: map<nat, nat>)
    requires f.Valid() && file != [] && Orderly(file, f, o)
    ensures IsTree(o.c, o.t, par, rank) && DistinctHeads(o.c, o.t, ReservedBy(f))
    ensures o.t.Get(0).raw.entryType == STGTY_ROOT && o.c.Size(o.t.Get(0).raw) == o.Layout(f).rootSize
    ensures Located(o.c, o.t, o.Layout(f), ReservedBy(f)) && o.Layout(f).cutoff == o.c.cutoff
    ensures f.sectDirStart in ReservedBy(f) || SpecialSector(f.sectDirStart)
  {
    hide LoadDirectory, CheckHeads, LoadFat, Volume.Open, IsTree, CleanTable, TableMarked;
    var d := CheckHeads(f.ContextOf([]), Nothing(0), f.HeaderStreams()).value;
    HeadsChecked(f.ContextOf([]), Nothing(0), f.HeaderStreams());
    var d0 := Blank(d, |o.c.records|);
    LevelsAgree(o.c, d0, f.depth);
    par, rank := LoadWithoutDefect(o.c, d0, f.depth);
    assert NoDefect(d0, o.t);
    assert f.sectDirStart in f.HeaderStreams();
    assert f.csectMiniFat > 0 ==> f.miniFatStart in f.HeaderStreams();
  }

  /** A chain of the table avoids the sectors that hold the table. */
  lemma ChainAvoidsTable(file: seq<byte>, h: FatHeader, fat: seq<nat>, start: nat, p: seq<nat>)
    requires h.Valid() && |fat| <= DIFSECT && IsChain(fat, start, p) && TableMarked(file, h, fat)
    ensures Disjoint(p, TableSectors(file, h))
  {
    hide TableSectors;
    forall i, j | 0 <= i < |p| && 0 <= j < |TableSectors(file, h)| ensures p[i] != TableSectors(file, h)[j] {
      ChainStep(fat, start, p, i);
      if i + 1 < |p| { ChainStep(fat, start, p, i + 1); }
      assert TableSectors(file, h)[j] in TableSectors(file, h);
    }
  }

  /** The directory depends on the table and on the directory stream only. */
  lemma SameDirectory(file: seq<byte>, file': seq<byte>, f: Format, o: Opened)
    requires f.Valid() && file != [] && file' != [] && OpenFile(file, f) == Ok(o)
    requires LoadFat(file', f.h, f.level) == Ok(o.fat)
    requires FatVolume(file', o.fat, f.h.sectorSize).Open(f.sectDirStart, UNKNOWN_SIZE)
          == FatVolume(file, o.fat, f.h.sectorSize).Open(f.sectDirStart, UNKNOWN_SIZE)
    ensures OpenFile(file', f) == Ok(o)
  {
    hide LoadDirectory, CheckHeads, LoadFat, Volume.Open;
  }

  /** A rewritten stream leaves table and directory stream alone. */
  lemma OpensAgain(file: seq<byte>, f: Format, o: Opened, a: nat, data: seq<byte>)
    requires f.Valid() && file != [] && Orderly(file, f, o)
    requires o.t.Loaded(a) && o.c.OwnsFatStream(o.t.Get(a).raw) && |data| == o.c.Size(o.t.Get(a).raw) != UNKNOWN_SIZE
    requires VolumeOf(file, f, o).Open(o.t.Get(a).raw.start, |data|).Ok?
    ensures var file' := WriteStream(file, o.fat, f.h.sectorSize, o.t.Get(a).raw.start, data).0;
            file' != [] && OpenFile(file', f) == Ok(o)
  {
    hide *;
    var par, rank := OrderlyParts(file, f, o);
    OrderlyFile(file, f, o);
    var vol, start := VolumeOf(file, f, o), o.t.Get(a).raw.start;
    var p := ChainOfOpen(vol, start, |data|);
    var q := ChainOfOpen(vol, f.sectDirStart, UNKNOWN_SIZE);
    KnownChain(vol, start, |data|, p);
    UnknownChain(vol, f.sectDirStart, q);
    ReservedChainDisjoint(o.c, o.t, o.fat, ReservedBy(f), a, p, f.sectDirStart, q);
    ChainAvoidsTable(file, f.h, o.fat, start, p);
    RewriteKeepsTable(file, f.h, f.level, o.fat, start, p, data);
    DisjointStreamUnchanged(file, o.fat, f.h.sectorSize, start, data, p, f.sectDirStart, q, UNKNOWN_SIZE);
    SameDirectory(file, WriteStream(file, o.fat, f.h.sectorSize, start, data).0, f, o);
  }

  lemma KnownChain(vol: Volume, start: nat, size: nat, p: seq<nat>)
    requires vol.Valid() && size != UNKNOWN_SIZE && ReadAlong(vol, start, size, p)
    ensures vol.Holds(start, size, p) && IsChain(vol.fat, start, p) && |p| == CeilDiv(size, vol.sectorSize)
  {
  }

  lemma UnknownChain(vol: Volume, start: nat, q: seq<nat>)
    requires vol.Valid() && ReadAlong(vol, start, UNKNOWN_SIZE, q)
    ensures IsChain(vol.fat, start, q)
  {
  }

  /** What an orderly file has loaded. */
  lemma OrderlyFile(file: seq<byte>, f: Format, o: Opened)
    requires f.Valid() && file != [] && Orderly(file, f, o)
    ensures VolumeOf(file, f, o) == FatVolume(file, o.fat, f.h.sectorSize)
    ensures VolumeOf(file, f, o).Valid() && VolumeOf(file, f, o).fat == o.fat && f.h.Valid()
    ensures VolumeOf(file, f, o).sectorSize == f.h.sectorSize > 0
    ensures OpenFile(file, f) == Ok(o) && LoadFat(file, f.h, f.level) == Ok(o.fat)
    ensures VolumeOf(file, f, o).Open(f.sectDirStart, UNKNOWN_SIZE).Ok?
    ensures CleanTable(o.c, o.t, o.fat, ReservedBy(f)) && |o.fat| <= DIFSECT && TableMarked(file, f.h, o.fat)
  {
    hide LoadDirectory, CheckHeads, LoadFat, Volume.Open, TableMarked, ReservedBy;
  }

  /** Rewriting a stream by name: the file opens again with the same table and directory, the same name then has the
      new data, and every other name that opened before opens as before. */
  lemma ReopenedByName(file: seq<byte>, f: Format, o: Opened, path: Path, data: seq<byte>)
    requires f.Valid() && file != [] && Orderly(file, f, o) && OpenPath(file, f, path).Ok?
    requires |data| == o.c.Size(o.t.Get(StreamAt(o.c, o.t, path).value).raw) != UNKNOWN_SIZE && |data| >= f.cutoff
    ensures var (file', outcome) := WriteNamed(o.c, o.t, VolumeOf(file, f, o), o.Layout(f), path, data);
            && outcome == Ok(()) && file' != [] && OpenFile(file', f) == Ok(o)
            && OpenPath(file', f, path) == Ok(data)
            && forall other :: OpenPath(file, f, other).Ok? && !SameNames(o.c, path, other) ==>
                 OpenPath(file', f, other) == OpenPath(file, f, other)
  {
    var par, rank := OrderlyParts(file, f, o);
    hide LoadDirectory, OpenFile, Volume.Open, IsTree, DistinctHeads, Located, CleanTable, TableMarked, WriteStream,
         StreamAt, Find, SameNames;
    var g, S, raw := o.Layout(f), f.h.sectorSize, o.t.Get(StreamAt(o.c, o.t, path).value).raw;
    var file' := WriteStream(file, o.fat, S, raw.start, data).0;
    NamedRoundTrip(o.c, o.t, file, o.fat, S, g, f.level, path, data);
    if data == [] {
      EmptyWrite(file, o.fat, S, raw.start);
    } else {
      StreamIsStream(o.c, o.t, path);
      OpensAgain(file, f, o, StreamAt(o.c, o.t, path).value, data);
    }
    forall other | OpenPath(file, f, other).Ok? && !SameNames(o.c, path, other)
      ensures OpenPath(file', f, other) == OpenPath(file, f, other)
    {
      OtherNamesUnchanged(
        o.c, o.t, par, rank, ReservedBy(f), file, o.fat, S, g, f.level, path, data, other);
    }
  }
}
