/** Streams by name: openstream and write_stream, which put directory, tables and file together. */
module NamedStreams {
  import opened Common
  import opened OleStream
  import opened StreamWriting
  import opened MiniStreams
  import opened OleFile
  import opened DirectoryTree
  import opened DirectoryProofs
  import opened DirectoryLookup
  import opened DirectoryPaths
  import opened Directory
  import opened StreamIsolation

  datatype NamedError = NotFound | NotAStream | Reading(error: ReadError) | Writing(failure: WriteError)

  /** The entry that a path names, if it is a stream. */
  function StreamAt(c: Context, t: Dir, path: Path): (r: Result<nat, NamedError>)
    ensures r.Ok? ==> t.Loaded(r.value) && Find(c, t, path) == Ok(r.value)
  {
    match Find(c, t, path)
    case Err(_) => Err(NotFound)
    case Ok(sid) => if t.Loaded(sid) && t.Get(sid).raw.entryType == STGTY_STREAM then Ok(sid) else Err(NotAStream)
  }

  /** openstream. */
  function OpenNamed(c: Context, t: Dir, vol: Volume, g: MiniLayout, level: Severity, path: Path)
    : Result<seq<byte>, NamedError>
    requires ValidMain(vol) && g.Valid()
  {
    match StreamAt(c, t, path)
    case Err(e) => Err(e)
    case Ok(sid) =>
      match OpenFresh(vol, g, level, t.Get(sid).raw.start, c.Size(t.Get(sid).raw), false)
      case Err(e) => Err(Reading(e))
      case Ok(content) => Ok(content)
  }

  /** The file after write_stream, and the outcome. */
  function WriteNamed(c: Context, t: Dir, vol: Volume, g: MiniLayout, path: Path, data: seq<byte>)
    : (seq<byte>, Result<(), NamedError>)
    requires vol.Valid()
  {
    match StreamAt(c, t, path)
    case Err(e) => (vol.file, Err(e))
    case Ok(sid) =>
      if c.Size(t.Get(sid).raw) != |data| then (vol.file, Err(Writing(DifferentSize)))
      else if |data| < g.cutoff then (vol.file, Err(Writing(MiniFatNotImplemented)))
      else
        var w := WriteStream(vol.file, vol.fat, vol.sectorSize, t.Get(sid).raw.start, data);
        (w.0, if w.1.Ok? then Ok(()) else Err(Writing(w.1.error)))
  }

  // ----- The methods

  /** What _find gives for a loaded directory is a loaded entry. */
  lemma {:induction false} FoundIsLoaded(c: Context, t: Dir, rank: map<nat, nat>, node: nat, path: Path)
    requires Descends(c, t, rank) && t.Loaded(node) && FindFrom(c, t, node, path).Ok?
    ensures t.Loaded(FindFrom(c, t, node, path).value)
    decreases |path|
  {
    hide Descends, DescendsFrom;
    if path != [] {
      var k := FoundKid(c, t.Get(node).kids, path[0]);
      KidIsLoaded(c, t, rank, node, k);
      FoundIsLoaded(c, t, rank, t.Get(node).kids[k], path[1..]);
    }
  }

  /** The lookup that both methods begin with. */
  method FindStream(dir: OleDirectory, path: Path, ghost t: Dir, ghost rank: map<nat, nat>)
    returns (r: Result<DirEntry, NamedError>)
    requires dir.Valid() && t == dir.Model() && Descends(dir.c, t, rank) && t.Loaded(0)
    ensures match StreamAt(dir.c, t, path)
            case Err(e) => r == Err(e)
            case Ok(sid) => r.Ok? && r.value.raw == t.Get(sid).raw
  {
    hide Descends, DescendsFrom, OleDirectory.Model, OleDirectory.ValueOf;
    var found := dir.FindPath(path, t, rank);
    if found.Err? {
      return Err(NotFound);
    }
    FoundIsLoaded(dir.c, t, rank, 0, path);
    dir.LoadedObject(t, rank, found.value);
    var entry := dir.direntries[found.value];
    if entry.raw.entryType != STGTY_STREAM {
      return Err(NotAStream);
    }
    return Ok(entry);
  }

  method OpenStreamNamed(dir: OleDirectory, io: OleFileIO, path: Path, ghost t: Dir, ghost rank: map<nat, nat>)
    returns (r: Result<seq<byte>, NamedError>)
    requires dir.Valid() && t == dir.Model() && Descends(dir.c, t, rank) && t.Loaded(0)
    requires io.Valid() && io.Coherent()
    modifies io`minifat, io`ministream, io.fp`pos, io.fp`readCount
    modifies if io.ministream == null then {} else {io.ministream}
    ensures io.Valid() && io.Coherent()
    ensures r == OpenNamed(dir.c, t, io.MainVolume(), io.layout, io.level, path)
  {
    hide Descends, DescendsFrom, OleDirectory.Model, OpenFresh;
    var entry := FindStream(dir, path, t, rank);
    if entry.Err? {
      return Err(entry.error);
    }
    var content := io.Open(entry.value.raw.start, dir.c.Size(entry.value.raw), false);
    return if content.Ok? then Ok(content.value) else Err(Reading(content.error));
  }

  /** The path names a stream that opens, and nothing else uses its sectors, MiniFAT and mini stream included. */
  ghost predicate MiniStreamApart(
    c: Context, t: Dir, vol: Volume, g: MiniLayout, level: Severity, reserved: set<nat>, path: Path)
    requires ValidMain(vol) && g.Valid()
  {
    && g.cutoff == c.cutoff && Located(c, t, g, reserved)
    && DistinctHeads(c, t, reserved) && CleanTable(c, t, vol.fat, reserved)
    && OpenNamed(c, t, vol, g, level, path).Ok?
  }

  /** write_stream; `reserved` holds the sectors that the header names. */
  method WriteStreamNamed(dir: OleDirectory, io: OleFileIO, path: Path, data: seq<byte>,
                          ghost t: Dir, ghost rank: map<nat, nat>, ghost reserved: set<nat>)
    returns (r: Result<(), NamedError>)
    requires dir.Valid() && t == dir.Model() && Descends(dir.c, t, rank) && t.Loaded(0)
    requires io.Valid()
    modifies io.fp`pos, io.fp`content
    ensures (io.fp.content, r) == WriteNamed(dir.c, t, old(io.MainVolume()), io.layout, path, data)
    ensures io.Valid()
    ensures |data| != UNKNOWN_SIZE && old(io.Coherent())
            && old(MiniStreamApart(dir.c, t, io.MainVolume(), io.layout, io.level, reserved, path)) ==>
              io.Coherent()
  {
    hide Descends, DescendsFrom, OleDirectory.Model, WriteStream, MiniVolume, MiniStreamApart;
    if && io.ministream != null && io.Coherent() && |data| != UNKNOWN_SIZE
       && MiniStreamApart(dir.c, t, io.MainVolume(), io.layout, io.level, reserved, path) {
      NamedWriteKeepsMiniVolume(
        dir.c, t, reserved, io.fp.content, io.fat, io.header.sectorSize, io.layout, io.level, path, data);
    }
    var entry := FindStream(dir, path, t, rank);
    if entry.Err? {
      return Err(entry.error);
    }
    var written := io.WriteStreamData(entry.value.raw.start, dir.c.Size(entry.value.raw), data);
    return if written.Ok? then Ok(()) else Err(Writing(written.error));
  }

  // ----- Writing by name and reading by name

  /** A stream of the FAT that opens by name can be rewritten by name with data of its size, and then opens with
      exactly that data. */
  lemma NamedRoundTrip(
    c: Context, t: Dir, file: seq<byte>, fat: seq<nat>, sectorSize: nat, g: MiniLayout, level: Severity, path: Path,
    data: seq<byte>)
    requires sectorSize > 0 && sectorSize % 4 == 0 && g.Valid()
    requires OpenNamed(c, t, FatVolume(file, fat, sectorSize), g, level, path).Ok?
    requires |data| == c.Size(t.Get(StreamAt(c, t, path).value).raw) != UNKNOWN_SIZE && |data| >= g.cutoff
    ensures var (file', outcome) := WriteNamed(c, t, FatVolume(file, fat, sectorSize), g, path, data);
            outcome == Ok(()) && OpenNamed(c, t, FatVolume(file', fat, sectorSize), g, level, path) == Ok(data)
  {
    hide Volume.Open, WriteStream, StreamAt;
    var raw := t.Get(StreamAt(c, t, path).value).raw;
    WriteReadRoundTrip(file, fat, sectorSize, raw.start, data);
  }

  // ----- Writing one name leaves all others

  /** An empty stream opens from its start alone. */
  lemma EmptyOpensAlike(vol: Volume, vol': Volume, start: nat)
    requires vol.Valid() && vol'.Valid() && vol.fat == vol'.fat && vol.sectorSize == vol'.sectorSize
    ensures vol.Open(start, 0) == vol'.Open(start, 0)
  {
    hide CeilDiv;
    CeilDivIsLeast(0, vol.sectorSize);
  }

  lemma EmptyWrite(file: seq<byte>, fat: seq<nat>, sectorSize: nat, start: nat)
    requires sectorSize > 0
    ensures WriteStream(file, fat, sectorSize, start, []).0 == file
  {
    hide CeilDiv, WriteSector, Segment, Remainder;
    CeilDivIsLeast(0, sectorSize);
  }

  /** After rewriting entry `a` entry `b` opens as before; only for a small `b` the mini stream matters. */
  lemma OtherEntryUnchanged(
    c: Context, t: Dir, reserved: set<nat>, file: seq<byte>, fat: seq<nat>, sectorSize: nat, g: MiniLayout,
    level: Severity, a: nat, data: seq<byte>, b: nat)
    requires sectorSize > 0 && sectorSize % 4 == 0 && g.Valid() && g.cutoff == c.cutoff && a != b
    requires DistinctHeads(c, t, reserved) && CleanTable(c, t, fat, reserved)
    requires t.Loaded(a) && t.Get(a).raw.entryType == STGTY_STREAM && t.Loaded(b)
    requires t.Get(b).raw.entryType == STGTY_STREAM
    requires c.Size(t.Get(a).raw) == |data| != UNKNOWN_SIZE && |data| >= g.cutoff
    requires c.Size(t.Get(b).raw) < g.cutoff ==> Located(c, t, g, reserved)
    requires var vol := FatVolume(file, fat, sectorSize);
             && OpenFresh(vol, g, level, t.Get(a).raw.start, |data|, false).Ok?
             && OpenFresh(vol, g, level, t.Get(b).raw.start, c.Size(t.Get(b).raw), false).Ok?
    ensures var vol' := FatVolume(WriteStream(file, fat, sectorSize, t.Get(a).raw.start, data).0, fat, sectorSize);
            OpenFresh(vol', g, level, t.Get(b).raw.start, c.Size(t.Get(b).raw), false)
            == OpenFresh(FatVolume(file, fat, sectorSize), g, level, t.Get(b).raw.start, c.Size(t.Get(b).raw), false)
  {
    hide DistinctHeads, CleanTable, Volume.Open, WriteStream, MiniVolume;
    if data == [] {
      EmptyWrite(file, fat, sectorSize, t.Get(a).raw.start);
    } else if c.Size(t.Get(b).raw) < g.cutoff {
      RewriteKeepsSmallStreams(c, t, reserved, file, fat, sectorSize, a, data, g, level);
    } else if c.Size(t.Get(b).raw) == 0 {
      var file' := WriteStream(file, fat, sectorSize, t.Get(a).raw.start, data).0;
      EmptyOpensAlike(FatVolume(file, fat, sectorSize), FatVolume(file', fat, sectorSize), t.Get(b).raw.start);
    } else {
      RewriteIsolated(c, t, reserved, file, fat, sectorSize, a, data, b);
    }
  }

  /** Rewriting by name leaves MiniFAT and mini stream as they load, whatever the path and the data. */
  lemma NamedWriteKeepsMiniVolume(
    c: Context, t: Dir, reserved: set<nat>, file: seq<byte>, fat: seq<nat>, sectorSize: nat, g: MiniLayout,
    level: Severity, path: Path, data: seq<byte>)
    requires sectorSize > 0 && sectorSize % 4 == 0 && g.Valid() && |data| != UNKNOWN_SIZE
    requires MiniStreamApart(c, t, FatVolume(file, fat, sectorSize), g, level, reserved, path)
    requires MiniVolume(FatVolume(file, fat, sectorSize), g, level).Ok?
    ensures var file' := WriteNamed(c, t, FatVolume(file, fat, sectorSize), g, path, data).0;
            MiniVolume(FatVolume(file', fat, sectorSize), g, level)
            == MiniVolume(FatVolume(file, fat, sectorSize), g, level)
  {
    hide DistinctHeads, CleanTable, Volume.Open, WriteStream, MiniVolume, StreamAt, Find;
    var a := StreamAt(c, t, path).value;
    if c.Size(t.Get(a).raw) == |data| >= g.cutoff {
      StreamIsStream(c, t, path);
      if data == [] {
        EmptyWrite(file, fat, sectorSize, t.Get(a).raw.start);
      } else {
        RewriteKeepsSmallStreams(c, t, reserved, file, fat, sectorSize, a, data, g, level);
      }
    }
  }

  lemma StreamIsStream(c: Context, t: Dir, path: Path)
    requires StreamAt(c, t, path).Ok?
    ensures t.Get(StreamAt(c, t, path).value).raw.entryType == STGTY_STREAM
  {
  }

  lemma DifferentEntries(c: Context, t: Dir, par: map<nat, nat>, rank: map<nat, nat>, p: Path, q: Path)
    requires IsTree(c, t, par, rank) && StreamAt(c, t, p).Ok? && StreamAt(c, t, q).Ok? && !SameNames(c, p, q)
    ensures StreamAt(c, t, p).value != StreamAt(c, t, q).value
  {
    hide IsTree, SameNames;
    if StreamAt(c, t, p).value == StreamAt(c, t, q).value { OnePath(c, t, par, rank, p, q); }
  }

  /** The path names a stream that is kept in the mini stream. */
  ghost predicate SmallAt(c: Context, t: Dir, g: MiniLayout, path: Path) {
    StreamAt(c, t, path).Ok? && c.Size(t.Get(StreamAt(c, t, path).value).raw) < g.cutoff
  }

  /** Rewriting a stream by name leaves every path that differs from its path by more than letter case as it opens,
      large streams and small ones. */
  lemma OtherNamesUnchanged(
    c: Context, t: Dir, par: map<nat, nat>, rank: map<nat, nat>, reserved: set<nat>,
    file: seq<byte>, fat: seq<nat>, sectorSize: nat, g: MiniLayout, level: Severity,
    path: Path, data: seq<byte>, other: Path)
    requires sectorSize > 0 && sectorSize % 4 == 0 && g.Valid() && g.cutoff == c.cutoff && |data| != UNKNOWN_SIZE
    requires SmallAt(c, t, g, other) ==> Located(c, t, g, reserved)
    requires IsTree(c, t, par, rank) && DistinctHeads(c, t, reserved) && CleanTable(c, t, fat, reserved)
    requires OpenNamed(c, t, FatVolume(file, fat, sectorSize), g, level, path).Ok?
    requires OpenNamed(c, t, FatVolume(file, fat, sectorSize), g, level, other).Ok?
    requires !SameNames(c, path, other)
    ensures var file' := WriteNamed(c, t, FatVolume(file, fat, sectorSize), g, path, data).0;
            OpenNamed(c, t, FatVolume(file', fat, sectorSize), g, level, other)
            == OpenNamed(c, t, FatVolume(file, fat, sectorSize), g, level, other)
  {
    hide IsTree, DistinctHeads, CleanTable, Located, OpenFresh, WriteStream, StreamAt, SameNames;
    DifferentEntries(c, t, par, rank, path, other);
    StreamIsStream(c, t, path);
    StreamIsStream(c, t, other);
    var a, b := StreamAt(c, t, path).value, StreamAt(c, t, other).value;
    if c.Size(t.Get(a).raw) == |data| >= g.cutoff {
      OtherEntryUnchanged(c, t, reserved, file, fat, sectorSize, g, level, a, data, b);
    }
  }
}
