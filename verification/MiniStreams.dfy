/** Small streams: sectors of the mini stream, which is itself a stream of the main volume. */
module MiniStreams {
  import opened Common
  import opened SectorChains
  import opened OleStream
  import opened StreamWriting
  import opened StreamAddress
  import opened FatLoading

  datatype ReadError = StreamError(error: OpenError) | MiniStreamLargerThanMiniFat

  /** The header fields and the root directory entry that locate the MiniFAT and the mini stream. */
  datatype MiniLayout = MiniLayout(
    miniFatStart: nat,
    csectMiniFat: nat,
    rootStart: nat,
    rootSize: nat,
    miniSectorSize: nat,
    cutoff: nat)
  {
    ghost predicate Valid() { miniSectorSize > 0 }

    function NbMiniSectors(): nat
      requires Valid()
    {
      CeilDiv(rootSize, miniSectorSize)
    }
  }

  ghost predicate ValidMain(vol: Volume) {
    vol.Valid() && vol.sectorSize % 4 == 0
  }

  lemma OpenedSize(vol: Volume, start: nat, size: nat)
    requires vol.Valid() && size != UNKNOWN_SIZE && vol.Open(start, size).Ok?
    ensures |vol.Open(start, size).value| == size
  {
  }

  lemma MultipleOfFour(n: nat, b: nat)
    requires b % 4 == 0
    ensures (n * b) % 4 == 0 && n * b != UNKNOWN_SIZE
  {
    var q := b / 4;
    assert n * b == 4 * (n * q);
  }

  /** loadminifat: the MiniFAT, cut to the number of mini sectors in use. */
  function LoadMiniFat(vol: Volume, g: MiniLayout, level: Severity): Result<seq<nat>, ReadError>
    requires ValidMain(vol) && g.Valid()
  {
    var streamSize := g.csectMiniFat * vol.sectorSize;
    if g.NbMiniSectors() * 4 > streamSize && Incorrect.RaisedAt(level) then Err(MiniStreamLargerThanMiniFat)
    else
      match vol.Open(g.miniFatStart, streamSize)
      case Err(e) => Err(StreamError(e))
      case Ok(s) =>
        MultipleOfFour(g.csectMiniFat, vol.sectorSize);
        OpenedSize(vol, g.miniFatStart, streamSize);
        Ok(Shrink(Words(s), g.NbMiniSectors()))
  }

  /** The volume that small streams live in: the content of the mini stream under the MiniFAT. */
  function MiniVolume(vol: Volume, g: MiniLayout, level: Severity): (r: Result<Volume, ReadError>)
    requires ValidMain(vol) && g.Valid()
    ensures r.Ok? ==> r.value.Valid()
  {
    match LoadMiniFat(vol, g, level)
    case Err(e) => Err(e)
    case Ok(minifat) =>
      match vol.Open(g.rootStart, g.rootSize)
      case Err(e) => Err(StreamError(e))
      case Ok(content) => Ok(Volume(content, minifat, 0, g.miniSectorSize))
  }

  function InMiniFat(g: MiniLayout, size: nat, forceFat: bool): bool {
    size < g.cutoff && !forceFat
  }

  /** `_open` with nothing cached: a lookup from the start through both tables. */
  function OpenFresh(vol: Volume, g: MiniLayout, level: Severity, start: nat, size: nat, forceFat: bool)
    : Result<seq<byte>, ReadError>
    requires ValidMain(vol) && g.Valid()
  {
    if InMiniFat(g, size, forceFat) then
      match MiniVolume(vol, g, level)
      case Err(e) => Err(e)
      case Ok(mini) => Lift(mini.Open(start, size))
    else Lift(vol.Open(start, size))
  }

  function Lift(r: Result<seq<byte>, OpenError>): Result<seq<byte>, ReadError> {
    match r
    case Ok(v) => Ok(v)
    case Err(e) => Err(StreamError(e))
  }

  /** The mini stream `mini` holds what its chain `root` holds in the main volume. */
  ghost predicate StoredIn(vol: Volume, mini: Volume, g: MiniLayout, root: seq<nat>)
    requires vol.Valid() && mini.Valid()
  {
    && g.rootSize != UNKNOWN_SIZE
    && vol.Holds(g.rootStart, g.rootSize, root)
    && mini.file == vol.Gather(root)[..g.rootSize]
    && mini.offset == 0
  }

  lemma MiniVolumeStored(vol: Volume, g: MiniLayout, level: Severity) returns (root: seq<nat>)
    requires ValidMain(vol) && g.Valid() && g.rootSize != UNKNOWN_SIZE
    ensures MiniVolume(vol, g, level).Ok? ==> StoredIn(vol, MiniVolume(vol, g, level).value, g, root)
  {
    hide Volume.Open;
    root := [];
    if MiniVolume(vol, g, level).Ok? {
      root := ChainOfOpen(vol, g.rootStart, g.rootSize);
      vol.OpenKnownSize(g.rootStart, g.rootSize);
    }
  }

  /** Address translation by composition: byte `k` of a small stream is the file byte that the root chain
      assigns to the mini-stream position that the mini chain assigns to `k`. */
  lemma MiniStreamOffsets(vol: Volume, mini: Volume, g: MiniLayout, root: seq<nat>, start: nat, size: nat, p: seq<nat>)
    requires vol.Valid() && mini.Valid() && StoredIn(vol, mini, g, root)
    requires size != UNKNOWN_SIZE && mini.Holds(start, size, p)
    ensures mini.Open(start, size).Ok? && |mini.Open(start, size).value| == size
    ensures |Offsets(mini, p)| >= size
    ensures forall k :: 0 <= k < size ==>
              && Offsets(mini, p)[k] < g.rootSize <= |Offsets(vol, root)|
              && Offsets(vol, root)[Offsets(mini, p)[k]] < |vol.file|
              && mini.Open(start, size).value[k] == vol.file[Offsets(vol, root)[Offsets(mini, p)[k]]]
  {
    mini.OpenKnownSize(start, size);
    GatherReadsOffsets(mini, p);
    GatherReadsOffsets(vol, root);
  }

  /** With aligned chains the composition is arithmetic on addresses. */
  lemma MiniStreamAddress(
    vol: Volume, mini: Volume, g: MiniLayout, root: seq<nat>, start: nat, size: nat, p: seq<nat>, k: nat)
    requires vol.Valid() && mini.Valid() && StoredIn(vol, mini, g, root)
    requires size != UNKNOWN_SIZE && mini.Holds(start, size, p)
    requires Flat(vol, root) && Flat(mini, p) && k < size
    ensures mini.Open(start, size).Ok? && |mini.Open(start, size).value| == size
    ensures k / mini.sectorSize < |p|
    ensures Address(mini, p, k) / vol.sectorSize < |root|
    ensures Address(vol, root, Address(mini, p, k)) < |vol.file|
    ensures mini.Open(start, size).value[k] == vol.file[Address(vol, root, Address(mini, p, k))]
  {
    hide Volume.Open, Volume.Holds, Volume.Position, Address;
    MiniStreamOffsets(vol, mini, g, root, start, size, p);
    FlatOffsets(mini, p, k);
    FlatOffsets(vol, root, Address(mini, p, k));
  }

  /** Rewriting a FAT stream whose chain avoids the MiniFAT and the mini stream leaves the small streams,
      and the MiniFAT itself, exactly as they were. */
  lemma WriteKeepsMiniVolume(
    file: seq<byte>, fat: seq<nat>, sectorSize: nat, start: nat, data: seq<byte>, p: seq<nat>,
    g: MiniLayout, level: Severity, miniFatChain: seq<nat>, root: seq<nat>)
    requires sectorSize > 0 && sectorSize % 4 == 0 && g.Valid()
    requires FatVolume(file, fat, sectorSize).Holds(start, |data|, p)
    requires MiniVolume(FatVolume(file, fat, sectorSize), g, level).Ok?
    requires IsChain(fat, g.miniFatStart, miniFatChain) && Disjoint(p, miniFatChain)
    requires IsChain(fat, g.rootStart, root) && Disjoint(p, root)
    ensures var file' := WriteStream(file, fat, sectorSize, start, data).0;
            MiniVolume(FatVolume(file', fat, sectorSize), g, level)
            == MiniVolume(FatVolume(file, fat, sectorSize), g, level)
  {
    hide Volume.Open, Volume.Holds, WriteStream, Words;
    DisjointStreamUnchanged(file, fat, sectorSize, start, data, p, g.rootStart, root, g.rootSize);
    DisjointStreamUnchanged(
      file, fat, sectorSize, start, data, p, g.miniFatStart, miniFatChain, g.csectMiniFat * sectorSize);
  }
}
