/** Replacing the content of a FAT stream in place: write_sect and write_stream. */
module StreamWriting {
  import opened Common
  import opened ByteFiles
  import opened SectorChains
  import opened OleStream

  datatype WriteError = DifferentSize | MiniFatNotImplemented | FatIndexOutOfRange | BadLastSectorIndex

  /** The main volume of an OLE file: sector 0 begins one sector into the file. */
  function FatVolume(file: seq<byte>, fat: seq<nat>, sectorSize: nat): Volume {
    Volume(file, fat, sectorSize, sectorSize)
  }

  function Pad(data: seq<byte>, sectorSize: nat): (r: seq<byte>)
    ensures data <= r
    ensures |r| == Max(|data|, sectorSize)
  {
    if |data| < sectorSize then data + Zeros(sectorSize - |data|) else data
  }

  /** write_sect: short data is padded with zero bytes; longer data is written as it is. */
  function WriteSector(file: seq<byte>, sectorSize: nat, sect: nat, data: seq<byte>): seq<byte> {
    Overwrite(file, sectorSize * (sect + 1), Pad(data, sectorSize))
  }

  /** `n` sectors hold `data` and all but the last are full. */
  ghost predicate Fits(data: seq<byte>, n: nat, sectorSize: nat) {
    if n == 0 then data == [] else (n - 1) * sectorSize < |data| <= n * sectorSize
  }

  lemma NothingFits(data: seq<byte>, sectorSize: nat)
    requires Fits(data, 0, sectorSize)
    ensures data == []
  {
  }

  lemma FitsCeilDiv(data: seq<byte>, sectorSize: nat)
    requires sectorSize > 0
    ensures Fits(data, CeilDiv(|data|, sectorSize), sectorSize)
  {
    CeilDivIsLeast(|data|, sectorSize);
  }

  /** The part of `data` that goes to the next sector when `n` sectors remain. */
  function Segment(data: seq<byte>, n: nat, sectorSize: nat): seq<byte> {
    if n > 1 && |data| > sectorSize then data[..sectorSize] else data
  }

  function Remainder(data: seq<byte>, n: nat, sectorSize: nat): seq<byte> {
    if n > 1 && |data| > sectorSize then data[sectorSize..] else []
  }

  lemma FitsShape(data: seq<byte>, n: nat, sectorSize: nat)
    requires sectorSize > 0 && Fits(data, n, sectorSize) && n > 0
    ensures var seg, rem := Segment(data, n, sectorSize), Remainder(data, n, sectorSize);
            && data == seg + rem
            && 0 < |seg| <= sectorSize
            && Fits(rem, n - 1, sectorSize)
            && (|seg| == sectorSize || rem == [])
  {
    if n > 1 {
      MulMonotone(1, n - 1, sectorSize);
      assert (n - 1) * sectorSize == (n - 2) * sectorSize + sectorSize;
      assert n * sectorSize == (n - 1) * sectorSize + sectorSize;
    }
  }

  /** The writing loop of write_stream, with `n` sectors left to write from `sect` on. */
  function WriteWalk(file: seq<byte>, fat: seq<nat>, sectorSize: nat, sect: nat, n: nat, data: seq<byte>)
    : (seq<byte>, Result<nat, WriteError>)
    decreases n
  {
    if n == 0 then (file, Ok(sect))
    else
      var written := WriteSector(file, sectorSize, sect, Segment(data, n, sectorSize));
      if sect >= |fat| then (written, Err(FatIndexOutOfRange))
      else WriteWalk(written, fat, sectorSize, fat[sect], n - 1, Remainder(data, n, sectorSize))
  }

  /** The file after write_stream on the stream that starts at `start`, and the outcome. */
  function WriteStream(file: seq<byte>, fat: seq<nat>, sectorSize: nat, start: nat, data: seq<byte>)
    : (seq<byte>, Result<(), WriteError>)
    requires sectorSize > 0
  {
    var w := WriteWalk(file, fat, sectorSize, start, CeilDiv(|data|, sectorSize), data);
    match w.1
    case Err(e) => (w.0, Err(e))
    case Ok(last) => (w.0, if last != ENDOFCHAIN then Err(BadLastSectorIndex) else Ok(()))
  }

  /** The sectors that the loop writes to. */
  function Visited(fat: seq<nat>, sect: nat, n: nat): seq<nat>
    decreases n
  {
    if n == 0 then []
    else [sect] + (if sect < |fat| then Visited(fat, fat[sect], n - 1) else [])
  }

  ghost predicate InSector(k: nat, sect: nat, sectorSize: nat) {
    sectorSize * (sect + 1) <= k < sectorSize * (sect + 1) + sectorSize
  }

  lemma SectorsApart(k: nat, a: nat, b: nat, sectorSize: nat)
    requires InSector(k, a, sectorSize) && InSector(k, b, sectorSize)
    ensures a == b
  {
    if a < b {
      MulMonotone(a + 2, b + 1, sectorSize);
    } else if b < a {
      MulMonotone(b + 2, a + 1, sectorSize);
    }
  }

  ghost predicate Outside(k: nat, sects: seq<nat>, sectorSize: nat) {
    forall i :: 0 <= i < |sects| ==> !InSector(k, sects[i], sectorSize)
  }

  lemma InNoOtherSector(k: nat, sects: seq<nat>, sect: nat, sectorSize: nat)
    requires sect !in sects
    requires sectorSize + sectorSize * sect <= k < sectorSize + sectorSize * sect + sectorSize
    ensures Outside(k, sects, sectorSize)
  {
    assert sectorSize + sectorSize * sect == sectorSize * (sect + 1);
    forall i | 0 <= i < |sects| ensures !InSector(k, sects[i], sectorSize) {
      if InSector(k, sects[i], sectorSize) {
        SectorsApart(k, sect, sects[i], sectorSize);
      }
    }
  }

  lemma WriteSectorFrame(file: seq<byte>, sectorSize: nat, sect: nat, data: seq<byte>)
    requires 0 < |data| <= sectorSize
    ensures var written := WriteSector(file, sectorSize, sect, data);
            && |written| == Max(|file|, sectorSize * (sect + 1) + sectorSize)
            && forall k :: 0 <= k < |file| && !InSector(k, sect, sectorSize) ==> written[k] == file[k]
  {
  }

  /** Whatever the table and the outcome, a write keeps every byte outside the sectors it visits. */
  lemma {:induction false} WriteFrame(
    file: seq<byte>, fat: seq<nat>, sectorSize: nat, sect: nat, n: nat, data: seq<byte>)
    requires sectorSize > 0 && Fits(data, n, sectorSize)
    ensures var file' := WriteWalk(file, fat, sectorSize, sect, n, data).0;
            && |file'| >= |file|
            && forall k :: 0 <= k < |file| && Outside(k, Visited(fat, sect, n), sectorSize) ==> file'[k] == file[k]
    decreases n
  {
    hide InSector, WriteSector, Fits;
    if n > 0 {
      FitsShape(data, n, sectorSize);
      var seg := Segment(data, n, sectorSize);
      WriteSectorFrame(file, sectorSize, sect, seg);
      var written := WriteSector(file, sectorSize, sect, seg);
      var seen := Visited(fat, sect, n);
      if sect < |fat| {
        WriteFrame(written, fat, sectorSize, fat[sect], n - 1, Remainder(data, n, sectorSize));
      }
      forall k | 0 <= k < |file| && Outside(k, seen, sectorSize)
        ensures written[k] == file[k] && Outside(k, seen[1..], sectorSize)
      {
        OutsideHeadAndTail(k, seen, sectorSize);
      }
    }
  }

  lemma OutsideHeadAndTail(k: nat, sects: seq<nat>, sectorSize: nat)
    requires sects != [] && Outside(k, sects, sectorSize)
    ensures !InSector(k, sects[0], sectorSize) && Outside(k, sects[1..], sectorSize)
  {
    forall i | 0 <= i < |sects[1..]| ensures !InSector(k, sects[1..][i], sectorSize) {
      assert !InSector(k, sects[i + 1], sectorSize);
    }
  }

  /** A sector that is not visited keeps its bytes; it can only become longer at the end of the file. */
  lemma UnvisitedSector(file: seq<byte>, fat: seq<nat>, sectorSize: nat, start: nat, n: nat, data: seq<byte>, sect: nat)
    requires sectorSize > 0 && Fits(data, n, sectorSize)
    requires sect !in Visited(fat, start, n)
    ensures FatVolume(file, fat, sectorSize).Sector(sect)
         <= FatVolume(WriteWalk(file, fat, sectorSize, start, n, data).0, fat, sectorSize).Sector(sect)
  {
    WriteFrame(file, fat, sectorSize, start, n, data);
    var file' := WriteWalk(file, fat, sectorSize, start, n, data).0;
    var base := FatVolume(file, fat, sectorSize).Position(sect);
    forall k | base <= k < base + sectorSize && k < |file| ensures file'[k] == file[k] {
      InNoOtherSector(k, Visited(fat, start, n), sect, sectorSize);
    }
    PrefixOfSlice(file, file', base, sectorSize);
  }

  lemma PrefixOfSlice(file: seq<byte>, file': seq<byte>, base: nat, n: nat)
    requires |file'| >= |file|
    requires forall k :: base <= k < base + n && k < |file| ==> file'[k] == file[k]
    ensures Slice(file, base, n) <= Slice(file', base, n)
  {
    forall i | 0 <= i < |Slice(file, base, n)| ensures Slice(file, base, n)[i] == Slice(file', base, n)[i] {
      assert file'[base + i] == file[base + i];
    }
  }

  lemma WrittenSector(file: seq<byte>, fat: seq<nat>, sectorSize: nat, sect: nat, data: seq<byte>)
    requires sectorSize > 0 && |data| <= sectorSize
    ensures FatVolume(WriteSector(file, sectorSize, sect, data), fat, sectorSize).Sector(sect) == Pad(data, sectorSize)
  {
    var base := sectorSize * (sect + 1);
    assert FatVolume(file, fat, sectorSize).Position(sect) == base;
    hide Overwrite, Pad;
    SliceOfOverwrite(file, base, Pad(data, sectorSize));
  }

  lemma SliceOfOverwrite(file: seq<byte>, pos: nat, data: seq<byte>)
    requires data != []
    ensures Slice(Overwrite(file, pos, data), pos, |data|) == data
  {
    var written := Overwrite(file, pos, data);
    hide Overwrite;
    assert Slice(written, pos, |data|) == written[pos..pos + |data|];
  }

  lemma {:induction false} VisitedIsChain(fat: seq<nat>, sect: nat, p: seq<nat>)
    requires IsChain(fat, sect, p)
    ensures Visited(fat, sect, |p|) == p
    decreases |p|
  {
    hide *;
    if p == [] {
      VisitNothing(fat, sect);
    } else {
      ChainStarts(fat, sect, p);
      VisitedIsChain(fat, fat[sect], p[1..]);
      VisitCons(fat, p);
    }
  }

  lemma ChainStarts(fat: seq<nat>, sect: nat, p: seq<nat>)
    requires IsChain(fat, sect, p) && p != []
    ensures sect == p[0] < |fat| && IsChain(fat, fat[sect], p[1..])
  {
  }

  lemma VisitNothing(fat: seq<nat>, sect: nat)
    ensures Visited(fat, sect, 0) == []
  {
  }

  lemma VisitCons(fat: seq<nat>, p: seq<nat>)
    requires p != [] && p[0] < |fat| && Visited(fat, fat[p[0]], |p[1..]|) == p[1..]
    ensures Visited(fat, p[0], |p|) == p
  {
  }

  /** The sectors of chain `p` are whole and hold `data`. */
  ghost predicate Filled(vol: Volume, p: seq<nat>, data: seq<byte>) {
    (forall i :: 0 <= i < |p| ==> |vol.Sector(p[i])| == vol.sectorSize) && data <= vol.Gather(p)
  }

  lemma FilledCons(file: seq<byte>, fat: seq<nat>, sectorSize: nat, p: seq<nat>, seg: seq<byte>, rem: seq<byte>)
    requires p != [] && 0 < |seg| <= sectorSize && (|seg| == sectorSize || rem == [])
    requires FatVolume(file, fat, sectorSize).Sector(p[0]) == Pad(seg, sectorSize)
    requires Filled(FatVolume(file, fat, sectorSize), p[1..], rem)
    ensures Filled(FatVolume(file, fat, sectorSize), p, seg + rem)
  {
    hide Volume.Sector;
    var vol := FatVolume(file, fat, sectorSize);
    assert vol.Gather(p) == vol.Sector(p[0]) + vol.Gather(p[1..]);
    PrefixJoins(seg, rem, Pad(seg, vol.sectorSize), vol.Gather(p[1..]));
    forall i | 0 <= i < |p| ensures |vol.Sector(p[i])| == vol.sectorSize {
      if i > 0 { assert p[i] == p[1..][i - 1]; }
    }
  }

  lemma WriteNothing(file: seq<byte>, fat: seq<nat>, sectorSize: nat, sect: nat, data: seq<byte>)
    requires Fits(data, 0, sectorSize) && IsChain(fat, sect, [])
    ensures WriteWalk(file, fat, sectorSize, sect, 0, data) == (file, Ok(ENDOFCHAIN))
    ensures Filled(FatVolume(file, fat, sectorSize), [], data)
  {
    NothingFits(data, sectorSize);
  }

  /** The first sector of a chain still holds its segment when the whole chain is written. */
  lemma HeadStays(written: seq<byte>, file: seq<byte>, fat: seq<nat>, sectorSize: nat, p: seq<nat>, seg: seq<byte>,
                  rem: seq<byte>)
    requires sectorSize > 0 && p != [] && 0 < |seg| <= sectorSize && Fits(rem, |p| - 1, sectorSize)
    requires IsChain(fat, p[0], p) && written == WriteSector(file, sectorSize, p[0], seg)
    ensures p[0] < |fat|
    ensures FatVolume(WriteWalk(written, fat, sectorSize, fat[p[0]], |p| - 1, rem).0, fat, sectorSize).Sector(p[0])
         == Pad(seg, sectorSize)
  {
    hide *;
    HeadNotVisited(fat, p);
    WrittenSector(file, fat, sectorSize, p[0], seg);
    UnvisitedSector(written, fat, sectorSize, fat[p[0]], |p| - 1, rem, p[0]);
    WholeStays(written, WriteWalk(written, fat, sectorSize, fat[p[0]], |p| - 1, rem).0, fat, sectorSize, p[0], seg);
  }

  lemma HeadNotVisited(fat: seq<nat>, p: seq<nat>)
    requires p != [] && IsChain(fat, p[0], p)
    ensures p[0] < |fat| && p[0] !in Visited(fat, fat[p[0]], |p| - 1)
  {
    hide Visited, IsChain, Distinct;
    ChainStarts(fat, p[0], p);
    VisitedIsChain(fat, fat[p[0]], p[1..]);
    ChainDistinct(fat, p[0], p);
    HeadNotInTail(p);
  }

  lemma WholeStays(file: seq<byte>, file': seq<byte>, fat: seq<nat>, sectorSize: nat, sect: nat, seg: seq<byte>)
    requires |seg| <= sectorSize && FatVolume(file, fat, sectorSize).Sector(sect) == Pad(seg, sectorSize)
    requires FatVolume(file, fat, sectorSize).Sector(sect) <= FatVolume(file', fat, sectorSize).Sector(sect)
    ensures FatVolume(file', fat, sectorSize).Sector(sect) == Pad(seg, sectorSize)
  {
    hide Volume.Position, Slice;
    var s, s' := FatVolume(file, fat, sectorSize).Sector(sect), FatVolume(file', fat, sectorSize).Sector(sect);
    assert |s'| <= sectorSize == |s|;
  }

  lemma WriteStep(file: seq<byte>, fat: seq<nat>, sectorSize: nat, sect: nat, n: nat, data: seq<byte>)
    requires n > 0 && sect < |fat|
    ensures WriteWalk(file, fat, sectorSize, sect, n, data)
         == WriteWalk(WriteSector(file, sectorSize, sect, Segment(data, n, sectorSize)), fat, sectorSize, fat[sect],
                      n - 1, Remainder(data, n, sectorSize))
  {
  }

  /** Along a chain of matching length the write succeeds and fills the sectors of the chain in order. */
  lemma {:induction false} WriteAlongChain(
    file: seq<byte>, fat: seq<nat>, sectorSize: nat, sect: nat, p: seq<nat>, data: seq<byte>)
    requires sectorSize > 0 && Fits(data, |p|, sectorSize)
    requires IsChain(fat, sect, p)
    ensures WriteWalk(file, fat, sectorSize, sect, |p|, data).1 == Ok(ENDOFCHAIN)
    ensures Filled(FatVolume(WriteWalk(file, fat, sectorSize, sect, |p|, data).0, fat, sectorSize), p, data)
    decreases |p|
  {
    hide *;
    if p == [] {
      WriteNothing(file, fat, sectorSize, sect, data);
    } else {
      ChainStarts(fat, sect, p);
      FitsShape(data, |p|, sectorSize);
      var seg, rem := Segment(data, |p|, sectorSize), Remainder(data, |p|, sectorSize);
      var written := WriteSector(file, sectorSize, sect, seg);
      WriteStep(file, fat, sectorSize, sect, |p|, data);
      WriteAlongChain(written, fat, sectorSize, fat[sect], p[1..], rem);
      HeadStays(written, file, fat, sectorSize, p, seg, rem);
      FilledCons(WriteWalk(file, fat, sectorSize, sect, |p|, data).0, fat, sectorSize, p, seg, rem);
    }
  }

  lemma HeadNotInTail(p: seq<nat>)
    requires p != [] && Distinct(p)
    ensures p[0] !in p[1..]
  {
    forall i | 0 <= i < |p[1..]| ensures p[1..][i] != p[0] {
      assert p[1..][i] == p[i + 1];
    }
  }

  lemma PrefixJoins(a: seq<byte>, b: seq<byte>, a': seq<byte>, b': seq<byte>)
    requires a <= a' && b <= b'
    requires a == a' || b == []
    ensures a + b <= a' + b'
  {
  }

  /** Write/read round trip: a FAT stream of known size that opens can be rewritten with data of the same
      size; afterwards it opens again and reads back exactly that data. */
  lemma WriteReadRoundTrip(file: seq<byte>, fat: seq<nat>, sectorSize: nat, start: nat, data: seq<byte>)
    requires sectorSize > 0 && |data| != UNKNOWN_SIZE
    requires FatVolume(file, fat, sectorSize).Open(start, |data|).Ok?
    ensures var (file', outcome) := WriteStream(file, fat, sectorSize, start, data);
            outcome == Ok(()) && FatVolume(file', fat, sectorSize).Open(start, |data|) == Ok(data)
  {
    var vol := FatVolume(file, fat, sectorSize);
    vol.OpenKnownSize(start, |data|);
    var p :| vol.Holds(start, |data|, p);
    FitsCeilDiv(data, sectorSize);
    WriteAlongChain(file, fat, sectorSize, start, p, data);
    var file' := WriteStream(file, fat, sectorSize, start, data).0;
    var vol' := FatVolume(file', fat, sectorSize);
    forall i | 0 <= i < |p| ensures vol'.Readable(p[i]) { }
    assert vol'.Holds(start, |data|, p);
    vol'.OpenKnownSize(start, |data|);
    assert vol'.Gather(p)[..|data|] == data;
  }

  /** A readable sector outside the chain of a stream that opens is not touched by writing that stream,
      not even when the write completes the last, short sector of the file. */
  lemma SectorUnchanged(
    file: seq<byte>, fat: seq<nat>, sectorSize: nat, start: nat, data: seq<byte>, p: seq<nat>, sect: nat)
    requires sectorSize > 0
    requires FatVolume(file, fat, sectorSize).Holds(start, |data|, p)
    requires FatVolume(file, fat, sectorSize).Readable(sect) && sect !in p
    ensures var file' := WriteStream(file, fat, sectorSize, start, data).0;
            FatVolume(file', fat, sectorSize).Sector(sect) == FatVolume(file, fat, sectorSize).Sector(sect)
  {
    hide Fits, CeilDiv, Volume.Position, Volume.Gather, WriteWalk, WriteStream, Slice, IsChain, Visited, Distinct;
    var vol := FatVolume(file, fat, sectorSize);
    WriteStreamIsWalk(file, fat, sectorSize, start, data);
    FitsCeilDiv(data, sectorSize);
    VisitedIsChain(fat, start, p);
    UnvisitedSector(file, fat, sectorSize, start, |p|, data, sect);
    if |vol.Sector(sect)| < sectorSize {
      // The short sector belongs to nobody else, so every written sector was whole.
      ShortSectorUnshared(vol, p, sect);
      WriteKeepsLength(file, fat, sectorSize, start, p, data);
      SameLengthSameSector(file, WriteWalk(file, fat, sectorSize, start, |p|, data).0, fat, sectorSize, sect);
    }
  }

  lemma WriteStreamIsWalk(file: seq<byte>, fat: seq<nat>, sectorSize: nat, start: nat, data: seq<byte>)
    requires sectorSize > 0
    ensures WriteStream(file, fat, sectorSize, start, data).0
         == WriteWalk(file, fat, sectorSize, start, CeilDiv(|data|, sectorSize), data).0
  {
    hide WriteWalk, CeilDiv;
  }

  lemma ShortSectorUnshared(vol: Volume, p: seq<nat>, sect: nat)
    requires vol.Valid() && vol.AllReadable(p) && sect !in p
    requires vol.Readable(sect) && |vol.Sector(sect)| < vol.sectorSize
    ensures forall i :: 0 <= i < |p| ==> |vol.Sector(p[i])| == vol.sectorSize
  {
    forall i | 0 <= i < |p| ensures |vol.Sector(p[i])| == vol.sectorSize {
      assert vol.Readable(p[i]);
      assert p[i] in p;
    }
  }

  lemma SameLengthSameSector(file: seq<byte>, file': seq<byte>, fat: seq<nat>, sectorSize: nat, sect: nat)
    requires |file'| == |file|
    ensures |FatVolume(file', fat, sectorSize).Sector(sect)| == |FatVolume(file, fat, sectorSize).Sector(sect)|
  {
  }

  lemma WholeSectorInFile(file: seq<byte>, fat: seq<nat>, sectorSize: nat, sect: nat)
    requires sectorSize > 0
    ensures |FatVolume(file, fat, sectorSize).Sector(sect)| == sectorSize
       <==> |file| >= sectorSize * (sect + 1) + sectorSize
  {
    assert FatVolume(file, fat, sectorSize).Position(sect) == sectorSize * (sect + 1);
  }

  lemma {:induction false} WriteKeepsLength(
    file: seq<byte>, fat: seq<nat>, sectorSize: nat, sect: nat, p: seq<nat>, data: seq<byte>)
    requires sectorSize > 0 && Fits(data, |p|, sectorSize) && IsChain(fat, sect, p)
    requires forall i :: 0 <= i < |p| ==> |FatVolume(file, fat, sectorSize).Sector(p[i])| == sectorSize
    ensures |WriteWalk(file, fat, sectorSize, sect, |p|, data).0| == |file|
    decreases |p|
  {
    hide Fits, WriteSector, Volume.Position, Segment, Remainder, Slice, Volume.Sector;
    if p != [] {
      FitsShape(data, |p|, sectorSize);
      var vol := FatVolume(file, fat, sectorSize);
      var seg := Segment(data, |p|, sectorSize);
      var written := WriteSector(file, sectorSize, sect, seg);
      assert |vol.Sector(p[0])| == sectorSize;
      WholeSectorInFile(file, fat, sectorSize, sect);
      WriteSectorFrame(file, sectorSize, sect, seg);
      forall i | 0 <= i < |p[1..]| ensures |FatVolume(written, fat, sectorSize).Sector(p[1..][i])| == sectorSize {
        assert |vol.Sector(p[i + 1])| == sectorSize;
        WholeSectorInFile(file, fat, sectorSize, p[i + 1]);
        WholeSectorInFile(written, fat, sectorSize, p[i + 1]);
      }
      WriteKeepsLength(written, fat, sectorSize, fat[sect], p[1..], Remainder(data, |p|, sectorSize));
    }
  }

  lemma {:induction false} SameGather(vol: Volume, vol': Volume, q: seq<nat>)
    requires vol.Valid() && vol'.Valid() && vol.sectorSize == vol'.sectorSize && vol.fat == vol'.fat
    requires forall i :: 0 <= i < |q| ==> vol'.Sector(q[i]) == vol.Sector(q[i])
    ensures vol'.Gather(q) == vol.Gather(q)
    ensures vol.AllReadable(q) ==> vol'.AllReadable(q)
    decreases |q|
  {
    if q != [] {
      assert vol'.Sector(q[0]) == vol.Sector(q[0]);
      forall i | 0 <= i < |q[1..]| ensures vol'.Sector(q[1..][i]) == vol.Sector(q[1..][i]) {
        assert vol'.Sector(q[i + 1]) == vol.Sector(q[i + 1]);
      }
      SameGather(vol, vol', q[1..]);
      if vol.AllReadable(q) {
        forall i | 0 <= i < |q| ensures vol'.Readable(q[i]) { assert vol.Readable(q[i]); }
      }
    }
  }

  /** The chain a stream was read along. */
  ghost predicate ReadAlong(vol: Volume, start: nat, size: nat, p: seq<nat>)
    requires vol.Valid()
  {
    if size == UNKNOWN_SIZE then IsChain(vol.fat, start, p) && vol.AllReadable(p) else vol.Holds(start, size, p)
  }

  lemma ChainOfOpen(vol: Volume, start: nat, size: nat) returns (p: seq<nat>)
    requires vol.Valid() && vol.Open(start, size).Ok?
    ensures ReadAlong(vol, start, size, p)
  {
    if size == UNKNOWN_SIZE {
      vol.OpenUnknownSize(start);
      p :| IsChain(vol.fat, start, p) && vol.AllReadable(p);
    } else {
      vol.OpenKnownSize(start, size);
      p :| vol.Holds(start, size, p);
    }
  }

  lemma SameChainSameStream(vol: Volume, vol': Volume, start: nat, size: nat, p: seq<nat>)
    requires vol.Valid() && vol'.Valid() && vol.sectorSize == vol'.sectorSize && vol.fat == vol'.fat
    requires ReadAlong(vol, start, size, p)
    requires forall i :: 0 <= i < |p| ==> vol'.Sector(p[i]) == vol.Sector(p[i])
    ensures vol'.Open(start, size) == vol.Open(start, size)
  {
    SameGather(vol, vol', p);
    if size == UNKNOWN_SIZE {
      vol.OpenUnknownSize(start);
      vol'.OpenUnknownSize(start);
    } else {
      vol.OpenKnownSize(start, size);
      vol'.OpenKnownSize(start, size);
      assert vol'.Holds(start, size, p);
    }
  }

  /** Any stream that opens along a chain disjoint from the written one opens with the same content
      afterwards, whether its size is known or not. */
  lemma DisjointStreamUnchanged(
    file: seq<byte>, fat: seq<nat>, sectorSize: nat, start: nat, data: seq<byte>, p: seq<nat>,
    other: nat, q: seq<nat>, size: nat)
    requires sectorSize > 0
    requires FatVolume(file, fat, sectorSize).Holds(start, |data|, p)
    requires IsChain(fat, other, q) && Disjoint(p, q)
    requires FatVolume(file, fat, sectorSize).Open(other, size).Ok?
    ensures var file' := WriteStream(file, fat, sectorSize, start, data).0;
            FatVolume(file', fat, sectorSize).Open(other, size) == FatVolume(file, fat, sectorSize).Open(other, size)
  {
    var vol := FatVolume(file, fat, sectorSize);
    var vol' := FatVolume(WriteStream(file, fat, sectorSize, start, data).0, fat, sectorSize);
    var r := ChainOfOpen(vol, other, size);
    ChainUnique(fat, other, q, r);
    forall i | 0 <= i < |q| ensures vol'.Sector(q[i]) == vol.Sector(q[i]) {
      assert vol.Readable(r[i]);
      SectorUnchanged(file, fat, sectorSize, start, data, p, q[i]);
    }
    SameChainSameStream(vol, vol', other, size, q);
  }

  /** In a FAT without cross links whose stream heads have no predecessor, rewriting one stream
      leaves every other stream that opens unchanged. */
  lemma OtherStreamsUnchanged(
    file: seq<byte>, fat: seq<nat>, sectorSize: nat, start: nat, data: seq<byte>, other: nat, size: nat)
    requires sectorSize > 0 && |data| != UNKNOWN_SIZE
    requires NoCrossLinks(fat) && NoPredecessor(fat, start) && NoPredecessor(fat, other) && start != other
    requires FatVolume(file, fat, sectorSize).Open(start, |data|).Ok?
    requires FatVolume(file, fat, sectorSize).Open(other, size).Ok?
    ensures var file' := WriteStream(file, fat, sectorSize, start, data).0;
            FatVolume(file', fat, sectorSize).Open(other, size) == FatVolume(file, fat, sectorSize).Open(other, size)
  {
    var vol := FatVolume(file, fat, sectorSize);
    var p := ChainOfOpen(vol, start, |data|);
    var q := ChainOfOpen(vol, other, size);
    ChainsDisjoint(fat, start, p, other, q);
    DisjointStreamUnchanged(file, fat, sectorSize, start, data, p, other, q, size);
  }
}
