/** The file object: FAT loading, stream access with its cache, and in-place writing, as methods over the file. */
module OleFile {
  import opened Common
  import opened ByteFiles
  import opened SectorChains
  import opened OleStream
  import opened StreamWriting
  import opened FatLoading
  import opened MiniStreams

  class OleFileIO {
    const header: FatHeader
    const layout: MiniLayout
    const level: Severity
    const fp: BinaryFile
    var fat: seq<nat>
    var minifat: seq<nat>
    var ministream: BinaryFile?

    ghost predicate Valid()
      reads this
    {
      header.Valid() && layout.Valid() && ministream != fp
    }

    function MainVolume(): Volume
      reads this, fp
    {
      FatVolume(fp.content, fat, header.sectorSize)
    }

    /** What is cached agrees with a lookup from scratch. */
    ghost predicate Coherent()
      requires Valid()
      reads this, fp, ministream
    {
      ministream != null ==>
        MiniVolume(MainVolume(), layout, level) == Ok(Volume(ministream.content, minifat, 0, layout.miniSectorSize))
    }

    constructor (fp: BinaryFile, header: FatHeader, layout: MiniLayout, level: Severity)
      requires header.Valid() && layout.Valid()
      ensures Valid() && Coherent()
      ensures this.fp == fp && this.header == header && this.layout == layout && this.level == level
      ensures fat == [] && ministream == null
    {
      this.fp, this.header, this.layout, this.level := fp, header, layout, level;
      fat, minifat, ministream := [], [], null;
    }

    method ReadSector(sect: nat) returns (r: Result<seq<byte>, FatError>)
      modifies fp`pos, fp`readCount
      ensures r == GetSect(fp.content, header.sectorSize, sect)
    {
      fp.Seek(header.sectorSize * (sect + 1));
      assert FatVolume(fp.content, [], header.sectorSize).Position(sect) == header.sectorSize * (sect + 1);
      var sector := fp.Read(header.sectorSize);
      if |sector| != header.sectorSize {
        return Err(IncompleteOleSector);
      }
      return Ok(sector);
    }

    /** loadfat_sect: appends the named sectors' entries to the table. */
    method LoadFatSect(sects: seq<nat>) returns (r: Result<(), FatError>)
      requires Valid()
      modifies this`fat, fp`pos, fp`readCount
      ensures match LoadSectors(fp.content, header.sectorSize, sects)
              case Err(e) => r == Err(e)
              case Ok(entries) => r == Ok(()) && fat == old(fat) + entries
    {
      hide LoadSectors, GetSect, Words, Terminator;
      var file, S := fp.content, header.sectorSize;
      ghost var done: seq<nat> := [];
      ghost var whole := LoadSectors(file, S, sects);
      assert sects[0..] == sects && (whole.Ok? ==> [] + whole.value == whole.value);
      for i := 0 to |sects|
        invariant fat == old(fat) + done
        invariant AlreadyLoaded(done, LoadSectors(file, S, sects[i..])) == whole
      {
        var isect := sects[i];
        LoadSectorsStep(file, S, sects, i);
        if Terminator(isect) {
          assert done + [] == done;
          return Ok(());
        }
        var s := ReadSector(isect);
        if s.Err? {
          return Err(s.error);
        }
        var nextFat := Words(s.value);
        fat := fat + nextFat;
        AlreadyLoadedTwice(done, nextFat, LoadSectors(file, S, sects[i + 1..]));
        done := done + nextFat;
      }
      NoSectorsLeft(file, S, sects);
      assert done + [] == done;
      return Ok(());
    }

    /** loadfat: afterwards the table is the one that header and DIFAT describe, or the load fails. */
    method LoadFatTable() returns (r: Result<(), FatError>)
      requires Valid() && fp.content != []
      modifies this`fat, fp`pos, fp`readCount
      ensures r.Ok? <==> LoadFat(fp.content, header, level) == Ok(fat)
      ensures r.Err? ==> LoadFat(fp.content, header, level) == Err(r.error)
    {
      hide LoadSectors, LoadDifat, CeilDiv, NbDifat;
      CeilDivIsLeast(|fp.content|, header.sectorSize);
      var nbSect := NbSect(fp.content, header.sectorSize);
      fat := [];
      r := LoadFatSect(header.sectFat);
      if r.Err? {
        return;
      }
      ghost var first := LoadSectors(fp.content, header.sectorSize, header.sectFat).value;
      assert [] + first == first;
      if header.csectDif != 0 {
        if header.csectFat <= 109 && Incorrect.RaisedAt(level) {
          return Err(DifatNotEnoughSectors);
        }
        if header.sectDifStart >= nbSect {
          return Err(DifatFirstIndexOutOfRange);
        }
        if header.csectDif != NbDifat(header) {
          return Err(IncorrectDifat);
        }
        r := LoadDifatBlocks();
        if r.Err? {
          return;
        }
      }
      if |fat| > nbSect {
        fat := fat[..nbSect];
      }
    }

    /** The loop of loadfat over the DIFAT blocks, and the check of its last pointer. */
    method LoadDifatBlocks() returns (r: Result<(), FatError>)
      requires Valid()
      modifies this`fat, fp`pos, fp`readCount
      ensures match LoadDifat(fp.content, header, header.sectDifStart, header.csectDif)
              case Err(e) => r == Err(e)
              case Ok(more) =>
                if Terminator(more.1) then r == Ok(()) && fat == old(fat) + more.0 else r == Err(IncorrectEndOfDifat)
    {
      hide LoadSectors, Words, FatHeader.PerDifat, GetSect, Terminator;
      var file, n := fp.content, header.csectDif;
      ghost var whole := LoadDifat(file, header, header.sectDifStart, n);
      ghost var done: seq<nat> := [];
      var isectDifat: nat := header.sectDifStart;
      assert whole.Ok? ==> [] + whole.value.0 == whole.value.0;
      for i := 0 to n
        invariant fat == old(fat) + done
        invariant whole == AfterBlocks(done, LoadDifat(file, header, isectDifat, n - i))
      {
        var sectorDifat := ReadSector(isectDifat);
        if sectorDifat.Err? {
          return Err(sectorDifat.error);
        }
        WholeSector(file, header.sectorSize, isectDifat);
        var difat := Words(sectorDifat.value);
        BlockShape(header, sectorDifat.value);
        r := LoadFatSect(difat[..header.PerDifat()]);
        if r.Err? {
          return;
        }
        ghost var entries := LoadSectors(file, header.sectorSize, difat[..header.PerDifat()]).value;
        AfterBlocksTwice(done, entries, LoadDifat(file, header, difat[header.PerDifat()], n - i - 1));
        assert old(fat) + done + entries == old(fat) + (done + entries);
        isectDifat := difat[header.PerDifat()];
        done := done + entries;
      }
      assert done + [] == done;
      if !Terminator(isectDifat) {
        return Err(IncorrectEndOfDifat);
      }
      return Ok(());
    }

    /** loadminifat. */
    method LoadMiniFatTable() returns (r: Result<(), ReadError>)
      requires Valid()
      modifies this`minifat, fp`pos, fp`readCount
      ensures match LoadMiniFat(MainVolume(), layout, level)
              case Err(e) => r == Err(e)
              case Ok(m) => r == Ok(()) && minifat == m
    {
      var streamSize := layout.csectMiniFat * header.sectorSize;
      var nbMiniSectors := CeilDiv(layout.rootSize, layout.miniSectorSize);
      if nbMiniSectors * 4 > streamSize && Incorrect.RaisedAt(level) {
        return Err(MiniStreamLargerThanMiniFat);
      }
      var s := OpenStream(fp, layout.miniFatStart, streamSize, header.sectorSize, header.sectorSize, fat);
      if s.Err? {
        return Err(StreamError(s.error));
      }
      MultipleOfFour(layout.csectMiniFat, header.sectorSize);
      OpenedSize(MainVolume(), layout.miniFatStart, streamSize);
      minifat := Words(s.value);
      if |minifat| > nbMiniSectors {
        minifat := minifat[..nbMiniSectors];
      }
      return Ok(());
    }

    /** `_open`: through the cache the result is that of a lookup from scratch. */
    method Open(start: nat, size: nat, forceFat: bool) returns (r: Result<seq<byte>, ReadError>)
      requires Valid() && Coherent()
      modifies this`minifat, this`ministream, fp`pos, fp`readCount
      modifies if ministream == null then {} else {ministream}
      ensures Valid() && Coherent()
      ensures ministream == old(ministream) || (old(ministream) == null && fresh(ministream))
      ensures r == OpenFresh(MainVolume(), layout, level, start, size, forceFat)
    {
      hide Volume.Open, LoadMiniFat;
      if size < layout.cutoff && !forceFat {
        if ministream == null {
          var loaded := LoadMiniFatTable();
          if loaded.Err? {
            return Err(loaded.error);
          }
          var content := OpenStream(fp, layout.rootStart, layout.rootSize, header.sectorSize, header.sectorSize, fat);
          if content.Err? {
            return Err(StreamError(content.error));
          }
          ministream := new BinaryFile(content.value);
        }
        var s := OpenStream(ministream, start, size, 0, layout.miniSectorSize, minifat);
        r := Lift(s);
      } else {
        var s := OpenStream(fp, start, size, header.sectorSize, header.sectorSize, fat);
        r := Lift(s);
      }
    }

    /** write_sect. */
    method WriteSect(sect: nat, data: seq<byte>)
      requires Valid()
      modifies fp`pos, fp`content
      ensures fp.content == WriteSector(old(fp.content), header.sectorSize, sect, data)
    {
      var position := header.sectorSize * (sect + 1);
      assert WriteSector(fp.content, header.sectorSize, sect, data)
          == Overwrite(fp.content, position, Pad(data, header.sectorSize));
      hide WriteSector, Overwrite;
      fp.Seek(position);
      var padded := data;
      if |data| < header.sectorSize {
        padded := data + Zeros(header.sectorSize - |data|);
      }
      assert padded == Pad(data, header.sectorSize);
      fp.Write(padded);
    }

    /** write_stream for the directory entry (start, size). */
    method WriteStreamData(start: nat, size: nat, data: seq<byte>) returns (r: Result<(), WriteError>)
      requires Valid()
      modifies fp`pos, fp`content
      ensures size != |data| ==> r == Err(DifferentSize) && fp.content == old(fp.content)
      ensures size == |data| < layout.cutoff ==> r == Err(MiniFatNotImplemented) && fp.content == old(fp.content)
      ensures size == |data| >= layout.cutoff ==>
                (fp.content, r) == WriteStream(old(fp.content), fat, header.sectorSize, start, data)
    {
      if size != |data| {
        return Err(DifferentSize);
      }
      if size < layout.cutoff {
        return Err(MiniFatNotImplemented);
      }
      FitsCeilDiv(data, header.sectorSize);
      var last := WriteSegments(start, CeilDiv(size, header.sectorSize), data);
      if last.Err? {
        return Err(last.error);
      }
      if last.value != ENDOFCHAIN {
        return Err(BadLastSectorIndex);
      }
      return Ok(());
    }

    /** The loop of write_stream; yields the sector it would go to next. */
    method WriteSegments(start: nat, n: nat, data: seq<byte>) returns (r: Result<nat, WriteError>)
      requires Valid() && Fits(data, n, header.sectorSize)
      modifies fp`pos, fp`content
      ensures (fp.content, r) == WriteWalk(old(fp.content), fat, header.sectorSize, start, n, data)
    {
      hide Fits, WriteSector, Segment, Remainder, Rest;
      var S := header.sectorSize;
      ghost var whole := WriteWalk(fp.content, fat, S, start, n, data);
      WholeIsRest(data, n, S);
      var sect: nat := start;
      for i := 0 to n
        invariant whole == WriteWalk(fp.content, fat, S, sect, n - i, Rest(data, i, n, S))
      {
        var dataSector := NextSegment(data, i, n, S);
        WriteSect(sect, dataSector);
        if sect >= |fat| {
          return Err(FatIndexOutOfRange);
        }
        sect := fat[sect];
      }
      return Ok(sect);
    }
  }

  ghost function AlreadyLoaded(done: seq<nat>, r: Result<seq<nat>, FatError>): Result<seq<nat>, FatError> {
    match r
    case Err(e) => Err(e)
    case Ok(rest) => Ok(done + rest)
  }

  /** What one turn of the loop of loadfat_sect adds. */
  lemma LoadSectorsStep(file: seq<byte>, sectorSize: nat, sects: seq<nat>, i: nat)
    requires sectorSize % 4 == 0 && i < |sects|
    ensures LoadSectors(file, sectorSize, sects[i..])
         == if Terminator(sects[i]) then Ok([])
            else
              match GetSect(file, sectorSize, sects[i])
              case Err(e) => Err(e)
              case Ok(s) => AlreadyLoaded(Words(s), LoadSectors(file, sectorSize, sects[i + 1..]))
    ensures GetSect(file, sectorSize, sects[i]).Ok? ==> |GetSect(file, sectorSize, sects[i]).value| % 4 == 0
  {
    assert sects[i..][1..] == sects[i + 1..];
  }

  lemma NoSectorsLeft(file: seq<byte>, sectorSize: nat, sects: seq<nat>)
    requires sectorSize % 4 == 0
    ensures LoadSectors(file, sectorSize, sects[|sects|..]) == Ok([])
  {
  }

  lemma AlreadyLoadedTwice(a: seq<nat>, b: seq<nat>, r: Result<seq<nat>, FatError>)
    ensures AlreadyLoaded(a, AlreadyLoaded(b, r)) == AlreadyLoaded(a + b, r)
  {
    if r.Ok? { assert a + (b + r.value) == (a + b) + r.value; }
  }

  lemma BlockShape(h: FatHeader, sector: seq<byte>)
    requires h.Valid() && |sector| == h.sectorSize
    ensures |Words(sector)| == h.PerDifat() + 1
  {
  }

  ghost function AfterBlocks(done: seq<nat>, r: Result<(seq<nat>, nat), FatError>): Result<(seq<nat>, nat), FatError> {
    match r
    case Err(e) => Err(e)
    case Ok(rest) => Ok((done + rest.0, rest.1))
  }

  lemma AfterBlocksTwice(a: seq<nat>, b: seq<nat>, r: Result<(seq<nat>, nat), FatError>)
    ensures AfterBlocks(a, AfterBlocks(b, r)) == AfterBlocks(a + b, r)
  {
    if r.Ok? { assert a + (b + r.value.0) == (a + b) + r.value.0; }
  }

  /** Cuts the segment for sector `i` out of `data`; both of the source's length assertions hold. */
  method NextSegment(data: seq<byte>, i: nat, n: nat, sectorSize: nat) returns (dataSector: seq<byte>)
    requires sectorSize > 0 && i < n && Fits(data, n, sectorSize)
    ensures dataSector == Segment(Rest(data, i, n, sectorSize), n - i, sectorSize)
    ensures Remainder(Rest(data, i, n, sectorSize), n - i, sectorSize) == Rest(data, i + 1, n, sectorSize)
  {
    SegmentBounds(data, i, n, sectorSize);
    if i < n - 1 {
      dataSector := data[i * sectorSize..(i + 1) * sectorSize];
      assert |dataSector| == sectorSize;
    } else {
      dataSector := data[i * sectorSize..];
      assert |dataSector| % sectorSize == |data| % sectorSize;
    }
  }

  /** The data that remains to be written when `i` of `n` sectors are done. */
  function Rest(data: seq<byte>, i: nat, n: nat, sectorSize: nat): seq<byte> {
    if i < n && i * sectorSize <= |data| then data[i * sectorSize..] else []
  }

  lemma WholeIsRest(data: seq<byte>, n: nat, sectorSize: nat)
    requires Fits(data, n, sectorSize)
    ensures Rest(data, 0, n, sectorSize) == data
  {
    assert data[0..] == data;
  }

  lemma SegmentBounds(data: seq<byte>, i: nat, n: nat, sectorSize: nat)
    requires sectorSize > 0 && i < n && Fits(data, n, sectorSize)
    ensures i * sectorSize < |data|
    ensures i < n - 1 ==> (i + 1) * sectorSize == i * sectorSize + sectorSize < |data|
    ensures |data[i * sectorSize..]| % sectorSize == |data| % sectorSize
    ensures Fits(Rest(data, i, n, sectorSize), n - i, sectorSize)
    ensures Segment(Rest(data, i, n, sectorSize), n - i, sectorSize)
         == if i < n - 1 then data[i * sectorSize..(i + 1) * sectorSize] else data[i * sectorSize..]
    ensures Remainder(Rest(data, i, n, sectorSize), n - i, sectorSize) == Rest(data, i + 1, n, sectorSize)
  {
    MulMonotone(i, n - 1, sectorSize);
    if i < n - 1 { MulMonotone(i + 1, n - 1, sectorSize); }
    assert (n - i - 1) * sectorSize == (n - 1) * sectorSize - i * sectorSize;
    assert (n - i) * sectorSize == n * sectorSize - i * sectorSize;
    assert (i + 1) * sectorSize == i * sectorSize + sectorSize;
    SameRemainder(|data| - i * sectorSize, i, sectorSize);
  }

  lemma SameRemainder(a: nat, i: nat, b: nat)
    requires b > 0
    ensures a % b == (a + i * b) % b
  {
    DivIs(a + i * b, b, a / b + i, a % b);
  }
}
