/** Rewriting a stream keeps the allocation table as it is stored: the file reopens with the same table. */
module FatRewriting {
  import opened Common
  import opened ByteFiles
  import opened SectorChains
  import opened OleStream
  import opened StreamWriting
  import opened FatLoading

  /** The sectors that loading the table reads: DIFAT blocks and the FAT sectors they name. */
  ghost function DifatSectors(file: seq<byte>, h: FatHeader, sect: nat, n: nat): seq<nat>
    requires h.Valid()
    decreases n
  {
    if n == 0 || GetSect(file, h.sectorSize, sect).Err? then []
    else
      var block := Words(GetSect(file, h.sectorSize, sect).value);
      [sect] + Named(block[..h.PerDifat()]) + DifatSectors(file, h, block[h.PerDifat()], n - 1)
  }

  /** The sectors that hold the table: those the header names, and those the DIFAT takes and names. */
  ghost function TableSectors(file: seq<byte>, h: FatHeader): seq<nat>
    requires h.Valid()
  {
    Named(h.sectFat) + DifatSectors(file, h, h.sectDifStart, h.csectDif)
  }

  /** The whole sectors among `sects` are the same in both files. */
  ghost predicate SameSectors(file: seq<byte>, file': seq<byte>, sectorSize: nat, sects: seq<nat>) {
    forall x :: x in sects && GetSect(file, sectorSize, x).Ok? ==>
      GetSect(file', sectorSize, x) == GetSect(file, sectorSize, x)
  }

  lemma {:induction false} SameLoadSectors(file: seq<byte>, file': seq<byte>, sectorSize: nat, sects: seq<nat>)
    requires sectorSize % 4 == 0 && LoadSectors(file, sectorSize, sects).Ok?
    requires SameSectors(file, file', sectorSize, Named(sects))
    ensures LoadSectors(file', sectorSize, sects) == LoadSectors(file, sectorSize, sects)
    decreases |sects|
  {
    hide GetSect, Words;
    if sects != [] && !Terminator(sects[0]) {
      assert sects[0] in Named(sects);
      SameSectorsPart(file, file', sectorSize, Named(sects), Named(sects[1..]));
      SameLoadSectors(file, file', sectorSize, sects[1..]);
    }
  }

  lemma SameSectorsPart(file: seq<byte>, file': seq<byte>, sectorSize: nat, all: seq<nat>, part: seq<nat>)
    requires SameSectors(file, file', sectorSize, all) && forall x :: x in part ==> x in all
    ensures SameSectors(file, file', sectorSize, part)
  {
  }

  lemma {:induction false} SameLoadDifat(file: seq<byte>, file': seq<byte>, h: FatHeader, sect: nat, n: nat)
    requires h.Valid() && LoadDifat(file, h, sect, n).Ok?
    requires SameSectors(file, file', h.sectorSize, DifatSectors(file, h, sect, n))
    ensures LoadDifat(file', h, sect, n) == LoadDifat(file, h, sect, n)
    decreases n
  {
    hide GetSect, Words, SameSectors, LoadSectors;
    if n > 0 {
      WholeSector(file, h.sectorSize, sect);
      var all := DifatSectors(file, h, sect, n);
      var block := Words(GetSect(file, h.sectorSize, sect).value);
      SameSector(file, file', h.sectorSize, all, sect);
      SameSectorsPart(file, file', h.sectorSize, all, Named(block[..h.PerDifat()]));
      SameSectorsPart(file, file', h.sectorSize, all, DifatSectors(file, h, block[h.PerDifat()], n - 1));
      SameLoadSectors(file, file', h.sectorSize, block[..h.PerDifat()]);
      SameLoadDifat(file, file', h, block[h.PerDifat()], n - 1);
    }
  }

  lemma SameSector(file: seq<byte>, file': seq<byte>, sectorSize: nat, all: seq<nat>, x: nat)
    requires SameSectors(file, file', sectorSize, all) && x in all && GetSect(file, sectorSize, x).Ok?
    ensures GetSect(file', sectorSize, x) == GetSect(file, sectorSize, x)
  {
  }

  /** The table depends on the number of sectors of the file and on the sectors that hold it. */
  lemma SameTable(file: seq<byte>, file': seq<byte>, h: FatHeader, level: Severity)
    requires h.Valid() && file != [] && file' != [] && LoadFat(file, h, level).Ok?
    requires NbSect(file', h.sectorSize) == NbSect(file, h.sectorSize)
    requires SameSectors(file, file', h.sectorSize, TableSectors(file, h))
    ensures LoadFat(file', h, level) == LoadFat(file, h, level)
  {
    hide LoadSectors, LoadDifat, SameSectors, CeilDiv;
    SameSectorsPart(file, file', h.sectorSize, TableSectors(file, h), Named(h.sectFat));
    SameLoadSectors(file, file', h.sectorSize, h.sectFat);
    if h.csectDif > 0 {
      var difat := DifatSectors(file, h, h.sectDifStart, h.csectDif);
      SameSectorsPart(file, file', h.sectorSize, TableSectors(file, h), difat);
      SameLoadDifat(file, file', h, h.sectDifStart, h.csectDif);
    }
  }

  // ----- Writing along a chain of sectors that the file has

  /** Writing sectors below `bound` makes the file at most that long. */
  lemma {:induction false} WriteWithin(file: seq<byte>, fat: seq<nat>, sectorSize: nat, sect: nat, p: seq<nat>,
                                       data: seq<byte>, bound: nat)
    requires sectorSize > 0 && Fits(data, |p|, sectorSize) && IsChain(fat, sect, p)
    requires |file| <= bound && forall i :: 0 <= i < |p| ==> sectorSize * (p[i] + 1) + sectorSize <= bound
    ensures |WriteWalk(file, fat, sectorSize, sect, |p|, data).0| <= bound
    decreases |p|
  {
    hide Fits, Segment, Remainder, WriteSector;
    if p != [] {
      FitsShape(data, |p|, sectorSize);
      var written := WriteSector(file, sectorSize, sect, Segment(data, |p|, sectorSize));
      WriteSectorFrame(file, sectorSize, sect, Segment(data, |p|, sectorSize));
      forall i | 0 <= i < |p[1..]| ensures sectorSize * (p[1..][i] + 1) + sectorSize <= bound {
        assert p[1..][i] == p[i + 1];
      }
      WriteWithin(written, fat, sectorSize, fat[sect], p[1..], Remainder(data, |p|, sectorSize), bound);
    }
  }

  lemma SameCount(a: nat, b: nat, sectorSize: nat)
    requires sectorSize > 0 && 0 < a <= b <= CeilDiv(a, sectorSize) * sectorSize
    ensures CeilDiv(b, sectorSize) == CeilDiv(a, sectorSize)
  {
    hide CeilDiv;
    CeilDivIsLeast(a, sectorSize);
    CeilDivIsLeast(b, sectorSize);
    var q, r := CeilDiv(a, sectorSize), CeilDiv(b, sectorSize);
    Cancel(q - 1, r, sectorSize);
    Cancel(r - 1, q, sectorSize);
  }

  lemma Cancel(x: int, y: int, k: nat)
    requires x * k < y * k
    ensures x < y
  {
    if x >= y { MulMonotone(y, x, k); }
  }

  /** A sector of the table's range lies before the end of the last sector of the file. */
  lemma SectorWithin(count: nat, sectorSize: nat, sect: nat)
    requires sect + 1 < count
    ensures sectorSize * (sect + 1) + sectorSize <= count * sectorSize
  {
    MulMonotone(sect + 2, count, sectorSize);
    assert (sect + 2) * sectorSize == sectorSize * (sect + 1) + sectorSize;
  }

  /** Rewriting along a chain of the table keeps the number of sectors of the file. */
  lemma RewriteKeepsCount(
    file: seq<byte>, fat: seq<nat>, sectorSize: nat, start: nat, p: seq<nat>, data: seq<byte>)
    requires sectorSize > 0 && file != [] && |fat| <= NbSect(file, sectorSize)
    requires IsChain(fat, start, p) && |p| == CeilDiv(|data|, sectorSize)
    ensures var file' := WriteStream(file, fat, sectorSize, start, data).0;
            |file'| >= |file| && NbSect(file', sectorSize) == NbSect(file, sectorSize)
  {
    hide WriteWalk, CeilDiv, Fits, Distinct;
    var count := CeilDiv(|file|, sectorSize);
    CeilDivIsLeast(|file|, sectorSize);
    FitsCeilDiv(data, sectorSize);
    forall i | 0 <= i < |p| ensures sectorSize * (p[i] + 1) + sectorSize <= count * sectorSize {
      ChainStep(fat, start, p, i);
      SectorWithin(count, sectorSize, p[i]);
    }
    WriteWithin(file, fat, sectorSize, start, p, data, count * sectorSize);
    WriteFrame(file, fat, sectorSize, start, |p|, data);
    SameCount(|file|, |WriteWalk(file, fat, sectorSize, start, |p|, data).0|, sectorSize);
  }

  /** A whole sector cannot become longer. */
  lemma LongerSector(file: seq<byte>, file': seq<byte>, fat: seq<nat>, sectorSize: nat, sect: nat)
    requires FatVolume(file, fat, sectorSize).Sector(sect) <= FatVolume(file', fat, sectorSize).Sector(sect)
    requires GetSect(file, sectorSize, sect).Ok?
    ensures GetSect(file', sectorSize, sect) == GetSect(file, sectorSize, sect)
  {
    hide Slice;
    var s, s' := FatVolume(file, fat, sectorSize).Sector(sect), FatVolume(file', fat, sectorSize).Sector(sect);
    assert |s| == sectorSize && s == s';
  }

  /** It keeps every whole sector off the chain. */
  lemma RewriteKeepsSectors(
    file: seq<byte>, fat: seq<nat>, sectorSize: nat, start: nat, p: seq<nat>, data: seq<byte>, sects: seq<nat>)
    requires sectorSize > 0 && IsChain(fat, start, p) && |p| == CeilDiv(|data|, sectorSize)
    requires Disjoint(p, sects)
    ensures SameSectors(file, WriteStream(file, fat, sectorSize, start, data).0, sectorSize, sects)
  {
    hide WriteWalk, CeilDiv, Fits, Slice;
    var file' := WriteStream(file, fat, sectorSize, start, data).0;
    FitsCeilDiv(data, sectorSize);
    VisitedIsChain(fat, start, p);
    forall x | x in sects && GetSect(file, sectorSize, x).Ok?
      ensures GetSect(file', sectorSize, x) == GetSect(file, sectorSize, x)
    {
      assert x !in p;
      UnvisitedSector(file, fat, sectorSize, start, |p|, data, x);
      assert file' == WriteWalk(file, fat, sectorSize, start, |p|, data).0;
      LongerSector(file, file', fat, sectorSize, x);
    }
  }

  /** Rewriting a stream along a chain that avoids the sectors of the table leaves the table as it loads. */
  lemma RewriteKeepsTable(
    file: seq<byte>, h: FatHeader, level: Severity, fat: seq<nat>, start: nat, p: seq<nat>, data: seq<byte>)
    requires h.Valid() && file != [] && LoadFat(file, h, level) == Ok(fat)
    requires IsChain(fat, start, p) && |p| == CeilDiv(|data|, h.sectorSize)
    requires Disjoint(p, TableSectors(file, h))
    ensures var file' := WriteStream(file, fat, h.sectorSize, start, data).0;
            file' != [] && LoadFat(file', h, level) == Ok(fat)
  {
    hide LoadFat, WriteStream, Disjoint, SameSectors, IsChain, CeilDiv, TableSectors;
    LoadedLength(file, h, level);
    RewriteKeepsCount(file, fat, h.sectorSize, start, p, data);
    RewriteKeepsSectors(file, fat, h.sectorSize, start, p, data, TableSectors(file, h));
    SameTable(file, WriteStream(file, fat, h.sectorSize, start, data).0, h, level);
  }

  /** So the rewritten file, opened anew, has the same table and reads back what was written. */
  lemma ReopenedReadsBack(
    file: seq<byte>, h: FatHeader, level: Severity, fat: seq<nat>, start: nat, p: seq<nat>, data: seq<byte>)
    requires h.Valid() && file != [] && LoadFat(file, h, level) == Ok(fat) && |data| != UNKNOWN_SIZE
    requires FatVolume(file, fat, h.sectorSize).Open(start, |data|).Ok?
    requires IsChain(fat, start, p) && Disjoint(p, TableSectors(file, h))
    ensures var (file', outcome) := WriteStream(file, fat, h.sectorSize, start, data);
            && outcome == Ok(()) && file' != [] && LoadFat(file', h, level) == Ok(fat)
            && FatVolume(file', fat, h.sectorSize).Open(start, |data|) == Ok(data)
  {
    var vol := FatVolume(file, fat, h.sectorSize);
    var q := ChainOfOpen(vol, start, |data|);
    ChainUnique(fat, start, p, q);
    hide LoadFat, WriteStream, Disjoint, Volume.Open, IsChain, CeilDiv, TableSectors;
    WriteReadRoundTrip(file, fat, h.sectorSize, start, data);
    RewriteKeepsTable(file, h, level, fat, start, p, data);
  }
}
