/** Building the file allocation table from the header and the DIFAT blocks: loadfat_sect and loadfat. */
module FatLoading {
  import opened Common
  import opened ByteFiles
  import opened SectorChains
  import opened OleStream
  import opened StreamWriting

  datatype FatError =
    | IncompleteOleSector
    | DifatNotEnoughSectors
    | DifatFirstIndexOutOfRange
    | IncorrectDifat
    | IncorrectEndOfDifat

  /** The header fields that concern the allocation table. */
  datatype FatHeader = FatHeader(
    sectorSize: nat,
    sectFat: seq<nat>,  // the pointers that follow the fixed header fields
    csectFat: nat,
    sectDifStart: nat,
    csectDif: nat)
  {
    /** Both sector sizes of the format are multiples of four. */
    ghost predicate Valid() { sectorSize >= 8 && sectorSize % 4 == 0 }

    /** Pointers per DIFAT sector; the last word of the sector names the next one. */
    function PerDifat(): nat
      requires Valid()
    {
      sectorSize / 4 - 1
    }
  }

  /** sect2array: little-endian 32-bit words. */
  function Words(s: seq<byte>): (w: seq<nat>)
    requires |s| % 4 == 0
    ensures |w| == |s| / 4
  {
    if s == [] then [] else [LittleEndian(s[0], s[1], s[2], s[3])] + Words(s[4..])
  }

  function LittleEndian(a: byte, b: byte, c: byte, d: byte): (w: nat)
    ensures w < 0x1_0000_0000
  {
    (a as int) + 0x100 * (b as int) + 0x1_0000 * (c as int) + 0x100_0000 * (d as int)
  }

  lemma {:induction false} WordsAt(s: seq<byte>, j: nat)
    requires |s| % 4 == 0 && j < |s| / 4
    ensures Words(s)[j] == LittleEndian(s[4 * j], s[4 * j + 1], s[4 * j + 2], s[4 * j + 3])
    decreases j
  {
    if j > 0 {
      WordsAt(s[4..], j - 1);
    }
  }

  predicate Terminator(sect: nat) {
    sect == ENDOFCHAIN || sect == FREESECT
  }

  /** getsect: the sector, or an error if the file ends before it does. */
  function GetSect(file: seq<byte>, sectorSize: nat, sect: nat): Result<seq<byte>, FatError> {
    var s := FatVolume(file, [], sectorSize).Sector(sect);
    if |s| != sectorSize then Err(IncompleteOleSector) else Ok(s)
  }

  lemma WholeSector(file: seq<byte>, sectorSize: nat, sect: nat)
    ensures GetSect(file, sectorSize, sect).Ok? ==> |GetSect(file, sectorSize, sect).value| == sectorSize
  {
  }

  /** The pointers before the first terminator. */
  function Named(sects: seq<nat>): seq<nat> {
    if sects == [] || Terminator(sects[0]) then [] else [sects[0]] + Named(sects[1..])
  }

  ghost predicate Whole(file: seq<byte>, sectorSize: nat, sects: seq<nat>) {
    forall i :: 0 <= i < |sects| ==> GetSect(file, sectorSize, sects[i]).Ok?
  }

  /** The table entries stored in the given FAT sectors, concatenated. */
  ghost function Entries(file: seq<byte>, sectorSize: nat, sects: seq<nat>): seq<nat>
    requires sectorSize % 4 == 0 && Whole(file, sectorSize, sects)
  {
    if sects == [] then []
    else
      assert Whole(file, sectorSize, sects[1..]) by {
        assert forall i :: 0 <= i < |sects[1..]| ==> sects[1..][i] == sects[i + 1];
      }
      Words(GetSect(file, sectorSize, sects[0]).value) + Entries(file, sectorSize, sects[1..])
  }

  lemma WholeTail(file: seq<byte>, sectorSize: nat, sects: seq<nat>)
    requires sects != [] && Whole(file, sectorSize, sects)
    ensures GetSect(file, sectorSize, sects[0]).Ok? && Whole(file, sectorSize, sects[1..])
  {
    forall i | 0 <= i < |sects[1..]| ensures GetSect(file, sectorSize, sects[1..][i]).Ok? {
      assert sects[1..][i] == sects[i + 1];
    }
  }

  lemma WholeConcat(file: seq<byte>, sectorSize: nat, a: seq<nat>, b: seq<nat>)
    ensures Whole(file, sectorSize, a + b) <==> Whole(file, sectorSize, a) && Whole(file, sectorSize, b)
  {
    hide GetSect;
    assert forall i :: 0 <= i < |a| ==> (a + b)[i] == a[i];
    assert forall i :: 0 <= i < |b| ==> (a + b)[|a| + i] == b[i];
  }

  lemma {:induction false} EntriesConcat(file: seq<byte>, sectorSize: nat, a: seq<nat>, b: seq<nat>)
    requires sectorSize % 4 == 0 && Whole(file, sectorSize, a) && Whole(file, sectorSize, b)
    ensures Whole(file, sectorSize, a + b)
    ensures Entries(file, sectorSize, a + b) == Entries(file, sectorSize, a) + Entries(file, sectorSize, b)
    decreases |a|
  {
    hide GetSect, Words;
    WholeConcat(file, sectorSize, a, b);
    if a == [] {
      assert a + b == b;
    } else {
      assert (a + b)[1..] == a[1..] + b;
      WholeTail(file, sectorSize, a);
      EntriesConcat(file, sectorSize, a[1..], b);
    }
  }

  /** loadfat_sect: the entries of the sectors named by a list of pointers. */
  function LoadSectors(file: seq<byte>, sectorSize: nat, sects: seq<nat>): Result<seq<nat>, FatError>
    requires sectorSize % 4 == 0
  {
    if sects == [] || Terminator(sects[0]) then Ok([])
    else
      match GetSect(file, sectorSize, sects[0])
      case Err(e) => Err(e)
      case Ok(s) =>
        match LoadSectors(file, sectorSize, sects[1..])
        case Err(e) => Err(e)
        case Ok(rest) => Ok(Words(s) + rest)
  }

  lemma {:induction false} LoadSectorsSpec(file: seq<byte>, sectorSize: nat, sects: seq<nat>)
    requires sectorSize % 4 == 0
    ensures LoadSectors(file, sectorSize, sects).Ok? <==> Whole(file, sectorSize, Named(sects))
    ensures LoadSectors(file, sectorSize, sects).Ok? ==>
              LoadSectors(file, sectorSize, sects).value == Entries(file, sectorSize, Named(sects))
  {
    if sects != [] && !Terminator(sects[0]) {
      LoadSectorsSpec(file, sectorSize, sects[1..]);
      var n := Named(sects);
      assert n[0] == sects[0] && n[1..] == Named(sects[1..]);
      if LoadSectors(file, sectorSize, sects).Ok? {
        forall i | 0 <= i < |n| ensures GetSect(file, sectorSize, n[i]).Ok? {
          assert i > 0 ==> n[i] == n[1..][i - 1];
        }
      }
      if Whole(file, sectorSize, n) {
        assert GetSect(file, sectorSize, n[0]).Ok?;
        forall i | 0 <= i < |n[1..]| ensures GetSect(file, sectorSize, n[1..][i]).Ok? {
          assert n[1..][i] == n[i + 1];
        }
      }
    }
  }

  /** Follows `n` DIFAT blocks from `sect`; yields the table entries and the last "next block" pointer. */
  function LoadDifat(file: seq<byte>, h: FatHeader, sect: nat, n: nat): Result<(seq<nat>, nat), FatError>
    requires h.Valid()
    decreases n
  {
    if n == 0 then Ok(([], sect))
    else
      match GetSect(file, h.sectorSize, sect)
      case Err(e) => Err(e)
      case Ok(s) =>
        var block := Words(s);
        match LoadSectors(file, h.sectorSize, block[..h.PerDifat()])
        case Err(e) => Err(e)
        case Ok(entries) =>
          match LoadDifat(file, h, block[h.PerDifat()], n - 1)
          case Err(e) => Err(e)
          case Ok(rest) => Ok((entries + rest.0, rest.1))
  }

  /** Number of sectors after the header, counting a short last one. */
  function NbSect(file: seq<byte>, sectorSize: nat): int
    requires sectorSize > 0
  {
    CeilDiv(|file|, sectorSize) - 1
  }

  function Shrink(fat: seq<nat>, n: int): seq<nat>
    requires n >= 0
  {
    if |fat| > n then fat[..n] else fat
  }

  /** loadfat; the division rounds towards minus infinity, as in the source. */
  function LoadFat(file: seq<byte>, h: FatHeader, level: Severity): Result<seq<nat>, FatError>
    requires h.Valid() && file != []
  {
    CeilDivIsLeast(|file|, h.sectorSize);
    var nbSect := NbSect(file, h.sectorSize);
    match LoadSectors(file, h.sectorSize, h.sectFat)
    case Err(e) => Err(e)
    case Ok(first) =>
      if h.csectDif == 0 then Ok(Shrink(first, nbSect))
      else if h.csectFat <= 109 && Incorrect.RaisedAt(level) then Err(DifatNotEnoughSectors)
      else if h.sectDifStart >= nbSect then Err(DifatFirstIndexOutOfRange)
      else if h.csectDif != NbDifat(h) then Err(IncorrectDifat)
      else
        match LoadDifat(file, h, h.sectDifStart, h.csectDif)
        case Err(e) => Err(e)
        case Ok(more) =>
          if !Terminator(more.1) then Err(IncorrectEndOfDifat)
          else Ok(Shrink(first + more.0, nbSect))
  }

  function NbDifat(h: FatHeader): int
    requires h.Valid()
  {
    (h.csectFat - 109 + h.PerDifat() - 1) / h.PerDifat()
  }

  // ----- What the result means

  /** `blocks` is the chain of DIFAT sectors: each names the next one in its last word, the last a terminator. */
  ghost predicate DifatChain(file: seq<byte>, h: FatHeader, start: nat, blocks: seq<nat>)
    requires h.Valid()
    decreases |blocks|
  {
    if blocks == [] then Terminator(start)
    else
      && blocks[0] == start
      && GetSect(file, h.sectorSize, start).Ok?
      && DifatChain(file, h, Words(GetSect(file, h.sectorSize, start).value)[h.PerDifat()], blocks[1..])
  }

  /** The FAT sectors named in the DIFAT blocks, each block up to its first terminator. */
  ghost function NamedInBlocks(file: seq<byte>, h: FatHeader, blocks: seq<nat>): seq<nat>
    requires h.Valid() && Whole(file, h.sectorSize, blocks)
    decreases |blocks|
  {
    if blocks == [] then []
    else
      assert Whole(file, h.sectorSize, blocks[1..]) by {
        assert forall i :: 0 <= i < |blocks[1..]| ==> blocks[1..][i] == blocks[i + 1];
      }
      Named(Words(GetSect(file, h.sectorSize, blocks[0]).value)[..h.PerDifat()])
      + NamedInBlocks(file, h, blocks[1..])
  }

  lemma {:induction false} DifatChainWhole(file: seq<byte>, h: FatHeader, start: nat, blocks: seq<nat>)
    requires h.Valid() && DifatChain(file, h, start, blocks)
    ensures Whole(file, h.sectorSize, blocks)
    decreases |blocks|
  {
    if blocks != [] {
      DifatChainWhole(file, h, Words(GetSect(file, h.sectorSize, start).value)[h.PerDifat()], blocks[1..]);
      forall i | 0 <= i < |blocks| ensures GetSect(file, h.sectorSize, blocks[i]).Ok? {
        assert i > 0 ==> blocks[i] == blocks[1..][i - 1];
      }
    }
  }

  /** The table described by the header and by the DIFAT chain `blocks`. */
  ghost predicate Describes(file: seq<byte>, h: FatHeader, blocks: seq<nat>, fat: seq<nat>)
    requires h.Valid() && file != []
  {
    CeilDivIsLeast(|file|, h.sectorSize);
    && Whole(file, h.sectorSize, blocks)
    && var sects := Named(h.sectFat) + NamedInBlocks(file, h, blocks);
    && Whole(file, h.sectorSize, sects)
    && fat == Shrink(Entries(file, h.sectorSize, sects), NbSect(file, h.sectorSize))
  }

  ghost predicate DifatIs(file: seq<byte>, h: FatHeader, sect: nat, n: nat, entries: seq<nat>, blocks: seq<nat>)
    requires h.Valid()
  {
    && DifatChain(file, h, sect, blocks)
    && |blocks| == n
    && Whole(file, h.sectorSize, blocks)
    && Whole(file, h.sectorSize, NamedInBlocks(file, h, blocks))
    && entries == Entries(file, h.sectorSize, NamedInBlocks(file, h, blocks))
  }

  lemma {:induction false} LoadDifatSound(file: seq<byte>, h: FatHeader, sect: nat, n: nat) returns (blocks: seq<nat>)
    requires h.Valid()
    requires LoadDifat(file, h, sect, n).Ok? && Terminator(LoadDifat(file, h, sect, n).value.1)
    ensures DifatIs(file, h, sect, n, LoadDifat(file, h, sect, n).value.0, blocks)
    decreases n
  {
    if n == 0 {
      blocks := [];
    } else {
      var words := Words(GetSect(file, h.sectorSize, sect).value);
      var here, next := words[..h.PerDifat()], words[h.PerDifat()];
      LoadSectorsSpec(file, h.sectorSize, here);
      var rest := LoadDifatSound(file, h, next, n - 1);
      blocks := [sect] + rest;
      assert blocks[1..] == rest;
      DifatChainWhole(file, h, sect, blocks);
      EntriesConcat(file, h.sectorSize, Named(here), NamedInBlocks(file, h, rest));
    }
  }

  lemma {:induction false} LoadDifatComplete(
    file: seq<byte>, h: FatHeader, sect: nat, n: nat, entries: seq<nat>, blocks: seq<nat>)
    requires h.Valid() && DifatIs(file, h, sect, n, entries, blocks)
    ensures LoadDifat(file, h, sect, n).Ok? && LoadDifat(file, h, sect, n).value.0 == entries
    ensures Terminator(LoadDifat(file, h, sect, n).value.1)
    decreases n
  {
    if n > 0 {
      var words := Words(GetSect(file, h.sectorSize, sect).value);
      var here, next := words[..h.PerDifat()], words[h.PerDifat()];
      var rest := blocks[1..];
      DifatChainWhole(file, h, next, rest);
      var a, b := Named(here), NamedInBlocks(file, h, rest);
      WholeConcat(file, h.sectorSize, a, b);
      EntriesConcat(file, h.sectorSize, a, b);
      LoadSectorsSpec(file, h.sectorSize, here);
      LoadDifatComplete(file, h, next, n - 1, Entries(file, h.sectorSize, b), rest);
    }
  }

  /** The DIFAT size test can only pass when the header list overflows, and then
      it fixes the number of DIFAT blocks. */
  lemma DifatCount(h: FatHeader)
    requires h.Valid() && h.csectDif != 0
    ensures h.csectDif == NbDifat(h) <==> h.csectFat > 109 && h.csectDif == CeilDiv(h.csectFat - 109, h.PerDifat())
  {
    var k := h.PerDifat();
    var a := h.csectFat - 109;
    if a > 0 {
      assert NbDifat(h) == CeilDiv(a, k);
    } else {
      var q := (a + k - 1) / k;
      assert q * k <= a + k - 1 < k;
      if q >= 1 { MulMonotone(1, q, k); }
    }
  }

  ghost predicate DifatHeaderOk(file: seq<byte>, h: FatHeader)
    requires h.Valid() && file != []
  {
    && h.csectFat > 109
    && h.csectDif == CeilDiv(h.csectFat - 109, h.PerDifat())
    && h.sectDifStart < NbSect(file, h.sectorSize)
  }

  /** Loading without DIFAT yields exactly the table named by the header list. */
  lemma LoadFatFromHeader(file: seq<byte>, h: FatHeader, level: Severity, fat: seq<nat>)
    requires h.Valid() && file != [] && h.csectDif == 0
    ensures LoadFat(file, h, level) == Ok(fat) <==> Describes(file, h, [], fat)
  {
    LoadSectorsSpec(file, h.sectorSize, h.sectFat);
    assert Named(h.sectFat) + [] == Named(h.sectFat);
  }

  /** Loading with DIFAT succeeds exactly when the header counts agree and the DIFAT chain has the declared
      length; the result is the table that header and chain describe. */
  lemma LoadFatFromDifat(file: seq<byte>, h: FatHeader, level: Severity, fat: seq<nat>)
    requires h.Valid() && file != [] && h.csectDif != 0
    ensures LoadFat(file, h, level) == Ok(fat) <==>
            && DifatHeaderOk(file, h)
            && exists blocks :: |blocks| == h.csectDif && DifatChain(file, h, h.sectDifStart, blocks)
                                && Describes(file, h, blocks, fat)
  {
    DifatCount(h);
    LoadSectorsSpec(file, h.sectorSize, h.sectFat);
    if LoadFat(file, h, level) == Ok(fat) {
      var blocks := LoadDifatSound(file, h, h.sectDifStart, h.csectDif);
      EntriesConcat(file, h.sectorSize, Named(h.sectFat), NamedInBlocks(file, h, blocks));
      assert Describes(file, h, blocks, fat);
    }
    if DifatHeaderOk(file, h) {
      forall blocks | |blocks| == h.csectDif && DifatChain(file, h, h.sectDifStart, blocks)
                      && Describes(file, h, blocks, fat)
        ensures LoadFat(file, h, level) == Ok(fat)
      {
        var a, b := Named(h.sectFat), NamedInBlocks(file, h, blocks);
        WholeConcat(file, h.sectorSize, a, b);
        EntriesConcat(file, h.sectorSize, a, b);
        LoadDifatComplete(file, h, h.sectDifStart, h.csectDif, Entries(file, h.sectorSize, b), blocks);
      }
    }
  }

  /** Every table index but the last stands for a sector that lies wholly in the file. */
  lemma LoadedSectorsInFile(file: seq<byte>, h: FatHeader, level: Severity, sect: nat)
    requires h.Valid() && file != [] && LoadFat(file, h, level).Ok?
    requires sect < |LoadFat(file, h, level).value|
    ensures FatVolume(file, LoadFat(file, h, level).value, h.sectorSize).Readable(sect)
  {
    hide LoadFat, CeilDiv, Slice;
    LoadedLength(file, h, level);
    SectorEndsInFile(file, h.sectorSize, sect);
  }

  lemma LoadedLength(file: seq<byte>, h: FatHeader, level: Severity)
    requires h.Valid() && file != []
    ensures LoadFat(file, h, level).Ok? ==> |LoadFat(file, h, level).value| <= NbSect(file, h.sectorSize)
  {
    hide LoadSectors, LoadDifat, Terminator;
  }

  lemma SectorEndsInFile(file: seq<byte>, sectorSize: nat, sect: nat)
    requires sectorSize > 0
    ensures sect + 1 < NbSect(file, sectorSize) ==> |FatVolume(file, [], sectorSize).Sector(sect)| == sectorSize
  {
    CeilDivIsLeast(|file|, sectorSize);
    var n := CeilDiv(|file|, sectorSize);
    if sect + 2 < n {
      MulMonotone(sect + 2, n - 1, sectorSize);
      assert (sect + 2) * sectorSize == sectorSize + sectorSize * sect + sectorSize;
    }
  }

  /** So "incomplete OLE sector" cannot be raised for a FAT stream. */
  lemma NoIncompleteSector(file: seq<byte>, h: FatHeader, level: Severity, start: nat, size: nat)
    requires h.Valid() && file != []
    ensures LoadFat(file, h, level).Ok? ==>
              FatVolume(file, LoadFat(file, h, level).value, h.sectorSize).Open(start, size) != Err(IncompleteSector)
  {
    hide LoadFat, Volume.Readable, Volume.Walk, CeilDiv;
    if LoadFat(file, h, level).Ok? {
      var vol := FatVolume(file, LoadFat(file, h, level).value, h.sectorSize);
      forall sect | 0 <= sect < |vol.fat| ensures vol.Readable(sect) {
        LoadedSectorsInFile(file, h, level, sect);
      }
      WalkNeverIncomplete(vol, start, CeilDiv(size, h.sectorSize), false);
      WalkNeverIncomplete(vol, start, CeilDiv(|vol.fat| * h.sectorSize, h.sectorSize), true);
    }
  }

  lemma {:induction false} WalkNeverIncomplete(vol: Volume, sect: nat, n: nat, unknown: bool)
    requires forall s :: 0 <= s < |vol.fat| ==> vol.Readable(s)
    ensures vol.Walk(sect, n, unknown) != Err(IncompleteSector)
    decreases n
  {
    if n > 0 && sect != ENDOFCHAIN && sect < |vol.fat| {
      WalkNeverIncomplete(vol, vol.fat[sect], n - 1, unknown);
    }
  }
}
