/** Where in the file each byte of a stream comes from. */
module StreamAddress {
  import opened Common
  import opened ByteFiles
  import opened OleStream

  /** The file position of byte `k` of a stream laid out in whole sectors along chain `p`. */
  function Address(vol: Volume, p: seq<nat>, k: nat): nat
    requires vol.sectorSize > 0 && k / vol.sectorSize < |p|
  {
    vol.Position(p[k / vol.sectorSize]) + k % vol.sectorSize
  }

  /** Every sector but the last is whole, so that the stream's bytes stay aligned to sectors. */
  ghost predicate Flat(vol: Volume, p: seq<nat>) {
    forall i :: 0 <= i < |p| - 1 ==> |vol.Sector(p[i])| == vol.sectorSize
  }

  /** The file positions read for sector `sect`, and for a whole chain, in reading order. */
  function SectorOffsets(vol: Volume, sect: nat): (o: seq<nat>)
    ensures |o| == |vol.Sector(sect)|
    ensures forall r :: 0 <= r < |o| ==> o[r] == vol.Position(sect) + r
    ensures forall r :: 0 <= r < |o| ==> o[r] < |vol.file| && vol.Sector(sect)[r] == vol.file[o[r]]
  {
    seq(|vol.Sector(sect)|, r requires 0 <= r < |vol.Sector(sect)| => vol.Position(sect) + r)
  }

  function Offsets(vol: Volume, p: seq<nat>): seq<nat> {
    if p == [] then [] else SectorOffsets(vol, p[0]) + Offsets(vol, p[1..])
  }

  lemma {:induction false} GatherReadsOffsets(vol: Volume, p: seq<nat>)
    ensures |vol.Gather(p)| == |Offsets(vol, p)|
    ensures forall k :: 0 <= k < |vol.Gather(p)| ==>
              Offsets(vol, p)[k] < |vol.file| && vol.Gather(p)[k] == vol.file[Offsets(vol, p)[k]]
  {
    if p != [] {
      GatherReadsOffsets(vol, p[1..]);
    }
  }

  /** In a flat chain byte `k` is read from its computed address. */
  lemma {:induction false} FlatOffsets(vol: Volume, p: seq<nat>, k: nat)
    requires vol.Valid() && Flat(vol, p) && k < |Offsets(vol, p)|
    ensures k / vol.sectorSize < |p| && Offsets(vol, p)[k] == Address(vol, p, k)
    decreases |p|
  {
    hide Volume.Position, Slice;
    var S := vol.sectorSize;
    StepBlock(k, S);
    assert |p| == 1 ==> Offsets(vol, p[1..]) == [];
    if k >= |SectorOffsets(vol, p[0])| {
      assert |vol.Sector(p[0])| == S;
      forall i | 0 <= i < |p[1..]| - 1 ensures |vol.Sector(p[1..][i])| == S {
        assert |vol.Sector(p[i + 1])| == S;
      }
      FlatOffsets(vol, p[1..], k - S);
    } else {
      assert |SectorOffsets(vol, p[0])| <= S;
    }
  }

  /** If a short sector is followed by another one, the byte after it is read from a different place. */
  lemma {:induction false} ShortSectorShifts(vol: Volume, p: seq<nat>, i: nat) returns (k: nat)
    requires vol.Valid() && Distinct(p) && vol.AllReadable(p)
    requires i < |p| - 1 && |vol.Sector(p[i])| < vol.sectorSize
    ensures k < (i + 1) * vol.sectorSize && k < |Offsets(vol, p)| && k / vol.sectorSize < |p|
    ensures Offsets(vol, p)[k] != Address(vol, p, k)
    decreases i
  {
    hide *;
    if i == 0 {
      k := ShiftsAtOnce(vol, p);
    } else {
      OnlyOneShort(vol, p, i, 0);
      TailOfChain(vol, p);
      var k' := ShortSectorShifts(vol, p[1..], i - 1);
      k := k' + vol.sectorSize;
      BehindWholeSector(vol, p, k');
      NextMultiple(i, vol.sectorSize);
    }
  }

  /** The case that the first sector is short. */
  lemma ShiftsAtOnce(vol: Volume, p: seq<nat>) returns (k: nat)
    requires vol.Valid() && Distinct(p) && vol.AllReadable(p) && |p| > 1 && |vol.Sector(p[0])| < vol.sectorSize
    ensures k < vol.sectorSize && k < |Offsets(vol, p)| && k / vol.sectorSize < |p|
    ensures Offsets(vol, p)[k] != Address(vol, p, k)
  {
    hide Volume.Position, Slice, Volume.Readable;
    k := |vol.Sector(p[0])|;
    StepBlock(k, vol.sectorSize);
    OnlyOneShort(vol, p, 0, 1);
    assert Offsets(vol, p) == SectorOffsets(vol, p[0]) + (SectorOffsets(vol, p[1]) + Offsets(vol, p[1..][1..]));
    assert Offsets(vol, p)[k] == SectorOffsets(vol, p[1])[0];
    assert p[0] != p[1];
    DifferentPositions(vol, p[0], p[1], k);
  }

  lemma TailOfChain(vol: Volume, p: seq<nat>)
    requires Distinct(p) && vol.AllReadable(p) && p != []
    ensures Distinct(p[1..]) && vol.AllReadable(p[1..])
  {
    hide Volume.Readable;
    forall a, b | 0 <= a < b < |p[1..]| ensures p[1..][a] != p[1..][b] { assert p[a + 1] != p[b + 1]; }
    forall a | 0 <= a < |p[1..]| ensures vol.Readable(p[1..][a]) { assert vol.Readable(p[a + 1]); }
  }

  /** Behind a whole sector positions and addresses go on as they do in the rest of the chain. */
  lemma BehindWholeSector(vol: Volume, p: seq<nat>, k: nat)
    requires vol.Valid() && p != [] && |vol.Sector(p[0])| == vol.sectorSize
    requires k < |Offsets(vol, p[1..])| && k / vol.sectorSize < |p[1..]|
    ensures k + vol.sectorSize < |Offsets(vol, p)| && (k + vol.sectorSize) / vol.sectorSize < |p|
    ensures Offsets(vol, p)[k + vol.sectorSize] == Offsets(vol, p[1..])[k]
    ensures Address(vol, p, k + vol.sectorSize) == Address(vol, p[1..], k)
  {
    hide Volume.Position, Volume.Sector, Offsets, SectorOffsets, Address;
    StepBlock(k + vol.sectorSize, vol.sectorSize);
    OffsetsBehind(vol, p, k);
    AddressBehind(vol, p, k, (k + vol.sectorSize) / vol.sectorSize, (k + vol.sectorSize) % vol.sectorSize);
  }

  lemma OffsetsBehind(vol: Volume, p: seq<nat>, k: nat)
    requires p != [] && |vol.Sector(p[0])| == vol.sectorSize && k < |Offsets(vol, p[1..])|
    ensures k + vol.sectorSize < |Offsets(vol, p)| && Offsets(vol, p)[k + vol.sectorSize] == Offsets(vol, p[1..])[k]
  {
    hide Volume.Position, Slice;
  }

  lemma AddressBehind(vol: Volume, p: seq<nat>, k: nat, block: nat, rest: nat)
    requires vol.Valid() && block == (k + vol.sectorSize) / vol.sectorSize == k / vol.sectorSize + 1 < |p|
    requires rest == (k + vol.sectorSize) % vol.sectorSize == k % vol.sectorSize
    ensures Address(vol, p, k + vol.sectorSize) == Address(vol, p[1..], k)
  {
    hide Volume.Position;
    assert p[block] == p[1..][block - 1];
  }

  lemma NextMultiple(i: nat, b: nat)
    ensures (i + 1) * b == i * b + b
  {
  }

  lemma OnlyOneShort(vol: Volume, p: seq<nat>, i: nat, j: nat)
    requires vol.Valid() && Distinct(p) && vol.AllReadable(p)
    requires i < |p| && j < |p| && i != j && |vol.Sector(p[i])| < vol.sectorSize
    ensures |vol.Sector(p[j])| == vol.sectorSize
  {
    assert vol.Readable(p[i]) && vol.Readable(p[j]);
    assert p[Min(i, j)] != p[Max(i, j)];
  }

  lemma DifferentPositions(vol: Volume, a: nat, b: nat, r: nat)
    requires vol.Valid() && a != b && r < vol.sectorSize
    ensures vol.Position(a) + r != vol.Position(b)
  {
    if a < b {
      MulMonotone(a + 1, b, vol.sectorSize);
    } else {
      MulMonotone(b, a, vol.sectorSize);
      MulMonotone(b + 1, a, vol.sectorSize);
    }
  }

  /** Address translation is exact for all bytes of a stream if and only if no sector
      but the last one of its chain is cut short by the end of the file. */
  lemma TranslationExactIffFlat(vol: Volume, start: nat, size: nat, p: seq<nat>)
    requires vol.Valid() && vol.Holds(start, size, p)
    ensures |Offsets(vol, p)| >= size
    ensures Flat(vol, p) <==>
            forall k :: 0 <= k < size ==> k / vol.sectorSize < |p| && Offsets(vol, p)[k] == Address(vol, p, k)
  {
    hide Volume.Position, Slice, Volume.Readable, CeilDiv, Offsets, Address, Distinct;
    var S := vol.sectorSize;
    GatherReadsOffsets(vol, p);
    CeilDivIsLeast(size, S);
    if Flat(vol, p) {
      forall k | 0 <= k < size ensures k / S < |p| && Offsets(vol, p)[k] == Address(vol, p, k) {
        FlatOffsets(vol, p, k);
      }
    } else {
      var i :| 0 <= i < |p| - 1 && |vol.Sector(p[i])| != S;
      var k := ShortSectorShifts(vol, p, i);
      MulMonotone(i + 1, |p| - 1, S);
    }
  }

  /** A caller can tell beforehand: the table's last sector is whole, or it ends the chain, or it is not in it. */
  lemma FlatIff(vol: Volume, p: seq<nat>)
    requires vol.Valid() && vol.AllReadable(p)
    ensures Flat(vol, p) <==>
            || (vol.fat != [] && |vol.Sector(|vol.fat| - 1)| == vol.sectorSize)
            || forall i :: 0 <= i < |p| - 1 ==> p[i] != |vol.fat| - 1
  {
  }
}
