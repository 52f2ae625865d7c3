/** Reading a stream along a sector chain: the constructor of _OleStream. */
module OleStream {
  import opened Common
  import opened ByteFiles
  import opened SectorChains

  /** Declared size that the source uses for "size not known in advance". */
  const UNKNOWN_SIZE: nat := 0x7FFF_FFFF

  datatype OpenError =
    | StreamTooLarge
    | BadStartOfEmptyStream
    | IncompleteStream
    | SectorOutOfRange
    | IncompleteSector
    | BadLastSector
    | SmallerThanDeclared

  /** The file, table and geometry a stream is read from. */
  datatype Volume = Volume(file: seq<byte>, fat: seq<nat>, offset: nat, sectorSize: nat) {
    ghost predicate Valid() { sectorSize > 0 }

    function Position(sect: nat): nat { offset + sectorSize * sect }

    function Sector(sect: nat): (s: seq<byte>)
      ensures |s| <= sectorSize
    {
      Slice(file, Position(sect), sectorSize)
    }

    /** Only the last sector of the table may be cut short by the end of the file. */
    predicate Readable(sect: nat) {
      |Sector(sect)| == sectorSize || sect == |fat| - 1
    }

    ghost predicate AllReadable(p: seq<nat>) {
      forall i :: 0 <= i < |p| ==> Readable(p[i])
    }

    function Gather(p: seq<nat>): seq<byte> {
      if p == [] then [] else Sector(p[0]) + Gather(p[1..])
    }

    /** The reading loop: at most `n` more sectors from `sect`; yields the data and the sector it stopped at. */
    function Walk(sect: nat, n: nat, unknown: bool): Result<(seq<byte>, nat), OpenError>
      decreases n
    {
      if n == 0 then Ok(([], sect))
      else if sect == ENDOFCHAIN then (if unknown then Ok(([], sect)) else Err(IncompleteStream))
      else if sect >= |fat| then Err(SectorOutOfRange)
      else if !Readable(sect) then Err(IncompleteSector)
      else
        match Walk(fat[sect], n - 1, unknown)
        case Err(e) => Err(e)
        case Ok(rest) => Ok((Sector(sect) + rest.0, rest.1))
    }

    /** What the constructor of _OleStream yields: the stream's bytes or an error. */
    function Open(start: nat, declared: nat): Result<seq<byte>, OpenError>
      requires Valid()
    {
      var unknown := declared == UNKNOWN_SIZE;
      var size := if unknown then |fat| * sectorSize else declared;
      var nbSectors := CeilDiv(size, sectorSize);
      if nbSectors > |fat| then Err(StreamTooLarge)
      else if size == 0 && start != ENDOFCHAIN then Err(BadStartOfEmptyStream)
      else
        match Walk(start, nbSectors, unknown)
        case Err(e) => Err(e)
        case Ok(r) => Finish(r.0, r.1, size, unknown)
    }

    static function Finish(data: seq<byte>, last: nat, size: nat, unknown: bool): Result<seq<byte>, OpenError> {
      if last != ENDOFCHAIN then Err(BadLastSector)
      else if |data| >= size then Ok(data[..size])
      else if unknown then Ok(data)
      else Err(SmallerThanDeclared)
    }

    /** The walk succeeds along a chain of readable sectors that fits the loop bound ... */
    lemma {:induction false} WalkAlongChain(sect: nat, n: nat, unknown: bool, p: seq<nat>)
      requires IsChain(fat, sect, p) && AllReadable(p)
      requires if unknown then |p| <= n else |p| == n
      ensures Walk(sect, n, unknown) == Ok((Gather(p), ENDOFCHAIN))
      decreases n
    {
      if p != [] {
        assert Readable(p[0]);
        assert AllReadable(p[1..]) by {
          forall i | 0 <= i < |p[1..]| ensures Readable(p[1..][i]) { assert Readable(p[i + 1]); }
        }
        WalkAlongChain(fat[sect], n - 1, unknown, p[1..]);
      }
    }

    /** ... and only then: a walk that stops at the end mark has followed such a chain. */
    lemma {:induction false} ChainOfWalk(sect: nat, n: nat, unknown: bool) returns (p: seq<nat>)
      requires Walk(sect, n, unknown).Ok? && Walk(sect, n, unknown).value.1 == ENDOFCHAIN
      ensures IsChain(fat, sect, p) && AllReadable(p)
      ensures if unknown then |p| <= n else |p| == n
      ensures Walk(sect, n, unknown).value.0 == Gather(p)
      decreases n
    {
      if n == 0 || sect == ENDOFCHAIN {
        p := [];
      } else {
        var q := ChainOfWalk(fat[sect], n - 1, unknown);
        p := [sect] + q;
        assert p[1..] == q;
        forall i | 0 <= i < |p| ensures Readable(p[i]) {
          if i > 0 { assert p[i] == q[i - 1]; }
        }
      }
    }

    lemma {:induction false} GatherSize(p: seq<nat>)
      ensures |Gather(p)| <= |p| * sectorSize
    {
      if p != [] {
        GatherSize(p[1..]);
        assert |p| * sectorSize == |p[1..]| * sectorSize + sectorSize;
      }
    }

    /** `p` is the chain of a stream declared with `size` bytes that can be read in full. */
    ghost predicate Holds(start: nat, size: nat, p: seq<nat>)
      requires Valid()
    {
      && IsChain(fat, start, p)
      && Distinct(p)
      && AllReadable(p)
      && |p| == CeilDiv(size, sectorSize)
      && |Gather(p)| >= size
    }

    /** A stream of known size opens exactly when its chain has the declared number of distinct
        readable sectors holding that many bytes; its content is their concatenation, cut to size. */
    lemma OpenKnownSize(start: nat, size: nat)
      requires Valid() && size != UNKNOWN_SIZE
      ensures Open(start, size).Ok? <==> exists p :: Holds(start, size, p)
      ensures forall p :: Holds(start, size, p) ==> Open(start, size) == Ok(Gather(p)[..size])
    {
      var n := CeilDiv(size, sectorSize);
      CeilDivIsLeast(size, sectorSize);
      forall p | Holds(start, size, p) ensures Open(start, size) == Ok(Gather(p)[..size]) {
        ChainBounded(fat, start, p);
        WalkAlongChain(start, n, false, p);
      }
      if Open(start, size).Ok? {
        var p := ChainOfWalk(start, n, false);
        ChainDistinct(fat, start, p);
        assert Holds(start, size, p);
      }
    }

    /** With unknown size the bounded loop refines the unbounded chain walk: no terminating chain is too
        long for it, so it succeeds exactly when the start reaches the end mark through readable sectors. */
    lemma OpenUnknownSize(start: nat)
      requires Valid()
      ensures Open(start, UNKNOWN_SIZE).Ok? <==> exists p :: IsChain(fat, start, p) && AllReadable(p)
      ensures forall p :: IsChain(fat, start, p) && AllReadable(p) ==> Open(start, UNKNOWN_SIZE) == Ok(Gather(p))
    {
      var size := |fat| * sectorSize;
      CeilDivExact(|fat|, sectorSize);
      if |fat| > 0 { MulMonotone(1, |fat|, sectorSize); }
      forall p | IsChain(fat, start, p) && AllReadable(p)
        ensures Open(start, UNKNOWN_SIZE) == Ok(Gather(p))
      {
        ChainBounded(fat, start, p);
        WalkAlongChain(start, |fat|, true, p);
        GatherSize(p);
        MulMonotone(|p|, |fat|, sectorSize);
        assert |Gather(p)| <= size;
        if |Gather(p)| == size { assert Gather(p)[..size] == Gather(p); }
      }
      if Open(start, UNKNOWN_SIZE).Ok? {
        var p := ChainOfWalk(start, |fat|, true);
      }
    }
  }

  lemma CeilDivExact(n: nat, b: nat)
    requires b > 0
    ensures CeilDiv(n * b, b) == n
  {
    CeilDivIsLeast(n * b, b);
    var q := CeilDiv(n * b, b);
    if q < n { MulMonotone(q + 1, n, b); }
    if q > n { MulMonotone(n, q - 1, b); }
  }

  /** The result of a walk that had already read `data`. */
  ghost function Prepend(data: seq<byte>, r: Result<(seq<byte>, nat), OpenError>): Result<(seq<byte>, nat), OpenError> {
    match r
    case Err(e) => Err(e)
    case Ok(v) => Ok((data + v.0, v.1))
  }

  /** The reading loop of _OleStream: fetches at most `n` sectors and one table entry for each. */
  method FollowChain(fp: BinaryFile, start: nat, n: nat, unknownSize: bool, vol: Volume)
    returns (r: Result<(seq<byte>, nat), OpenError>)
    requires vol.Valid() && vol.file == fp.content
    modifies fp`pos, fp`readCount
    ensures r == vol.Walk(start, n, unknownSize)
    ensures fp.readCount <= old(fp.readCount) + n
  {
    ghost var whole := vol.Walk(start, n, unknownSize);
    assert whole.Ok? ==> [] + whole.value.0 == whole.value.0;
    var data: seq<byte> := [];
    var sect: nat := start;
    for i := 0 to n
      invariant fp.readCount == old(fp.readCount) + i
      invariant whole == Prepend(data, vol.Walk(sect, n - i, unknownSize))
    {
      if sect == ENDOFCHAIN {
        if unknownSize {
          assert data + [] == data;
          return Ok((data, sect));
        } else {
          return Err(IncompleteStream);
        }
      }
      if sect >= |vol.fat| {
        return Err(SectorOutOfRange);
      }
      fp.Seek(vol.Position(sect));
      var sectorData := fp.Read(vol.sectorSize);
      if |sectorData| != vol.sectorSize && sect != |vol.fat| - 1 {
        return Err(IncompleteSector);
      }
      PrependTwice(data, sectorData, vol.Walk(vol.fat[sect], n - i - 1, unknownSize));
      data := data + sectorData;
      sect := vol.fat[sect];
    }
    assert data + [] == data;
    return Ok((data, sect));
  }

  lemma PrependTwice(a: seq<byte>, b: seq<byte>, r: Result<(seq<byte>, nat), OpenError>)
    ensures Prepend(a, Prepend(b, r)) == Prepend(a + b, r)
  {
    if r.Ok? {
      assert a + (b + r.value.0) == (a + b) + r.value.0;
    }
  }

  /** The constructor of _OleStream: reads at most one sector per table entry, whatever the table. */
  method OpenStream(fp: BinaryFile, start: nat, declared: nat, offset: nat, sectorSize: nat, fat: seq<nat>)
    returns (r: Result<seq<byte>, OpenError>)
    requires sectorSize > 0
    modifies fp`pos, fp`readCount
    ensures r == Volume(fp.content, fat, offset, sectorSize).Open(start, declared)
    ensures fp.readCount <= old(fp.readCount) + |fat|
  {
    var unknownSize := false;
    var size := declared;
    if size == UNKNOWN_SIZE {
      size := |fat| * sectorSize;
      unknownSize := true;
    }
    var nbSectors := CeilDiv(size, sectorSize);
    if nbSectors > |fat| {
      return Err(StreamTooLarge);
    }
    if size == 0 && start != ENDOFCHAIN {
      return Err(BadStartOfEmptyStream);
    }
    var walked := FollowChain(fp, start, nbSectors, unknownSize, Volume(fp.content, fat, offset, sectorSize));
    if walked.Err? {
      return Err(walked.error);
    }
    var (data, last) := walked.value;
    if last != ENDOFCHAIN {
      return Err(BadLastSector);
    }
    if |data| >= size {
      return Ok(data[..size]);
    } else if unknownSize {
      return Ok(data);
    } else {
      return Err(SmallerThanDeclared);
    }
  }
}
