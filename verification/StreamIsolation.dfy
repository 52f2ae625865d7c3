/** Directory and sector chains together: rewriting one stream of a strictly loaded directory leaves the
    others alone. */
module StreamIsolation {
  import opened Common
  import opened SectorChains
  import opened OleStream
  import opened StreamWriting
  import opened MiniStreams
  import opened DirectoryTree
  import opened DirectoryProofs

  /** A table without cross links in which nothing points at the head of a stream, the MiniFAT included. */
  ghost predicate CleanTable(c: Context, t: Dir, fat: seq<nat>, reserved: set<nat>) {
    && |fat| <= DIFSECT
    && NoCrossLinks(fat)
    && (forall h :: h in reserved ==> NoPredecessor(fat, h))
    && (forall s: nat :: t.Loaded(s) && c.OwnsFatStream(t.Get(s).raw) ==> NoPredecessor(fat, t.Get(s).raw.start))
  }

  /** The chains of two different FAT streams of the directory have no sector in common. */
  lemma ChainsOfStreamsDisjoint(
    c: Context, t: Dir, fat: seq<nat>, reserved: set<nat>, a: nat, p: seq<nat>, b: nat, q: seq<nat>)
    requires DistinctHeads(c, t, reserved) && CleanTable(c, t, fat, reserved)
    requires t.Loaded(a) && t.Loaded(b) && a != b
    requires c.OwnsFatStream(t.Get(a).raw) && IsChain(fat, t.Get(a).raw.start, p)
    requires c.OwnsFatStream(t.Get(b).raw) && IsChain(fat, t.Get(b).raw.start, q)
    ensures Disjoint(p, q)
  {
    if p != [] && q != [] {
      assert HasHead(c, t.Get(a).raw) && HasHead(c, t.Get(b).raw);
      ChainsDisjoint(fat, t.Get(a).raw.start, p, t.Get(b).raw.start, q);
    }
  }

  /** Nor do a stream and one whose first sector the header reserved, or that has no sectors. */
  lemma ReservedChainDisjoint(
    c: Context, t: Dir, fat: seq<nat>, reserved: set<nat>, a: nat, p: seq<nat>, head: nat, q: seq<nat>)
    requires DistinctHeads(c, t, reserved) && CleanTable(c, t, fat, reserved)
    requires t.Loaded(a) && (head in reserved || SpecialSector(head))
    requires c.OwnsFatStream(t.Get(a).raw) && IsChain(fat, t.Get(a).raw.start, p)
    requires IsChain(fat, head, q)
    ensures Disjoint(p, q)
  {
    if p != [] && q != [] {
      assert HasHead(c, t.Get(a).raw);
      ChainsDisjoint(fat, t.Get(a).raw.start, p, head, q);
    }
  }

  /** Rewriting stream `a` leaves every other FAT stream of the directory as it reads. */
  lemma RewriteIsolated(
    c: Context, t: Dir, reserved: set<nat>, file: seq<byte>, fat: seq<nat>, sectorSize: nat,
    a: nat, data: seq<byte>, b: nat)
    requires sectorSize > 0 && DistinctHeads(c, t, reserved) && CleanTable(c, t, fat, reserved)
    requires t.Loaded(a) && t.Loaded(b) && a != b
    requires c.OwnsFatStream(t.Get(a).raw) && c.OwnsFatStream(t.Get(b).raw)
    requires |data| == c.Size(t.Get(a).raw) != UNKNOWN_SIZE
    ensures FatVolume(file, fat, sectorSize).Open(t.Get(a).raw.start, |data|).Ok?
            && FatVolume(file, fat, sectorSize).Open(t.Get(b).raw.start, c.Size(t.Get(b).raw)).Ok? ==>
              var file' := WriteStream(file, fat, sectorSize, t.Get(a).raw.start, data).0;
              FatVolume(file', fat, sectorSize).Open(t.Get(b).raw.start, c.Size(t.Get(b).raw))
              == FatVolume(file, fat, sectorSize).Open(t.Get(b).raw.start, c.Size(t.Get(b).raw))
  {
    hide DistinctHeads, CleanTable, Volume.Open, WriteStream;
    var vol := FatVolume(file, fat, sectorSize);
    if vol.Open(t.Get(a).raw.start, |data|).Ok? && vol.Open(t.Get(b).raw.start, c.Size(t.Get(b).raw)).Ok? {
      var p := ChainOfOpen(vol, t.Get(a).raw.start, |data|);
      var q := ChainOfOpen(vol, t.Get(b).raw.start, c.Size(t.Get(b).raw));
      ChainsOfStreamsDisjoint(c, t, fat, reserved, a, p, b, q);
      DisjointStreamUnchanged(
        file, fat, sectorSize, t.Get(a).raw.start, data, p, t.Get(b).raw.start, q, c.Size(t.Get(b).raw));
    }
  }

  /** The root entry locates the mini stream, and the header reserved the head of the MiniFAT if there is one. */
  ghost predicate Located(c: Context, t: Dir, g: MiniLayout, reserved: set<nat>) {
    && g.Valid()
    && t.Loaded(0) && t.Get(0).raw.entryType == STGTY_ROOT
    && g.rootStart == t.Get(0).raw.start && g.rootSize == c.Size(t.Get(0).raw)
    && (g.csectMiniFat > 0 ==> g.miniFatStart in reserved || SpecialSector(g.miniFatStart))
  }

  /** It also leaves the MiniFAT and the mini stream, hence every small stream, as they were: what an
      opened file has cached of them stays correct. */
  lemma RewriteKeepsSmallStreams(
    c: Context, t: Dir, reserved: set<nat>, file: seq<byte>, fat: seq<nat>, sectorSize: nat,
    a: nat, data: seq<byte>, g: MiniLayout, level: Severity)
    requires sectorSize > 0 && sectorSize % 4 == 0 && Located(c, t, g, reserved)
    requires DistinctHeads(c, t, reserved) && CleanTable(c, t, fat, reserved)
    requires t.Loaded(a) && a != 0 && c.OwnsFatStream(t.Get(a).raw)
    requires |data| == c.Size(t.Get(a).raw) != UNKNOWN_SIZE
    ensures FatVolume(file, fat, sectorSize).Open(t.Get(a).raw.start, |data|).Ok?
            && MiniVolume(FatVolume(file, fat, sectorSize), g, level).Ok? ==>
              var file' := WriteStream(file, fat, sectorSize, t.Get(a).raw.start, data).0;
              MiniVolume(FatVolume(file', fat, sectorSize), g, level)
              == MiniVolume(FatVolume(file, fat, sectorSize), g, level)
  {
    hide DistinctHeads, CleanTable, Volume.Open, WriteStream;
    var vol := FatVolume(file, fat, sectorSize);
    if vol.Open(t.Get(a).raw.start, |data|).Ok? && MiniVolume(vol, g, level).Ok? {
      var p := ChainOfOpen(vol, t.Get(a).raw.start, |data|);
      var root := ChainOfOpen(vol, g.rootStart, g.rootSize);
      var miniFat := ChainOfOpen(vol, g.miniFatStart, g.csectMiniFat * sectorSize);
      if g.rootSize == 0 {
        NoChain(vol, g.rootStart, root);
      } else {
        ChainsOfStreamsDisjoint(c, t, fat, reserved, a, p, 0, root);
      }
      if g.csectMiniFat == 0 {
        NoChain(vol, g.miniFatStart, miniFat);
      } else {
        ReservedChainDisjoint(c, t, fat, reserved, a, p, g.miniFatStart, miniFat);
      }
      WriteKeepsMiniVolume(file, fat, sectorSize, t.Get(a).raw.start, data, p, g, level, miniFat, root);
    }
  }

  /** An empty stream has no sectors. */
  lemma NoChain(vol: Volume, start: nat, p: seq<nat>)
    requires vol.Valid() && ReadAlong(vol, start, 0, p)
    ensures p == []
  {
    hide CeilDiv, IsChain, Distinct, Volume.AllReadable, Volume.Gather;
    CeilDivIsLeast(0, vol.sectorSize);
  }
}
