# Verified models of the algorithmic core

The repository is a set of tools for a network storage device. Most of it starts external programs. A few
files hold real algorithms, and this project models six of them in Dafny and proves what they promise:

* the OLE2 compound-file engine of `olefile.py`: loading the FAT, following sector chains, small streams inside
  the mini stream, building the directory tree, lookup, and rewriting streams in place;
* the buffered file object over a socket in `backports/ssl/core.py`;
* the IMAP response lexer and parser, with the quoting that the client uses when it prints arguments and the framing
  of commands on the wire;
* the lock files of `synosnapschedtask.sh`, with which any number of processes take snapshots of the same targets;
* the encoding of IMAP mailbox names, down to the bits of UTF-7;
* the RTF stripper `rtf2txt.py`.

`dafny verify dfyconfig.toml` checks everything.

## How the models are built

Code that works step by step is modelled step by step. Classes keep the fields that the Python objects keep, loops
stay loops, the OLE file is an object whose bytes are overwritten, and a directory entry is an object whose list of
children grows. Each such method is proved equal to a function of the old state, and the results are then proved
about those functions, because only functions can be used in statements. So `Directory.OleDirectory.LoadDirectory`
refines `DirectoryTree.LoadDirectory`, and the tree theorem speaks about the latter.

Exceptions are the `Err` branch of a `Result`. The level from which defects are raised is a parameter; defects below
it are recorded and loading goes on, as in the source. How many calls the interpreter allows inside each other is a
parameter too, with an error of its own. Sockets are objects whose `Recv` and `SendAll` may behave in every way that a
socket may: what has arrived when `Recv` is called is given by an arbitrary schedule. The shell script is a transition
system: `SnapshotTasks.Apply` is one step, `SnapshotTasks.Run` a whole run, and processes can be killed anywhere.
Locks, records and times belong to files, given by directory and name, so that two locks may be one file.

| component | functions and classes | results |
|---|---|---|
| sector chains | `SectorChains`, `OleStream` | `SectorChains`, `OleStream`, `StreamAddress` |
| writing streams | `StreamWriting`, `OleFile`, `NamedStreams` | `StreamWriting`, `StreamIsolation`, `NamedStreams`, `Reopening` |
| FAT and MiniFAT | `FatLoading`, `MiniStreams`, `OleFile` | `FatLoading`, `FatRewriting`, `MiniStreams` |
| directory | `DirectoryTree`, `DirectoryLookup`, `Directory` | `DirectoryProofs`, `DirectoryLevels`, `DirectoryReach`, `DirectoryLookup`, `DirectoryPaths`, `StreamIsolation` |
| socket file | `Lines`, `SocketFile` | `Lines`, `SocketFile` |
| IMAP responses | `ImapLexing`, `ImapParsing`, `ImapLexer`, `ImapReader` | `ImapWords`, `ImapPrinting`, `ImapMessageList`, `ImapFetch` |
| IMAP commands | `ImapFraming` | `ImapFraming` |
| snapshot tasks | `SnapshotTasks` | `SnapshotProofs`, `SnapshotWaiting`, `SnapshotRuns` |
| mailbox names | `Utf7`, `ModifiedUtf7` | `Utf7`, `ModifiedUtf7Proofs` |
| RTF | `RtfText` | `RtfProofs` |

`Common`, `ByteFiles` and `Decimals` hold what several components share.

## What the proofs brought to light

* A declared size of exactly 0x7FFFFFFF means "unknown size" (`olefile.py:721`). Results for streams of known size
  exclude it.
* The second length test of `write_sect` repeats the first one (`olefile.py:1704-1708`), so data longer than a sector
  is written over the next one. `write_stream` never passes such data: both of its assertions on the length of a
  segment always hold (`OleFile.NextSegment`).
* Only the last sector of the FAT may be cut short by the end of the file. If the chain of a stream goes on after that
  sector, the bytes behind it shift. Arithmetic address translation is exact if and only if this does not happen
  (`StreamAddress.TranslationExactIffFlat`); composing the two chains position by position is always exact.
* The "referenced more than once" error of `append_kids` (`olefile.py:999-1001`) cannot occur in strict mode, because
  every entry is loaded, or refused, before it is listed.
* At the default level, at which only fatal defects are raised, a directory whose links lead back to an entry is never
  loaded to the end: the recursion goes on until the interpreter stops it. `DirectoryLevels.DefaultLoadEnds` gives the
  exact condition. A directory that loads at the default level without a recorded defect is the one that the strict
  level loads (`DirectoryLevels.LevelsAgree`).
* `build_storage_tree` looks at the child link only and not at the type, so an entry that is no storage may get
  children. `_find` finds them and `listdir` does not show them: in the three-entry directory of
  `DirectoryPaths.FoundButNotListed`, which loads strictly, the path `a/b` is found and only `a` is listed. Lookup finds
  the root and the listed paths and nothing else if and only if all children are storages or streams and no stream
  below the root has children (`DirectoryPaths.FoundExactly`).
* `read(-1)` returns the buffer and one `recv`, although its comment says that it reads until the end of the file
  (`core.py:441-446`). It returns everything if and only if all that is left has arrived and fits one buffer
  (`SocketFile.FileObject.Read`); `SocketFile.ReadAllStopsShort` is a run that stops short.
* "Fewer than `_wbufsize` bytes are pending after a successful write" fails for an empty write after a failed
  flush (`core.py:410-419`). `SocketFile.FileObject.Write` states exactly when it holds, and
  `SocketFile.EmptyWriteKeepsBacklog` is the run that breaks it.
* `parse_message_list` is meant as a fast form of `parse_response`. On `1 2abc` the fast form returns the ids 1 and 2,
  the general form only 1 (`ImapMessageList.GluedListDiffers`). Whenever one of them succeeds, they agree exactly if
  nothing runs into the last id (`ImapMessageList.FastPathExact`).
* `_raw_command` sends two spaces between two 8-bit arguments that follow each other. The command line has the single
  spaces of section 9 of RFC 3501 if and only if no literal comes first or directly behind another one
  (`ImapFraming.FramingExact`).
* Mailbox names with tabs or line breaks do not always survive `decode(encode(s))`, because Python's UTF-7 codec leaves
  these characters as they are and `modified_utf7` cuts off the first and last byte. A lone tab comes back as an
  ampersand (`ModifiedUtf7Proofs.LoneTab`). A name survives exactly if each of these characters stands between two
  characters that are encoded too (`ModifiedUtf7Proofs.RoundTripExact`).
* In the record file of a target a process may be killed between truncating the file and writing the new
  time. The minute between takes is kept all the same, because the file is only truncated a minute after the last take.
* Two locks may be one file. That is so exactly if one target is named like the time lock of another, or like the task
  lock file of a task (`SnapshotProofs.SameLockFile`).
* The script empties its task lock file before it has the lock (`synosnapschedtask.sh:376`). If a target is named like
  a task lock file, its record is lost there, and two takes may be seconds apart. Takes stay a minute apart in every
  run exactly for all other targets (`SnapshotRuns.SpacingExact`).
* Processes can wait for each other, or one for itself, exactly if a target is named like a plan's task lock file
  (`SnapshotRuns.DeadlockExact`). Two plans on targets named like each other's task lock file block each other for
  good (`SnapshotRuns.TwoPlansDeadlock`).
* `ldblquote` in `rtf2txt.py:71` is an octal escape and a letter; the table keeps it as it is.

## Model

| member | source | states |
|---|---|---|
| `SectorChains.ChainUnique` | synoce/scripts/msg_parser/olefile.py:742-791 | a start sector has at most one chain that reaches the end mark |
| `SectorChains.ChainDistinct` | synoce/scripts/msg_parser/olefile.py:742-791 | a chain that reaches the end mark never visits a sector twice |
| `SectorChains.ChainBounded` | synoce/scripts/msg_parser/olefile.py:724-742 | by pigeonhole such a chain has at most as many sectors as the table has entries |
| `SectorChains.ChainsDisjoint` | synoce/scripts/msg_parser/olefile.py:1411-1434 | without cross links, chains with different heads that nothing points at have no sector in common |
| `OleStream.Volume.WalkAlongChain` | synoce/scripts/msg_parser/olefile.py:742-791 | the bounded loop reads every chain of readable sectors that fits its bound, in order |
| `OleStream.Volume.ChainOfWalk` | synoce/scripts/msg_parser/olefile.py:742-797 | a loop that stops at the end mark has followed exactly such a chain |
| `OleStream.Volume.OpenKnownSize` | synoce/scripts/msg_parser/olefile.py:729-805 | an open of known size succeeds if and only if the chain has ceil(size/sectorsize) distinct readable sectors holding that many bytes; the content is their concatenation cut to size |
| `OleStream.Volume.OpenUnknownSize` | synoce/scripts/msg_parser/olefile.py:720-791 | an open of unknown size succeeds if and only if the start reaches the end mark through readable sectors, so the bounded loop refines the unbounded walk |
| `OleStream.FollowChain` | synoce/scripts/msg_parser/olefile.py:742-791 | the loop over the file object computes that walk and reads at most one sector a turn |
| `OleStream.OpenStream` | synoce/scripts/msg_parser/olefile.py:702-808 | the constructor yields what the specification says, with at most one read per table entry on any table, cyclic ones included |
| `StreamAddress.GatherReadsOffsets` | synoce/scripts/msg_parser/olefile.py:742-791 | every byte of a stream is the file byte at the listed position |
| `StreamAddress.FlatOffsets` | synoce/scripts/msg_parser/olefile.py:742-791 | with whole sectors the position of byte k is the computed address |
| `StreamAddress.ShortSectorShifts` | synoce/scripts/msg_parser/olefile.py:777-787 | a short sector that is followed by another one makes some byte come from elsewhere |
| `StreamAddress.TranslationExactIffFlat` | synoce/scripts/msg_parser/olefile.py:742-805 | address arithmetic is right for all bytes of a stream if and only if no sector but its last one is short |
| `StreamAddress.FlatIff` | synoce/scripts/msg_parser/olefile.py:777-781 | that holds if and only if the last sector of the table is whole or is not followed by another sector of the chain |
| `StreamWriting.WriteFrame` | synoce/scripts/msg_parser/olefile.py:1940-1972 | whatever the table and the outcome, a write changes no byte outside the sectors it visits |
| `StreamWriting.WriteAlongChain` | synoce/scripts/msg_parser/olefile.py:1940-1972 | along a chain of matching length the write succeeds and fills the sectors in order |
| `StreamWriting.WrittenSector` | synoce/scripts/msg_parser/olefile.py:1685-1709 | a written sector reads back as the data padded with zero bytes |
| `StreamWriting.WriteReadRoundTrip` | synoce/scripts/msg_parser/olefile.py:1914-1972 | a stream of known size that opens can be rewritten with data of that size, and then opens with exactly that data, even when the last sector of the file was short |
| `StreamWriting.SectorUnchanged` | synoce/scripts/msg_parser/olefile.py:1698-1709 | a readable sector outside the written chain reads as before, even when the file grows |
| `StreamWriting.DisjointStreamUnchanged` | synoce/scripts/msg_parser/olefile.py:1940-1972 | any stream on a disjoint chain opens with the same content after the write |
| `StreamWriting.OtherStreamsUnchanged` | synoce/scripts/msg_parser/olefile.py:1940-1972 | without cross links and predecessors of heads, every other stream reads back unchanged |
| `FatRewriting.RewriteKeepsTable` | synoce/scripts/msg_parser/olefile.py:1544-1616 | a write on a chain that avoids the sectors of the FAT and the DIFAT leaves the table as it loads from the file |
| `FatRewriting.ReopenedReadsBack` | synoce/scripts/msg_parser/olefile.py:1914-1972 | so the rewritten file, opened anew, has the same table and the stream holds what was written |
| `Reopening.ReopenedByName` | synoce/scripts/msg_parser/olefile.py:1383-1400 | a file that opens without a recorded defect and in whose table streams, FAT and DIFAT have no sector in common: after write_stream it opens from scratch with the same table and directory, the name has the new data, and every other name that opened opens as before |
| `FatLoading.WordsAt` | synoce/scripts/msg_parser/olefile.py:1500-1509 | the array holds the little-endian words of the sector |
| `FatLoading.LoadSectorsSpec` | synoce/scripts/msg_parser/olefile.py:1512-1541 | the load succeeds if and only if all sectors before the first terminator lie in the file, and yields their entries concatenated |
| `FatLoading.LoadDifatSound` | synoce/scripts/msg_parser/olefile.py:1590-1604 | a load that ends at a terminator has followed a DIFAT chain of the declared length and read the sectors it names |
| `FatLoading.LoadDifatComplete` | synoce/scripts/msg_parser/olefile.py:1590-1604 | every such chain is loaded |
| `FatLoading.DifatCount` | synoce/scripts/msg_parser/olefile.py:1573-1589 | the size test passes if and only if csectFat exceeds 109 and csectDif is ceil((csectFat-109)/(S/4-1)) |
| `FatLoading.LoadFatFromHeader` | synoce/scripts/msg_parser/olefile.py:1544-1616 | without DIFAT the result is exactly the table that the header list names, cut to the sectors in the file |
| `FatLoading.LoadFatFromDifat` | synoce/scripts/msg_parser/olefile.py:1544-1616 | with DIFAT the load yields a table if and only if the counts agree and a DIFAT chain of that length describes it |
| `FatLoading.LoadedSectorsInFile` | synoce/scripts/msg_parser/olefile.py:1609-1614 | every sector with a table entry lies wholly in the file, except possibly the last |
| `FatLoading.NoIncompleteSector` | synoce/scripts/msg_parser/olefile.py:777-781 | so "incomplete OLE sector" is never raised for a FAT stream |
| `MiniStreams.MiniVolumeStored` | synoce/scripts/msg_parser/olefile.py:1781-1805 | the mini stream holds what the root chain holds in the file |
| `MiniStreams.MiniStreamOffsets` | synoce/scripts/msg_parser/olefile.py:1781-1814 | byte k of a small stream is the file byte reached by composing the MiniFAT chain with the root chain |
| `MiniStreams.MiniStreamAddress` | synoce/scripts/msg_parser/olefile.py:1781-1814 | with whole sectors the composition is arithmetic on addresses |
| `MiniStreams.WriteKeepsMiniVolume` | synoce/scripts/msg_parser/olefile.py:1619-1651 | a write on a chain that avoids MiniFAT and mini stream leaves both as they were |
| `OleFile.OleFileIO.constructor` | synoce/scripts/msg_parser/olefile.py:1103-1140 | a new file object has nothing loaded and nothing cached |
| `OleFile.OleFileIO.ReadSector` | synoce/scripts/msg_parser/olefile.py:1653-1682 | getsect yields the sector or the error |
| `OleFile.OleFileIO.LoadFatSect` | synoce/scripts/msg_parser/olefile.py:1512-1541 | appends exactly the entries of the named sectors to the table |
| `OleFile.OleFileIO.LoadDifatBlocks` | synoce/scripts/msg_parser/olefile.py:1590-1604 | the loop over the blocks appends what the specification says and checks the last pointer |
| `OleFile.OleFileIO.LoadFatTable` | synoce/scripts/msg_parser/olefile.py:1544-1616 | afterwards the table is the specified one, or the load fails with the specified error |
| `OleFile.OleFileIO.LoadMiniFatTable` | synoce/scripts/msg_parser/olefile.py:1619-1651 | the MiniFAT is the stream's words, cut to the mini sectors in use |
| `OleFile.OleFileIO.Open` | synoce/scripts/msg_parser/olefile.py:1781-1814 | an open through the cached mini stream equals a lookup from scratch, and the cache stays correct |
| `OleFile.OleFileIO.WriteSect` | synoce/scripts/msg_parser/olefile.py:1685-1709 | the whole file content after the call |
| `OleFile.OleFileIO.WriteSegments` | synoce/scripts/msg_parser/olefile.py:1940-1971 | the loop leaves the specified file and stops at the specified sector |
| `OleFile.OleFileIO.WriteStreamData` | synoce/scripts/msg_parser/olefile.py:1914-1972 | the file and the outcome in every case; nothing is written when sizes differ or the stream is small |
| `OleFile.NextSegment` | synoce/scripts/msg_parser/olefile.py:1945-1965 | the segment cut for each sector, with both of the source's length assertions proved |
| `DirectoryProofs.SortPermutes` | synoce/scripts/msg_parser/olefile.py:962-962 | sorting children loses and adds none |
| `DirectoryProofs.SortSorts` | synoce/scripts/msg_parser/olefile.py:1009-1022 | and leaves them in order of their names |
| `DirectoryProofs.AppendKidsKeepsTree` | synoce/scripts/msg_parser/olefile.py:965-1006 | in strict mode the recursion keeps the tree invariant on any links and never finds an entry referenced twice |
| `DirectoryProofs.BuildTreeKeepsTree` | synoce/scripts/msg_parser/olefile.py:941-962 | so does building the tree of one storage, which leaves its children sorted |
| `DirectoryProofs.StrictLoadYieldsTree` | synoce/scripts/msg_parser/olefile.py:1712-1771 | strict loading ends with an error other than "referenced more than once", or with a tree: the root in no list, every other loaded entry in exactly one, names in a list unique up to case and sorted |
| `DirectoryProofs.ReachesRoot` | synoce/scripts/msg_parser/olefile.py:941-1006 | from every loaded entry the way up ends at the root |
| `DirectoryProofs.StrictLoadVetted` | synoce/scripts/msg_parser/olefile.py:878-938 | after a strict load every loaded entry has a known type and a short name, only entry 0 is the root, and no two streams, in the FAT or in the MiniFAT, start at the same sector |
| `DirectoryProofs.StrictLoadDistinctHeads` | synoce/scripts/msg_parser/olefile.py:1411-1434 | after a strict load no two FAT streams start at the same sector, nor at a sector that the header reserved |
| `DirectoryTree.Load` | synoce/scripts/msg_parser/olefile.py:1748-1771 | at every level a load leaves just the entry loaded besides the others; in strict mode it was not loaded before |
| `DirectoryLevels.LevelsAgree` | synoce/scripts/msg_parser/olefile.py:1145-1168 | at every level loading succeeds if and only if it succeeds at the default level and records no issue that the level raises; the directory is then the same |
| `DirectoryLevels.LoadWithoutDefect` | synoce/scripts/msg_parser/olefile.py:1712-1771 | a load at any level without a recorded defect leaves a tree whose entries pass the checks of single records |
| `DirectoryLevels.StrictLoadEnds` | synoce/scripts/msg_parser/olefile.py:941-1006 | in strict mode loading ends on any links, within two nested calls for each entry |
| `DirectoryLevels.DefaultLoadEnds` | synoce/scripts/msg_parser/olefile.py:941-1006 | at the default level it succeeds if and only if from the root's child the links stay in the directory and no path of links meets an entry twice; if one does, no depth of recursion is enough |
| `DirectoryReach.LoadDescends` | synoce/scripts/msg_parser/olefile.py:941-1006 | in a directory loaded at any level every step from a storage to a child goes up a finite ranking, so listing and lookup end |
| `DirectoryLookup.ListLeads` | synoce/scripts/msg_parser/olefile.py:1817-1843 | every listed path leads from the root to its entry |
| `DirectoryLookup.FindsListed` | synoce/scripts/msg_parser/olefile.py:1817-1889 | lookup of a listed path, in any letter case, returns the entry it was listed for |
| `DirectoryLookup.ListedOnceOnly` | synoce/scripts/msg_parser/olefile.py:1846-1857 | no two listed paths are equal up to letter case |
| `DirectoryLookup.ListedExactly` | synoce/scripts/msg_parser/olefile.py:1817-1889 | with both flags a path is listed, up to letter case, if and only if lookup meets storages only until it ends at a storage or a stream |
| `DirectoryLookup.ListFails` | synoce/scripts/msg_parser/olefile.py:1828-1842 | listing fails if and only if it meets an entry that is neither stream nor storage and the level raises this defect |
| `DirectoryPaths.FoundExactly` | synoce/scripts/msg_parser/olefile.py:1817-1889 | lookup finds the root and the listed paths and nothing else if and only if all children are storages or streams and no stream below the root has children |
| `DirectoryPaths.FoundButNotListed` | synoce/scripts/msg_parser/olefile.py:941-962 | a stream "b" below a stream "a": the directory loads strictly, a/b is found and not listed |
| `DirectoryPaths.PathOf` | synoce/scripts/msg_parser/olefile.py:1860-1889 | in a tree every loaded entry is found by a path |
| `DirectoryPaths.OnePath` | synoce/scripts/msg_parser/olefile.py:1860-1889 | and by one path only, up to letter case |
| `Directory.OleDirectory.constructor` | synoce/scripts/msg_parser/olefile.py:1712-1738 | a directory object with nothing loaded |
| `Directory.OleDirectory.RaiseDefect` | synoce/scripts/msg_parser/olefile.py:1145-1168 | raises a defect, or records it in the list of issues |
| `Directory.OleDirectory.CheckDuplicate` | synoce/scripts/msg_parser/olefile.py:1411-1434 | the test for a stream that is referenced twice, and its effect on the lists of used streams |
| `Directory.OleDirectory.CheckRaw` | synoce/scripts/msg_parser/olefile.py:878-938 | the tests of a record, in the order of the source, at every level |
| `Directory.OleDirectory.LoadDirentry` | synoce/scripts/msg_parser/olefile.py:1748-1771 | loads one entry object, returns the one already loaded, or fails with the specified error |
| `Directory.OleDirectory.AdoptChild` | synoce/scripts/msg_parser/olefile.py:988-1002 | lists a child in both entry objects, or the specified error |
| `Directory.OleDirectory.AppendLeft` | synoce/scripts/msg_parser/olefile.py:979-1002 | the objects after the first part of append_kids are the specified ones |
| `Directory.OleDirectory.AppendRight` | synoce/scripts/msg_parser/olefile.py:1003-1006 | and after the second part |
| `Directory.OleDirectory.AppendKids` | synoce/scripts/msg_parser/olefile.py:965-1006 | the recursion over the objects refines the specification |
| `Directory.OleDirectory.BuildStorageTree` | synoce/scripts/msg_parser/olefile.py:941-962 | and so does the tree of one storage |
| `Directory.OleDirectory.SortKidsOf` | synoce/scripts/msg_parser/olefile.py:962-962 | sorts the list of one entry in place and nothing else |
| `Directory.OleDirectory.LoadDirectory` | synoce/scripts/msg_parser/olefile.py:1712-1745 | the loaded objects are the specified directory, or the error is the specified one |
| `Directory.OleDirectory.FindPath` | synoce/scripts/msg_parser/olefile.py:1860-1889 | the loops of the lookup compute the specified result |
| `Directory.OleDirectory.FirstMatch` | synoce/scripts/msg_parser/olefile.py:1882-1887 | finds the first child with the name, or none |
| `Directory.OleDirectory.ListDirectory` | synoce/scripts/msg_parser/olefile.py:1846-1857 | the listing is the specified one, and the defects that the level does not raise are recorded |
| `Directory.OleDirectory.ListInto` | synoce/scripts/msg_parser/olefile.py:1817-1843 | appends to the given list exactly what lies below a node, and records its odd entries |
| `StreamIsolation.ChainsOfStreamsDisjoint` | synoce/scripts/msg_parser/olefile.py:1411-1434 | distinct heads, as a strict load leaves them, make the chains of any two FAT streams disjoint in a clean table: one without cross links in which nothing points at a head (no load checks the table for this) |
| `StreamIsolation.RewriteIsolated` | synoce/scripts/msg_parser/olefile.py:1914-1972 | with distinct heads and a clean table, rewriting one stream leaves every other FAT stream of the directory as it reads |
| `StreamIsolation.RewriteKeepsSmallStreams` | synoce/scripts/msg_parser/olefile.py:1781-1814 | and, if root entry and header locate them, leaves MiniFAT and mini stream, hence what the file object has cached, as they were |
| `NamedStreams.FindStream` | synoce/scripts/msg_parser/olefile.py:1908-1911 | the entry that a path names, or the error if there is none or it is no stream |
| `NamedStreams.OpenStreamNamed` | synoce/scripts/msg_parser/olefile.py:1892-1911 | openstream yields the specified content or error |
| `NamedStreams.WriteStreamNamed` | synoce/scripts/msg_parser/olefile.py:1914-1972 | write_stream leaves the specified file with the specified outcome, whatever the path and the data; what is cached of the mini stream stays correct if streams have no sector in common |
| `NamedStreams.NamedWriteKeepsMiniVolume` | synoce/scripts/msg_parser/olefile.py:1781-1814 | because MiniFAT and mini stream load as before |
| `NamedStreams.NamedRoundTrip` | synoce/scripts/msg_parser/olefile.py:1892-1972 | a FAT stream that opens by name, rewritten by name, opens by the same name with the new data |
| `NamedStreams.OtherNamesUnchanged` | synoce/scripts/msg_parser/olefile.py:1892-1972 | with distinct heads and a clean table every other path opens as before: large streams always, small ones if root entry and header locate the mini stream |
| `Lines.LineOfIsLine` | synoce/scripts/msg_parser/imapclient/backports/ssl/core.py:488-571 | the ideal line is a longest prefix without an inner newline and within the bound |
| `Lines.LineUnique` | synoce/scripts/msg_parser/imapclient/backports/ssl/core.py:488-571 | there is only one such prefix |
| `Lines.LineSkip` | synoce/scripts/msg_parser/imapclient/backports/ssl/core.py:506-571 | a buffer without a complete line is the beginning of the line |
| `Lines.LineStop` | synoce/scripts/msg_parser/imapclient/backports/ssl/core.py:491-500 | a buffer that completes the line decides it, whatever follows |
| `Lines.SplitLinesJoin` | synoce/scripts/msg_parser/imapclient/backports/ssl/core.py:573-584 | cutting a stream into lines loses nothing |
| `SocketFile.FileObject.constructor` | synoce/scripts/msg_parser/imapclient/backports/ssl/core.py:341-365 | the buffer sizes that the three kinds of bufsize give |
| `SocketFile.FileObject.Read` | synoce/scripts/msg_parser/imapclient/backports/ssl/core.py:431-486 | returned bytes and unread bytes make up the stream; with a size, min(size, remaining) bytes are returned; without one, everything if and only if all of it has arrived and fits one buffer |
| `SocketFile.ReadAllStopsShort` | synoce/scripts/msg_parser/imapclient/backports/ssl/core.py:441-446 | a run in which read(-1) returns the first of two bytes |
| `SocketFile.FileObject.ReadUpTo` | synoce/scripts/msg_parser/imapclient/backports/ssl/core.py:458-486 | collects exactly the missing bytes from chunks of any length |
| `SocketFile.FileObject.ReadLine` | synoce/scripts/msg_parser/imapclient/backports/ssl/core.py:488-571 | for every chunking and buffer size the line of the ideal reader, and no byte lost |
| `SocketFile.FileObject.LineByBytes` | synoce/scripts/msg_parser/imapclient/backports/ssl/core.py:500-513 | the unbuffered branch returns the ideal line |
| `SocketFile.FileObject.LineByChunks` | synoce/scripts/msg_parser/imapclient/backports/ssl/core.py:515-529 | so does the buffered branch |
| `SocketFile.FileObject.BoundedLine` | synoce/scripts/msg_parser/imapclient/backports/ssl/core.py:530-571 | so does the branch with a size |
| `SocketFile.FileObject.ReadLines` | synoce/scripts/msg_parser/imapclient/backports/ssl/core.py:573-584 | exactly the lines of the stream in order that the hint asks for, and no byte lost |
| `SocketFile.FileObject.Flush` | synoce/scripts/msg_parser/imapclient/backports/ssl/core.py:387-405 | acknowledged and pending bytes stay what they were together, wherever sendall fails |
| `SocketFile.FileObject.Write` | synoce/scripts/msg_parser/imapclient/backports/ssl/core.py:410-419 | nothing is lost; after success fewer than wbufsize bytes are pending if and only if the data or the backlog allows it |
| `SocketFile.FileObject.WriteLines` | synoce/scripts/msg_parser/imapclient/backports/ssl/core.py:421-429 | the same for a list of strings |
| `SocketFile.RunReads` | synoce/scripts/msg_parser/imapclient/backports/ssl/core.py:431-584 | over any mix of read, with and without a size, readline and readlines, every answer is right for the bytes unread before it, and answers and unread bytes make up the stream |
| `SocketFile.AnswersAreIdeal` | synoce/scripts/msg_parser/imapclient/backports/ssl/core.py:431-584 | so a mix without read(-1) returns exactly what an ideal reader of the whole stream returns |
| `SocketFile.RunWrites` | synoce/scripts/msg_parser/imapclient/backports/ssl/core.py:387-429 | after any run of writes and flushes, whichever fail, acknowledged and pending bytes are everything written, in order |
| `SocketFile.EmptyWriteKeepsBacklog` | synoce/scripts/msg_parser/imapclient/backports/ssl/core.py:410-419 | whenever the first write fails, the empty write after it succeeds and leaves three bytes pending, more than wbufsize |
| `ImapLexer.PushableIterator.constructor` | synoce/scripts/msg_parser/imapclient/response_lexer.py:156-158 | a new iterator yields its text and holds nothing |
| `ImapLexer.PushableIterator.Next` | synoce/scripts/msg_parser/imapclient/response_lexer.py:163-166 | takes the first of the remaining bytes, pushed ones first |
| `ImapLexer.PushableIterator.Push` | synoce/scripts/msg_parser/imapclient/response_lexer.py:171-172 | puts a byte in front of the remaining ones |
| `ImapLexer.ReadUntilChar` | synoce/scripts/msg_parser/imapclient/response_lexer.py:57-74 | the loop reads up to the end character and resolves escapes as specified |
| `ImapLexer.SkipBlanks` | synoce/scripts/msg_parser/imapclient/response_lexer.py:82-86 | skips white space; at most one byte is ever pushed back |
| `ImapLexer.ReadTurn` | synoce/scripts/msg_parser/imapclient/response_lexer.py:81-113 | one turn yields the specified tokens, and the pushback never holds more than one byte |
| `ImapLexer.Lexer.constructor` | synoce/scripts/msg_parser/imapclient/response_lexer.py:53-55 | a lexer over all records, none opened yet |
| `ImapLexer.Lexer.NextToken` | synoce/scripts/msg_parser/imapclient/response_lexer.py:115-119 | yields the next token of all records, paired with the literal of its own record |
| `ImapLexer.Lexer.OpenNext` | synoce/scripts/msg_parser/imapclient/response_lexer.py:135-150 | opens the next record, or refuses one whose text does not end in a marker |
| `ImapWords.AccumulateWord` | synoce/scripts/msg_parser/imapclient/response_lexer.py:88-95 | a word with bracketed sections is collected as a whole |
| `ImapWords.LexWord` | synoce/scripts/msg_parser/imapclient/response_lexer.py:88-113 | a word before anything that cannot extend it is one token |
| `ImapPrinting.QuoteEscapes` | synoce/scripts/msg_parser/imapclient/imapclient.py:1245-1254 | the two replacements escape every backslash and quote exactly once |
| `ImapPrinting.ReadEscaped` | synoce/scripts/msg_parser/imapclient/response_lexer.py:57-74 | reading up to the closing quote undoes the escaping, for arbitrary bytes |
| `ImapPrinting.AtomOfTokens` | synoce/scripts/msg_parser/imapclient/response_parser.py:202-221 | the tokens of a printed value parse to the value and leave the rest |
| `ImapPrinting.TupleOfTokens` | synoce/scripts/msg_parser/imapclient/response_parser.py:224-231 | so do those of a tuple, at any depth |
| `ImapPrinting.LexLiteral` | synoce/scripts/msg_parser/imapclient/response_lexer.py:133-150 | a literal record yields its marker together with its own literal |
| `ImapPrinting.LexPrinted` | synoce/scripts/msg_parser/imapclient/response_lexer.py:76-119 | lexing printed records gives the tokens of the values |
| `ImapPrinting.ParsePrintRoundTrip` | synoce/scripts/msg_parser/imapclient/response_parser.py:35-42 | every nested value of NIL, numbers, quoted strings, literals and plain words, printed and parsed, comes back |
| `ImapReader.ReadSimple` | synoce/scripts/msg_parser/imapclient/response_parser.py:205-221 | the cases of atom without recursion |
| `ImapReader.ReadAtom` | synoce/scripts/msg_parser/imapclient/response_parser.py:202-221 | value and remaining tokens are the specified ones, or the error is |
| `ImapReader.ReadTuple` | synoce/scripts/msg_parser/imapclient/response_parser.py:224-231 | the loop over the shared token source refines the recursive specification |
| `ImapReader.ReadAll` | synoce/scripts/msg_parser/imapclient/response_parser.py:87-100 | the generator, run to its end, yields the specified values |
| `ImapReader.ReadResponse` | synoce/scripts/msg_parser/imapclient/response_parser.py:35-42 | the same for parse_response |
| `ImapReader.ReadMessageList` | synoce/scripts/msg_parser/imapclient/response_parser.py:48-84 | the loop over the items yields the specified ids and MODSEQ |
| `ImapMessageList.FastPathIsGeneral` | synoce/scripts/msg_parser/imapclient/response_parser.py:45-84 | when nothing runs into the last id, the fast parser returns what the general one returns, errors included |
| `ImapMessageList.FastPathExact` | synoce/scripts/msg_parser/imapclient/response_parser.py:45-84 | whenever one of the two succeeds, they agree if and only if nothing runs into the last id |
| `ImapMessageList.GluedListDiffers` | synoce/scripts/msg_parser/imapclient/response_parser.py:45-84 | on `1 2abc` the fast parser returns the ids 1 and 2, the general one only 1 |
| `ImapMessageList.ListParsed` | synoce/scripts/msg_parser/imapclient/response_parser.py:45-84 | ids separated by any white space are returned in order |
| `ImapMessageList.ListWithModseqParsed` | synoce/scripts/msg_parser/imapclient/response_parser.py:78-84 | with a MODSEQ pair behind them, in any letter case, its value is returned too |
| `ImapFetch.ReadValue` | synoce/scripts/msg_parser/imapclient/response_parser.py:87-100 | one step of the generator: the next value and the tokens behind it |
| `ImapFetch.ReadItems` | synoce/scripts/msg_parser/imapclient/response_parser.py:131-150 | the loop over the items of one message |
| `ImapFetch.ReadFetch` | synoce/scripts/msg_parser/imapclient/response_parser.py:103-155 | the loop over the messages yields the specified dictionary, or the first error in the order in which values are needed |
| `ImapFetch.LazyIsEager` | synoce/scripts/msg_parser/imapclient/response_parser.py:115-129 | if the whole response parses, parsing values only when needed makes no difference |
| `ImapFetch.FieldsHold` | synoce/scripts/msg_parser/imapclient/response_parser.py:131-152 | a message holds exactly its items; of equal names, up to letter case, the last one wins; the last UID is the key |
| `ImapFetch.FetchRoundTrip` | synoce/scripts/msg_parser/imapclient/response_parser.py:103-155 | printed messages, parsed again, give the merged dictionary of the messages |
| `ImapFetch.DistinctMessages` | synoce/scripts/msg_parser/imapclient/response_parser.py:152-155 | with different keys every message is found unchanged, and nothing else |
| `ImapFraming.SendLiteral` | synoce/scripts/msg_parser/imapclient/imapclient.py:1141-1160 | a literal is announced with its size and sent only after a continuation |
| `ImapFraming.RawCommand` | synoce/scripts/msg_parser/imapclient/imapclient.py:1083-1139 | the loop sends exactly the specified bytes, or stops in front of the literal that was refused |
| `ImapFraming.FrameOnWire` | synoce/scripts/msg_parser/imapclient/imapclient.py:1111-1135 | every argument is sent once, in order, with one more space in front of a literal that comes first or follows a literal |
| `ImapFraming.FramingExact` | synoce/scripts/msg_parser/imapclient/imapclient.py:1111-1135 | arguments are separated by single spaces if and only if no literal comes first or directly behind another one |
| `ImapFraming.AdjacentLiterals` | synoce/scripts/msg_parser/imapclient/imapclient.py:1111-1135 | two 8-bit arguments in a row are not |
| `SnapshotProofs.Reachable` | bin/synosnapschedtask.sh:353-407 | the invariant of locks, record files, stages and counts holds in every reachable state, for any number of processes and kills and any names of targets |
| `SnapshotProofs.MutualExclusion` | bin/synosnapschedtask.sh:207-244 | at most one process per target is in try_take, and two runs of one task never execute its body together |
| `SnapshotProofs.TakesSpaced` | bin/synosnapschedtask.sh:69-85 | over every run the recorded takes of a target are pairwise at least 60 seconds apart, unless the target is named like a task lock file |
| `SnapshotRuns.SpacingExact` | bin/synosnapschedtask.sh:69-85 | that holds for exactly these targets |
| `SnapshotRuns.TakesTooClose` | bin/synosnapschedtask.sh:375-377 | for every target named like a task lock file there is a run that records two takes in one second, because line 376 empties the record without the lock |
| `SnapshotProofs.TakesPerMinute` | bin/synosnapschedtask.sh:69-85 | so a stretch of time holds at most one take a minute |
| `SnapshotProofs.HistoryGrows` | bin/synosnapschedtask.sh:85-85 | no event removes a recorded take or changes its time |
| `SnapshotProofs.TruncateRecord` | bin/synosnapschedtask.sh:85-85 | truncating the record, even if the process dies right after it, keeps what the spacing needs |
| `SnapshotProofs.ReuseIsLastTake` | bin/synosnapschedtask.sh:77-81 | whatever the names, a reused name is empty or the one made by the last recorded take, less than a minute before the start |
| `SnapshotProofs.CompletedRuns` | bin/synosnapschedtask.sh:207-244 | every completed run has called try_take once, a replication run also try_pre_send once |
| `SnapshotProofs.EarlyExits` | bin/synosnapschedtask.sh:353-406 | a run gives up early only if another process holds the target and the schedule's lock file was touched more than a minute before the run started, or if another process holds its task lock file, as a task lock or as a target |
| `SnapshotProofs.SameLockFile` | bin/synosnapschedtask.sh:296-305 | two locks are one file if and only if they are the same lock, or a target is named like the time lock of another target or like a task lock file |
| `SnapshotWaiting.HolderWaitsInBody` | bin/synosnapschedtask.sh:217-244 | a process that is waited for waits itself only for its target inside its body, and only if the first one's target file is its task lock |
| `SnapshotWaiting.NoWaitingCycle` | bin/synosnapschedtask.sh:353-407 | unless a target is named like a plan's task lock file, no reachable state has a cycle of processes blocked on each other's lock files |
| `SnapshotWaiting.NeverStuck` | bin/synosnapschedtask.sh:353-407 | then a process that has not ended can take a step, or the one at the end of the chain in which it waits can |
| `SnapshotRuns.WaitsForItself` | bin/synosnapschedtask.sh:217-244 | for every target named like a plan's task lock file there is a run in which one process waits for itself for good |
| `SnapshotRuns.DeadlockExact` | bin/synosnapschedtask.sh:353-407 | runs on a set of targets can end in a waiting cycle if and only if one of them is named so |
| `SnapshotRuns.TwoPlansDeadlock` | bin/synosnapschedtask.sh:217-244 | two plans on targets named like each other's task lock file reach a state in which neither ever moves again |
| `Utf7.EmitAfterFour` | synoce/scripts/msg_parser/imapclient/imap_utf7.py:102-104 | the digits of one code unit when four bits of the last one are waiting |
| `Utf7.FeedAfterFour` | synoce/scripts/msg_parser/imapclient/imap_utf7.py:107-109 | these digits complete the waiting unit in the decoder |
| `Utf7.RoundTrip` | synoce/scripts/msg_parser/imapclient/imap_utf7.py:102-109 | from any pair of matching coder states, decoding what was encoded gives the code units back, whatever follows |
| `Utf7.CodecRoundTrip` | synoce/scripts/msg_parser/imapclient/imap_utf7.py:102-109 | UTF-7 loses nothing, for every string of code units |
| `ModifiedUtf7.EncodeFolderName` | synoce/scripts/msg_parser/imapclient/imap_utf7.py:35-64 | the loop with its buffer computes the specified encoding |
| `ModifiedUtf7.DecodeFolderName` | synoce/scripts/msg_parser/imapclient/imap_utf7.py:71-99 | so does the decoder's loop, errors included |
| `ModifiedUtf7Proofs.RunShape` | synoce/scripts/msg_parser/imapclient/imap_utf7.py:102-104 | an encoded run holds digits and blanks, with a dash only at the end of an open section |
| `ModifiedUtf7Proofs.MisalignedFails` | synoce/scripts/msg_parser/imapclient/imap_utf7.py:107-109 | a section that starts six bits early is always an error |
| `ModifiedUtf7Proofs.RunOutcome` | synoce/scripts/msg_parser/imapclient/imap_utf7.py:102-109 | a run comes back if and only if it neither starts nor ends with a tab or line break, and never longer |
| `ModifiedUtf7Proofs.RoundTripExact` | synoce/scripts/msg_parser/imapclient/imap_utf7.py:35-109 | decode(encode(s)) is s if and only if every tab and line break stands between encoded characters |
| `ModifiedUtf7Proofs.NameRoundTrip` | synoce/scripts/msg_parser/imapclient/imap_utf7.py:35-109 | in particular for every name without these characters |
| `ModifiedUtf7Proofs.LoneTab` | synoce/scripts/msg_parser/imapclient/imap_utf7.py:102-104 | a tab alone comes back as an ampersand |
| `ModifiedUtf7Proofs.DecodingIsScanning` | synoce/scripts/msg_parser/imapclient/imap_utf7.py:71-99 | decoding is the concatenation of the values of the pieces that the loop sees |
| `ModifiedUtf7Proofs.SectionsApart` | synoce/scripts/msg_parser/imapclient/imap_utf7.py:52-64 | no two base64 sections of an encoded name are adjacent, and none is empty |
| `ModifiedUtf7Proofs.NamePrintable` | synoce/scripts/msg_parser/imapclient/imap_utf7.py:35-64 | without tabs and line breaks all bytes are in 0x20-0x7e |
| `RtfText.StripRtf` | synoce/scripts/rtf2txt.py:75-128 | the loop with its five variables computes the specified result or error |
| `RtfProofs.CharStrips` | synoce/scripts/rtf2txt.py:80-127 | one escaped character adds itself to the output, whatever follows |
| `RtfProofs.EscapedIsTransparent` | synoce/scripts/rtf2txt.py:12-128 | escaped text in front of any text adds itself, without line breaks, to the output |
| `RtfProofs.EscapeRoundTrip` | synoce/scripts/rtf2txt.py:12-128 | stripping escaped text of the basic plane gives the text back if and only if it has no line breaks |
| `RtfProofs.StackDepth` | synoce/scripts/rtf2txt.py:82-89 | inside a group the stack below stays as it is, and its height counts the open groups |
| `RtfProofs.BalancedGroupRestores` | synoce/scripts/rtf2txt.py:82-89 | a balanced group, whatever is in it, restores stack, ucskip and ignorable |
| `RtfProofs.IgnorableIsSilent` | synoce/scripts/rtf2txt.py:90-127 | nothing is output until an ignorable group is closed |
| `RtfProofs.UnderflowExactly` | synoce/scripts/rtf2txt.py:87-89 | the stack underflows only on a closing brace without an opening one, and such a run fails |
| `RtfProofs.BracesOfText` | synoce/scripts/rtf2txt.py:12-12 | the brace tokens are the braces that no backslash hides |
| `RtfProofs.TextUnderflow` | synoce/scripts/rtf2txt.py:82-89 | the stack never underflows if every prefix of the text has as many unescaped opening as closing braces; any other text fails |

## Left out

- Python's recursion limit for tuples: very deep ones fail there. For directories the limit counts nested calls of
  append_kids and build_storage_tree only, not the calls that these make to other functions.
- Decoding of entry names and lower-casing: both are parameters, and nothing is assumed of them.
- Object identity of directory entries: the list and the index of a storage hold entry numbers, not references.
- Header checks, timestamps, property streams, metadata, dumps and the masks for Jython: independent field decoding.
- Paths given as one string with slashes: lookup takes the list of names.
- `OleFile.OleFileIO.WriteStreamData`: takes start and size of the entry; the lookup by name and the test that the
  entry is a stream are in `NamedStreams.WriteStreamNamed`.
- `SocketFile.FileObject.Read`: only calls that return; a `recv` that raises loses what had been collected.
- Operating-system files, sockets, TLS and its retries: replaced by objects that may behave in every allowed way.
- `ImapFetch.ReadItems`: the conversions of dates, envelopes and body structures; such an item is kept with its name
  and value, so the errors of the conversions are not modelled.
- `ImapFetch.ReadFetch`: the same conversions.
- `ImapMessageList.ListParsed`: Python 2 drops ids of 2^63 and more that follow white space other than spaces, because
  they are long integers; here all ids are numbers.
- `ImapFraming.RawCommand`: the answers of the server other than a continuation, and the response to the command.
- The recursion of the generators in the IMAP lexer: suspended generators are modelled by the tokens they still owe.
- Leading and trailing white space that `int()` accepts in literal sizes: no token contains any.
- The plan of a local task: one that is inherited from the environment of the script is taken to be unset.
- The external tools of the snapshot script: a snapshot fails, or returns some name, or ends the script.
- `SnapshotProofs.TakesSpaced`: the clock never goes back; the source reads the wall clock.
- `SnapshotProofs.ReuseIsLastTake`: snapshot names and messages do not contain the words that `grep` looks for.
- Child processes that keep a lock open after their shell was killed: a kill releases the locks at once.
- Errors of a blocking `flock`: it returns only with the lock.
- `ModifiedUtf7Proofs.RoundTripExact`: the codec is Python's own and not in the repository; it is modelled on code
  units after RFC 2152 and the behaviour of CPython 2.7, without the pairing of surrogates in wide builds.
- Arguments of other types, which `encode` and `decode` return unchanged.
- The table of RTF destinations and the largest code point of `unichr`: parameters of all results.
- Joining byte strings and Unicode strings in the RTF output: texts are sequences of code points.
