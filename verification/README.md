# A verified model of five subsystems of the repository

The project models, in Dafny, five parts of the operating system's C programs
that need no hardware to be stated, and proves what each of them is for over
all inputs and all runs.

1. **RNTP, the shared block device** (`c/rntp`). A server exports a disk image
   to up to seven peers. A lock owner writes in place under an undo log; UNLOCK
   commits, ABORT, disconnection and timeout roll back. The argument rests on a
   *committed image*: the live image with the undo copies laid over exactly the
   dirty sectors. From it follow atomic transactions, isolation of all other
   peers from the owner, soundness of the revision number and of the published
   free space. On the client's side the read-ahead buffer never answers with
   stale sectors, although either side may give the other up without its knowing:
   the server's lease outlives what the client may answer from the buffer.
   Underneath, a windowed retransmitting stream over a TCP that loses, repeats
   and reorders segments delivers the messages in order. Joined together, the
   two programs and the network between them behave as one session in which
   whole messages pass.
2. **The stream server's transmit queue** (`c/streamd/main.c`). Two parts in
   flight, sequence numbers modulo 2^32, cumulative acknowledgments, a dropped
   tail, retries and window probes: every byte is sent under one number only.
3. **The JPEG entropy coder** (`c/streamd/tiny_jpeg.h`). Canonical Huffman
   codes, size/value pairs, zero runs, bit packing and byte stuffing, against
   the decoder of ITU-T T.81.
4. **The round-robin metrics database** (`c/libcr2/metrics.c`). Three ring
   archives that equal a simple function of the full history of samples.
5. **The DOS process layer** (`c/them/int21.c`) and **the mDNS codec**
   (`c/mdnsd/mdns.c`): a first-fit paragraph allocator, file handles counted
   across nested programs, and a message writer and reader that undo each other.

## How the files fit together

Each subsystem has a layer of specification functions with the lemmas about
them, and a layer of methods and classes in the form of the C code, whose
`ensures` clauses equate the new state with the specification function.

| specification and theorems | in-place code |
|---|---|
| `RntpProtocol`, `RntpVolume`, `RntpSessions`, `RntpTheorems`, `RntpFigures`, `RntpRevisions`, `RntpClient`, `RntpReads`, `RntpWrites`, `RntpAttach`, `RntpLease` | `RntpServer`, `RntpSessionTable`, `RntpReadAhead` |
| `RntpStream`, `RntpConnection`, `RntpRecovery`, `RntpAliasing` | `RntpSocket` |
| `RntpJoined`, `RntpJoinedWrites`: client, server and connection together | |
| `TxQueue`, `TxProgress` | `TxQueueState` |
| `Metrics`, `MetricsHistory`, `MetricsRuns`, `MetricsCollector`, `MetricsInputs` | `MetricsState` |
| `DosArena`, `DosHoles`, `DosGrants`, `DosLifetimes`, `DosHandles`, `DosOpenings`, `DosFileData` | `DosArenaState`, `DosHandlesState`, `DosFileData.OpenBody` |
| `JpegBits`, `JpegHuffman`, `JpegCodec`, `JpegWriter`, `JpegStandard` | `JpegTables`, `JpegEncoder`, `JpegImage` |
| `MdnsNames`, `MdnsRecords`, `MdnsReply`, `MdnsExchange`, `MdnsAnswer`, `MdnsDiscovery` | `MdnsMessage`, `MdnsState` |

`Bytes` and `Checksum` hold what they share. `dafny verify dfyconfig.toml`
checks everything.

## Main results

- `RntpTheorems.TransactionIsAtomic`, `AbortAndReleaseRollBack`, `Noninterference`,
  `RevisionSound`, `CommittedFreeIsCurrent`, `BatchIsAtomic`
- `RntpRevisions.RevisionReturnsIff`, `RntpRevisions.RevisionComesBack`
- `RntpJoined.ReadsAreCurrentEndToEnd`, `RntpJoinedWrites.BatchLandsEndToEnd`, `RntpJoined.JoinedKeeps`, `RntpLease.LeaseIsSafe`
- `RntpClient.ReadAheadIsCoherent`, `RntpReads.ReadIsAnswered`, `RntpWrites.BatchLands`
- `RntpConnection.StreamIsReliable`, `RntpRecovery.RecoversIff`, `RntpAliasing.StaleSegmentIsDelivered`
- `TxQueue.TransmissionIsFaithful`, `TxQueue.SameByte`, `TxProgress.Drains`, `TxProgress.PollRepeats`
- `MetricsInputs.ArchivesShowInputs`, `MetricsCollector.ArchivesAreTrue`
- `JpegHuffman.PrefixCodeIffKraft`, `JpegWriter.FileRoundTrip`, `JpegImage.EncodeImage`
- `DosArena.RunKeeps`, `DosHoles.GrantsLowest`, `DosHoles.ReportIsExact`, `DosGrants.ResizedIsNotGranted`,
  `DosHandles.ParentGetsItsFilesBack`, `DosFileData.ReadReturnsLatest`
- `MdnsNames.ReadIffSpelled`, `MdnsDiscovery.AnnouncementResolves`, `MdnsDiscovery.TypeResolves`, `MdnsAnswer.ReplyIsRead`

Some expected properties are false of the code as it stands; each has the input
that shows it and the exact condition under which the property holds.

- A zero-length DOS block hides the hole behind it, so first fit and the size
  reported on failure go wrong: `DosLifetimes.ZeroLengthHides` gives the run;
  `DosHoles.FirstFitIsExact` and `DosHoles.ReportIsExact` say exactly when the
  answers are right.
- Live DOS blocks do not always have distinct starts: EXEC puts an environment
  where a zero-length block already starts
  (`DosLifetimes.ZeroLengthSharesStart`); `DosLifetimes.ExecDistinct` is the exact
  condition. Live blocks never share a paragraph all the same (`DosArena.NoParagraphIsShared`).
- The stream is not reliable against segments of any age: one that is a multiple
  of 2^32 bytes old passes for the next one. `RntpAliasing.StaleSegmentIsDelivered`
  gives the run, 2^32 bytes of equal messages and then the very first segment
  again, after which more has been handed up than was sent; `RntpConnection.InOrder`
  and `RntpConnection.TakenWronglyIff` say exactly, at every age, which segments
  do this, and `RntpConnection.StreamIsReliable` excludes these and no others.
- A stale acknowledgment can pass for a new one in the same way:
  `RntpAliasing.StaleAckIsTaken` gives a run after which the sender has forgotten a
  message that has not arrived; `RntpConnection.AckIsNew` is the exact condition. This can
  stop the stream, but never makes it hand up wrong bytes.
- The stream does not recover from every loss. A window update that is lost leaves the sender stalled for good: it
  sends nothing into a closed window but segments without data, which the other side does not answer; and bytes that a stale
  acknowledgment made the sender forget are never sent again. `RntpRecovery.RecoversIff` is the exact condition,
  for every state with nothing under way: both streams can still be brought to their ends if and only if neither has happened.
- Equal revision numbers do not always mean equal committed images:
  `RntpRevisions.RevisionComesBack` gives, for every image a server accepts, a run of
  2^64 - 1 commits that ends with the first revision and another image.
  `RntpTheorems.RevisionSound` holds below that number, and
  `RntpRevisions.RevisionReturnsIff` says for every run exactly when a revision returns.
- A file is not always free of leftovers, nor saved whole: `DosFileData.GapShowsBuffer` gives the run that
  reads a byte nobody wrote; `DosFileData.GapIff` and `DosFileData.SavedWholeIff` are the exact conditions.
- The end of a DOS program does not always leave its parent's blocks alone: a child
  loaded at an address under which its parent still owns a block takes that block with it.
  `DosLifetimes.ChildTakesBlocks` gives the run, `DosLifetimes.TerminateUndoesExec` the exact
  condition.

The last byte of a JPEG scan is filled up with zero bits, where section F.1.2.3
of ITU-T T.81 asks for ones; the model follows the code, and a decoder that stops
after the last block does not see the difference.

## Model

| member | source | states |
|---|---|---|
| `Bytes.GetPut` | c/rntp/protocol.c:3-10 | a number that fits n bytes is read back from the bytes written for it |
| `Bytes.PutGet` | c/rntp/protocol.c:3-10 | n bytes are written back from the number read from them |
| `Bytes.ReadNumber` | c/rntp/protocol.c:3-7 | the loop computes the big-endian number of the bytes in place |
| `Bytes.WriteNumber` | c/rntp/protocol.c:8-10 | the loop stores exactly the number's low bytes, big-endian, and touches nothing else |
| `Bytes.ReadLittle` | c/rntp/protocol.c:19-23 | the loop computes the little-endian number of the bytes |
| `Bytes.Copy` | c/rntp/protocol.c:11-13 | copies a range and leaves the rest of the target alone |
| `Checksum.PassesIff` | c/libcr2/bytes.h:36-49 | data passes the check exactly when its words sum to a positive multiple of 65535 |
| `Checksum.WrittenChecksumPasses` | c/libcr2/bytes.h:36-49 | a header whose checksum word was zero passes once its checksum is written there |
| `Checksum.ChangedWordPassesIff` | c/libcr2/bytes.h:36-49 | one changed word escapes the check exactly when it changed between 0 and 0xFFFF in data not all zero afterwards |
| `Checksum.FoldIsRemainder` | c/libcr2/bytes.h:45-46 | folding the carries keeps the remainder modulo 65535 and only zero folds to zero |
| `Checksum.InetCksum` | c/libcr2/bytes.h:36-49 | the summing and folding loops compute the checksum of any length, odd ones included |
| `RntpProtocol.DecodeEncode` | c/rntp/protocol.c:53-69 | a header survives the wire whatever payload follows, and is refused exactly when its length exceeds the batch limit |
| `RntpProtocol.EncodeDecode` | c/rntp/protocol.c:53-69 | accepted bytes are exactly the encoding of what they decode to |
| `RntpProtocol.EntryInFat` | c/rntp/protocol.c:40-45 | both bytes of every cluster's FAT entry lie inside the first FAT |
| `RntpProtocol.Layout` | c/rntp/protocol.c:33-40 | an accepted geometry has its FAT inside the volume, the volume inside the capacity, and entries for all its clusters |
| `RntpProtocol.FreeSpaceBound` | c/rntp/protocol.c:42-50 | the figure never exceeds the size of the data area |
| `RntpProtocol.FreeSpaceFrame` | c/rntp/protocol.c:27-51 | images that agree on the boot sector and the first FAT have the same free space |
| `RntpProtocol.ApplyRecordsAt` | c/rntp/protocol.c:109-114 | after a batch a sector holds the last record naming it, or what it held before |
| `RntpVolume.BootIsRead` | c/rntp/protocol.c:28-32 | a written boot sector is read back field by field, the total in either of its two places |
| `RntpVolume.Pack12At` | c/rntp/protocol.c:44-46 | any list of 12-bit entries, packed two to three bytes, is read back entry by entry |
| `RntpVolume.EntryIsRead` | c/rntp/protocol.c:40-46 | every entry of a written table, of 12 or 16 bits, is read back from the image |
| `RntpVolume.VolumeFreeSpace` | c/rntp/protocol.c:27-51 | the free space of a written volume is the size of its unused clusters |
| `RntpServer.PutHeader` | c/rntp/protocol.c:53-59 | stores exactly the encoded header and leaves the rest of the buffer |
| `RntpServer.GetHeader` | c/rntp/protocol.c:61-69 | reads the header in place, with the same refusals |
| `RntpServer.ReadFields` | c/rntp/protocol.c:28-32 | reads the boot sector's fields at their offsets |
| `RntpServer.ReadEntry` | c/rntp/protocol.c:44-46 | the 12- or 16-bit entry of a cluster, read in place |
| `RntpServer.CountFree` | c/rntp/protocol.c:42-48 | the loop counts exactly the clusters 2 to n + 1 whose entry is zero |
| `RntpServer.ScanFreeSpace` | c/rntp/protocol.c:27-51 | the scan of the image in place gives the free space of its sectors, with all refusals |
| `RntpServer.CheckRecords` | c/rntp/protocol.c:105-108 | every record of a batch is checked before any is applied |
| `RntpServer.StoreRecords` | c/rntp/protocol.c:109-114 | records are stored in order, later ones over earlier ones |
| `RntpServer.ReadSectors` | c/rntp/protocol.c:97-100 | the reply's payload is the sectors asked for |
| `RntpServer.TransferInPlace` | c/rntp/protocol.c:93-121 | the four block operations on the image in place, with every refusal |
| `RntpServer.HandleRequest` | c/rntp/protocol.c:71-124 | one request served in place: reply bytes and new image are those of the protocol |
| `RntpSessions.InitInv` | c/rntp/sessions.c:21-30 | initialisation establishes the invariant: nothing dirty, nobody attached, committed image equal to the image |
| `RntpSessions.RememberAllKeeps` | c/rntp/sessions.c:37-44 | remembering sectors changes neither the image nor the committed image, and marks exactly these as dirty besides the old ones |
| `RntpSessions.WrittenElsewhere` | c/rntp/protocol.c:101-121 | a well-shaped write changes only the sectors it names |
| `RntpSessions.PerformWrite` | c/rntp/sessions.c:101-106 | what the session checked implies that the second check succeeds: the write is applied whole and reported so |
| `RntpSessions.PerformRefusesWrite` | c/rntp/protocol.c:101-121 | a request that is no well-shaped write leaves the image as it was, and a malformed write is reported as refused |
| `RntpSessions.FinishEffect` | c/rntp/sessions.c:6-20 | commit makes the live image the committed one, rollback makes the committed image the live one byte for byte; both clear the dirty set and the lock |
| `RntpSessions.DropEffect` | c/rntp/sessions.c:31-36 | releasing a peer leaves the committed image and its published figures; releasing the owner rolls back |
| `RntpSessions.LockOpEffect` | c/rntp/sessions.c:72-79 | LOCK, UNLOCK and ABORT: who may, what they commit, and what stays |
| `RntpSessions.StepEffect` | c/rntp/sessions.c:45-119 | every event keeps the invariant and changes committed image, revision and figures only by publishing |
| `RntpTheorems.TransactionIsAtomic` | c/rntp/sessions.c:6-44 | whatever happened while a peer held the lock, the event that ends its hold leaves the live image committed after UNLOCK, or else the image at LOCK time byte for byte |
| `RntpTheorems.AbortAndReleaseRollBack` | c/rntp/sessions.c:31-36 | the owner's ABORT and its release, at any moment, end the hold without committing |
| `RntpTheorems.LockLeavesOwner` | c/rntp/sessions.c:72-79 | no event passes the lock from one peer to another: it stays with its owner or becomes free |
| `RntpTheorems.OthersSeeCommitted` | c/rntp/sessions.c:52-108 | two states that agree on all but the owner's uncommitted sectors give every other peer the same bytes, and such a request changes neither image, undo nor dirty |
| `RntpTheorems.HelloSeesCommitted` | c/rntp/sessions.c:52-66 | HELLO hands out sector 0 live, which is never dirty and so always committed |
| `RntpTheorems.OwnerIsInvisible` | c/rntp/sessions.c:85-108 | while the owner keeps the lock nothing it asks for shows outside its transaction |
| `RntpTheorems.Noninterference` | c/rntp/sessions.c:45-119 | over whole runs, everyone else receives exactly the replies they would receive had the lock owner sent nothing |
| `RntpTheorems.RevisionCounts` | c/rntp/sessions.c:12-15 | the revision is a function of the number of publications since start-up |
| `RntpTheorems.RevisionSound` | c/rntp/sessions.c:12-15 | over fewer than 2^64 - 1 publications, equal revisions mean equal committed images |
| `RntpTheorems.RevisionCycle` | c/rntp/sessions.c:13-13 | in shared runs the revision goes through 1 to 2^64 - 1 in turn, one step for each commit |
| `RntpRevisions.RevisionAccount` | c/rntp/sessions.c:12-15 | over every run, shared or exclusive, the revision is the number of publications less 2^64 for each rollover by a direct write and 2^64 - 1 for each by a commit |
| `RntpRevisions.RevisionReturnsIff` | c/rntp/sessions.c:12-15 | in every run a revision returns exactly when what was published in between is made up of whole rounds of these lengths |
| `RntpRevisions.SharedRevisionReturnsIff` | c/rntp/sessions.c:13-13 | in shared runs it returns exactly after multiples of 2^64 - 1 commits |
| `RntpRevisions.RevisionComesBack` | c/rntp/sessions.c:12-15 | a run of 2^64 - 1 commits after which the revision is the first one and the committed image another, on every image a server accepts |
| `RntpTheorems.CommittedFreeIsCurrent` | c/rntp/sessions.c:80-83 | the published figure is always the free space of the latest committed image that parses |
| `RntpFigures.StatReportsFreeSpace` | c/rntp/sessions.c:80-83 | at any moment since start-up a STAT reply decodes to the free space of the latest committed image that parses, with shared peers only of the one committed now |
| `RntpFigures.LockReportsRevision` | c/rntp/sessions.c:72-79 | the replies to LOCK, UNLOCK and ABORT decode to one more than the publications since start-up, the one just made included |
| `RntpFigures.LockIsGranted` | c/rntp/sessions.c:72-76 | a peer gets the lock exactly when it is shared and nobody holds it, is told so, and told busy or invalid otherwise |
| `RntpTheorems.CommitStillParses` | c/rntp/sessions.c:89-100 | a shared commit cannot lose the geometry |
| `RntpTheorems.SharedFreeSpace` | c/rntp/sessions.c:80-83 | with shared peers only, the figure is the free space of the committed image itself |
| `RntpTheorems.BatchIsAtomic` | c/rntp/sessions.c:88-106 | a shared batch applies every record in order or changes nothing; duplicates still undo to the sector before the transaction |
| `RntpSessionTable.SetBit` | c/rntp/sessions.c:37-44 | setting one bit of the dirty map adds exactly its sector |
| `RntpSessionTable.Table.Initialise` | c/rntp/sessions.c:21-30 | the fields are set as for the initial state, and bad arguments are refused |
| `RntpSessionTable.Table.RestoreDirty` | c/rntp/sessions.c:9-11 | copies back every dirty sector and no other |
| `RntpSessionTable.Table.Finish` | c/rntp/sessions.c:6-20 | commit or rollback in place equals the specification on image, undo, dirty map, revision and figures |
| `RntpSessionTable.Table.ReleasePeer` | c/rntp/sessions.c:31-36 | releasing a peer in place |
| `RntpSessionTable.Table.RememberSector` | c/rntp/sessions.c:37-44 | the first version of a sector is kept, later ones are not |
| `RntpSessionTable.Table.SayHello` | c/rntp/sessions.c:52-66 | admission of shared and exclusive peers in place |
| `RntpSessionTable.Table.LockUnlock` | c/rntp/sessions.c:72-79 | LOCK, UNLOCK and ABORT in place |
| `RntpSessionTable.Table.CheckTargets` | c/rntp/sessions.c:91-100 | the entire frame is checked before any undo record is added |
| `RntpSessionTable.Table.RememberTargets` | c/rntp/sessions.c:102-104 | every target of a write is remembered |
| `RntpSessionTable.Table.WriteShared` | c/rntp/sessions.c:88-106 | a write by the lock owner, checked, remembered and applied in place |
| `RntpSessionTable.Table.ServeDirect` | c/rntp/sessions.c:107-115 | everything else is served by the protocol; an exclusive peer's write is published at once |
| `RntpSessionTable.Table.HandlePeer` | c/rntp/sessions.c:45-119 | one frame in, one frame out: the state of the table after it is the specification's |
| `RntpSessionTable.WriteStatus` | c/rntp/sessions.c:109-110 | reading the status back from the reply tells whether the write was applied |
| `RntpReadAhead.Count` | c/rntp/read_ahead.c:6-13 | never reads past the disk, never past 32 sectors, and stops at the data area for metadata |
| `RntpReadAhead.ReadAhead.Get` | c/rntp/read_ahead.c:14-18 | answers exactly the sectors held, with their contents |
| `RntpReadAhead.ReadAhead.Store` | c/rntp/read_ahead.c:19-27 | holds exactly what it was given, or nothing when the reply does not fit the request |
| `RntpReadAhead.ReadAhead.Clear` | c/rntp/read_ahead.c:5-5 | holds nothing afterwards |
| `RntpClient.OthersLeaveOwner` | c/rntp/sessions.c:85-108 | no other peer's event touches the image an owner reads, or its ownership |
| `RntpClient.MildLeavesServer` | c/rntp/sessions.c:69-83 | requests that are no writes leave the server as it was |
| `RntpClient.ServeRead` | c/rntp/sessions.c:107-115 | a positive reply to a read carries the image's sectors |
| `RntpClient.NextKeeps` | c/rntp/main.c:285-435 | every step of client and server keeps the invariant, and what the kernel is told was read is what the server's image holds at that moment (what is written: RntpWrites) |
| `RntpClient.ReadAheadIsCoherent` | c/rntp/main.c:349-430 | from the first HELLO on, shared or exclusive, with any other peers, requests and disconnections, no read is answered with stale sectors; both sides end at once here, each by itself in RntpLease |
| `RntpReads.ReadIsAnswered` | c/rntp/main.c:409-435 | a read of an owner is answered at once from the buffer or by the server's next turn, with the sector the server's image holds, and the client is ready again |
| `RntpReads.ClientKnowsDisk` | c/rntp/main.c:293-313 | from the first HELLO, over every run, a client that knows a generation knows the server's, and how many sectors its disk has |
| `RntpWrites.BatchServed` | c/rntp/protocol.c:105-114 | a batch the owner may write lands whole, each sector holding the data of the last write that names it; any other changes nothing and is refused |
| `RntpWrites.WriteServed` | c/rntp/protocol.c:101-104 | the same for one sector |
| `RntpWrites.BatchLands` | c/rntp/main.c:389-408 | what the kernel asks to be written is what the server stores: each sector holds the data of the last write naming it or what it held, and the batch is reported complete; a batch that may not be written is refused, nothing changes and the client gives up |
| `RntpWrites.WriteLands` | c/rntp/main.c:409-435 | the same for a single WRITE |
| `RntpWrites.NextKnows` | c/rntp/main.c:293-371 | no step makes the client mistake the generation of the disk it is attached to |
| `RntpAttach.ClientAttaches` | c/rntp/main.c:273-388 | a client that the server lets in has attached the disk after three exchanges, knows its size, generation and what the server can do, and is one of its peers |
| `RntpAttach.AttachedMayAsk` | c/rntp/main.c:273-388 | an exclusive client may then read and write |
| `RntpAttach.LockedMayAsk` | c/rntp/main.c:409-435 | a shared one may once it has locked a disk that nobody holds |
| `RntpLease.LeaseOutlivesBuffer` | c/rntp/main.c:9-12 | once the server may give the client up, the client can answer nothing before it asks the server again, and the server will not answer |
| `RntpLease.TakenKeeps` | c/rntp/main.c:293-371 | a reply taken in before its exchange times out keeps the session and its moments, and a read it ends is current |
| `RntpLease.TimedKeeps` | c/rntp/main.c:186-440 | every step of either side, with its clock, keeps the session, even with a server clock up to 10/7 times as fast |
| `RntpLease.LeaseIsSafe` | c/rntp/main.c:186-440 | over every run, whatever either side gives up and when, a read is answered only while the server holds the session within its lease, and with its sectors |
| `RntpJoined.ServedIsMessage` | c/rntp/sessions.c:45-119 | every reply of the server is one framed message |
| `RntpJoined.IssuedIsMessage` | c/rntp/main.c:242-248 | every request of the client is one framed message (what it carries: RntpWrites.BatchLands) |
| `RntpJoined.JoinedKeeps` | c/rntp/main.c:76-440 | every step of client, server, connection and network is a step of the session with whole messages, with the same answers to the kernel |
| `RntpJoined.ReadsAreCurrentEndToEnd` | c/rntp/main.c:76-440 | over every run of both programs and a network that loses, repeats and reorders segments, every sector reported to the kernel is the one the server holds at that moment |
| `RntpJoinedWrites.BatchLandsEndToEnd` | c/rntp/main.c:76-440 | over a network that loses, repeats and reorders, a batch issued lands in the server's image, or is refused, when the server is handed it |
| `RntpJoinedWrites.WriteLandsEndToEnd` | c/rntp/main.c:76-440 | the same for a single WRITE |
| `RntpStream.TakeAckAdvances` | c/rntp/main.c:79-86 | an acknowledgment only moves the flight forward |
| `RntpStream.ResendNames` | c/rntp/main.c:87-98 | a replay sends the bytes outstanding under the numbers they had |
| `RntpStream.BurstAdvances` | c/rntp/main.c:101-112 | new segments continue the stream and stay inside the peer's window |
| `RntpStream.PumpAdvances` | c/rntp/main.c:76-121 | one pass only moves forward, respects the window, and sends every byte under its own number (that it does send: RntpRecovery.PassRepeats) |
| `RntpRecovery.ResendCovers` | c/rntp/main.c:87-98 | a replay covers every byte of the flight |
| `RntpRecovery.PassRepeats` | c/rntp/main.c:76-99 | when the timer has expired with nothing acknowledged, the pass sends every outstanding byte again under its own number |
| `RntpConnection.SelfDelimiting` | c/rntp/main.c:130-151 | a message is recognisable from its own first bytes |
| `RntpConnection.InOrder` | c/libcr2/net.c:1071-1087 | at any age, the test for the next packet is right exactly when the packet is the next one or its distance from it is no multiple of 2^32 |
| `RntpConnection.TakenWronglyIff` | c/libcr2/net.c:1071-1087 | bytes are taken in the wrong place exactly when they are old, there is room, and their distance is a multiple of 2^32 |
| `RntpConnection.AckIsNew` | c/libcr2/net.c:1064-1068 | which acknowledgments of any age are taken, and exactly when that is right |
| `RntpAliasing.StaleSegmentIsDelivered` | c/libcr2/net.c:1071-1087 | a run of 2^32 bytes after which the first segment, heard again, makes the messages handed up no prefix of those sent |
| `RntpAliasing.StaleAckIsTaken` | c/libcr2/net.c:1064-1068 | a run of 2^32 bytes after which an old acknowledgment makes the sender forget a message that has not arrived |
| `RntpConnection.ActKeeps` | c/rntp/main.c:76-151 | every action of either side keeps the invariant of both directions |
| `RntpConnection.Delivered` | c/rntp/main.c:130-151 | the messages handed up are the first of the messages sent, in order and unchanged |
| `RntpConnection.NeverBroken` | c/rntp/main.c:134-136 | the framing never breaks |
| `RntpConnection.StreamIsReliable` | c/rntp/main.c:76-151 | over a network that loses, repeats and reorders, each side hands up a prefix of what the other was given to send, however old what arrives is unless it aliases the next bytes, and whatever the segmentation, retransmission and lack of buffer space |
| `RntpRecovery.Recovers` | c/rntp/main.c:76-151 | whatever the network lost, passes, hearings and polls bring both streams to their ends, unless a side takes for acknowledged what has not arrived or waits on a window it was never told is open |
| `RntpRecovery.NeverDelivered` | c/rntp/main.c:76-151 | in either of these two cases nothing the two sides do by themselves brings everything across |
| `RntpRecovery.RecoversIff` | c/rntp/main.c:76-151 | with nothing under way, both streams can be brought to their ends if and only if neither of these is the case |
| `RntpSocket.Connection.Acknowledge` | c/rntp/main.c:79-86 | the acknowledgment branch on the socket's fields |
| `RntpSocket.Connection.Replay` | c/rntp/main.c:87-99 | the replay sends the packets of the specification, which RntpRecovery.ResendCovers says cover the flight, and puts the live sequence number back |
| `RntpSocket.Connection.SendBurst` | c/rntp/main.c:101-112 | the burst loop sends what the specification sends |
| `RntpSocket.Connection.TransmitPass` | c/rntp/main.c:76-121 | a whole pass: fields and packets are the specification's |
| `RntpSocket.Connection.OnTcpPacket` | c/libcr2/net.c:1062-1095 | the established-state branch: window, acknowledgment, in-order append of what fits, re-acknowledgment |
| `RntpSocket.Connection.Receive` | c/rntp/main.c:130-151 | the receiving loop consumes exactly one framed message and keeps what belongs to the next |
| `RntpSocket.Connection.MoveOver` | c/rntp/main.c:141-149 | the waiting bytes a message needs are copied behind it and the others slide to the front of the receive buffer |
| `RntpSocket.SlideDown` | c/rntp/main.c:146-148 | the unread rest of the buffer slides to its front unchanged |
| `TxQueue.InitMeans` | c/streamd/main.c:548-557 | a fresh queue starts at the socket's sequence number |
| `TxQueue.EnqueueMeans` | c/streamd/main.c:559-571 | an enqueued part takes the next sequence numbers of the stream; the queue means its history afterwards exactly when at most 2^31 bytes are unacknowledged |
| `TxQueue.DropTailMeans` | c/streamd/main.c:575-585 | a dropped tail gives back numbers that were never used |
| `TxQueue.ArriveMeans` | c/libcr2/net.c:1062-1068 | whatever acknowledgment arrives, the socket's figure stays a number of bytes that were sent |
| `TxQueue.AdvanceMeans` | c/streamd/main.c:601-609 | the consistency test on acknowledgments never fires |
| `TxQueue.RetireTest` | c/streamd/main.c:610-618 | the signed comparison is exact: a part stays live exactly while not all of it is acknowledged |
| `TxQueue.LiveTest` | c/streamd/main.c:612-613 | a part not yet acknowledged at all counts as live exactly when it has at most 2^31 bytes |
| `TxQueue.RetireMeans` | c/streamd/main.c:610-618 | retiring parts keeps the meaning of the others |
| `TxQueue.PickContinues` | c/streamd/main.c:644-660 | the part picked continues exactly where the stream was left: the position test never fires |
| `TxQueue.SendNewDataMeans` | c/streamd/main.c:638-668 | new data continues the stream in order and never puts more than min(peer window, 32768) bytes in flight |
| `TxQueue.RetryMeans` | c/streamd/main.c:670-692 | a retry sends bytes that were sent before under the numbers they had, and is never empty with bytes in flight |
| `TxQueue.PollMeans` | c/streamd/main.c:589-697 | a poll keeps the meaning of every field, and neither test fires |
| `TxProgress.PollReaches` | c/streamd/main.c:634-668 | a poll that is not given up sends all that the window allows or at least one byte for each segment the batch and the kernel let it send, and fails only if the kernel refuses one |
| `TxProgress.PollMovesOn` | c/streamd/main.c:638-668 | with an open window and bytes to send, a poll moves on in the stream |
| `TxProgress.PollRepeats` | c/streamd/main.c:670-683 | when the timer has run out, the poll sends the oldest byte in flight again, under its own number |
| `TxProgress.PollProbes` | c/streamd/main.c:684-686 | with the window closed and nothing in flight, the poll sends one probe, numbered before the next byte |
| `TxProgress.PollEmptiesIff` | c/streamd/main.c:601-618 | after a poll the queue is empty exactly when the peer has acknowledged every byte |
| `TxProgress.Drains` | c/streamd/main.c:589-697 | a peer that keeps acknowledging with any window but a closed one drains the queue, within as many rounds as there are bytes to send and one more |
| `TxQueue.EncodeKeeps` | c/streamd/main.c:1005-1031 | the buffer being encoded holds no byte that a live part will read |
| `TxQueue.TransmissionIsFaithful` | c/streamd/main.c:517-697 | over every run the numbered bytes are the undropped parts in order, and whatever is sent, first or again, is the stream's bytes under the stream's numbers; no poll fires a consistency test or sends new data past min(peer window, 32768) |
| `TxQueue.SameByte` | c/streamd/main.c:515-522 | over every run, two packets that cover the same position carry the same byte there, whatever was sent, dropped or encoded in between |
| `TxQueueState.TcpTxQueue.Enqueue` | c/streamd/main.c:559-571 | the ring slot, end and count after an enqueue |
| `TxQueueState.TcpTxQueue.DropUnsentTail` | c/streamd/main.c:575-585 | only an unsent tail is dropped |
| `TxQueueState.TcpTxQueue.RetireAcknowledged` | c/streamd/main.c:610-618 | the retiring loop |
| `TxQueueState.TcpTxQueue.PickPart` | c/streamd/main.c:644-652 | the first live part with bytes left |
| `TxQueueState.TcpTxQueue.SendNew` | c/streamd/main.c:638-668 | the sending loop sends what the specification sends |
| `TxQueueState.TcpTxQueue.Retry` | c/streamd/main.c:670-692 | retransmission, window probe and back-off |
| `TxQueueState.TcpTxQueue.PollOnce` | c/streamd/main.c:589-697 | one poll on the fields is the specification's poll |
| `Metrics.StoreRetains` | c/libcr2/metrics.c:30-34 | storing appends and drops the oldest row once there are 300 |
| `Metrics.GapsRetain` | c/libcr2/metrics.c:37-47 | filling only what can be retained leaves the rows of filling the whole pause, however long |
| `MetricsHistory.ExactAverage` | c/libcr2/metrics.c:55-62 | quotients and remainders fit 64 bits and give exactly floor(sum / step) |
| `MetricsHistory.EverySecond` | c/libcr2/metrics.c:57-60 | the count reaches the step exactly when every second of the bucket had a sample with the series |
| `MetricsRuns.AverageIsSummary` | c/libcr2/metrics.c:53-63 | a finished bucket's row is its summary of the history, without overflow |
| `MetricsRuns.CloseFollows` | c/libcr2/metrics.c:53-66 | ending a bucket appends its summary and the empty buckets after it |
| `MetricsRuns.ConsolidateFollows` | c/libcr2/metrics.c:49-73 | one more sample: the archive follows the longer history |
| `MetricsRuns.StoreSecondFollows` | c/libcr2/metrics.c:113-114 | the one-second archive is the samples and the empty seconds between them |
| `MetricsCollector.RateIsExact` | c/libcr2/metrics.c:75-80 | the split computation is the exact rate, cut off at the largest 64-bit number |
| `MetricsCollector.RunFollows` | c/libcr2/metrics.c:82-118 | after any snapshots all three archives follow the history since the last rollback |
| `MetricsCollector.ArchivesAreTrue` | c/libcr2/metrics.c:23-118 | the rows read, oldest first, are one step apart, end at the last finished bucket, number min(300, what there is), and each refines the history: a series is valid iff every second was seen, and its value is the exact average (what the samples are: MetricsInputs) |
| `MetricsInputs.ArchivesShowInputs` | c/libcr2/metrics.c:23-118 | after any snapshots, every point read from each archive is what the snapshots of its seconds say: a series is valid exactly when it was reported in each of them, and then is the mean of the values reported; gauges are the snapshot's own fields, rx and tx the rate of that counter while it continues within the heartbeat |
| `MetricsInputs.SampleSays` | c/libcr2/metrics.c:82-112 | a series of a sample is valid exactly when its snapshot says something of it, and its value is that |
| `MetricsInputs.RateBrackets` | c/libcr2/metrics.c:75-80 | the rate times the elapsed time brackets the difference of the counter, up to the largest 64-bit number |
| `MetricsInputs.SecondIsSnapshot` | c/libcr2/metrics.c:113-114 | a one-second point is its snapshot, series by series |
| `MetricsInputs.MeanIsBetween` | c/libcr2/metrics.c:53-73 | a point lies between the least and the greatest value reported in its seconds, and is that value when there is only one |
| `MetricsInputs.NewestSecond` | c/libcr2/metrics.c:103-114 | after any snapshots the newest one-second point shows the used heap, the whole heap and the four task counts of the last snapshot kept, each under its own series |
| `MetricsState.Ring.StoreRow` | c/libcr2/metrics.c:30-34 | the ring's rows, next and count in place |
| `MetricsState.Ring.FillGaps` | c/libcr2/metrics.c:37-47 | the gap loop in place |
| `MetricsState.Ring.ConsolidateRow` | c/libcr2/metrics.c:49-73 | closing and accumulating in place |
| `MetricsState.Ring.Read` | c/libcr2/metrics.c:23-28 | row index, oldest first, or nothing |
| `MetricsState.Collector.PushSnapshot` | c/libcr2/metrics.c:82-118 | one snapshot updates all three rings and the baseline as specified; what a reader then sees is MetricsInputs.ArchivesShowInputs |
| `DosArena.NoParagraphIsShared` | c/them/int21.c:86-93 | no paragraph belongs to two live blocks |
| `DosArena.AllocateKeeps` | c/them/int21.c:1729-1757 | AH=48h keeps the blocks disjoint, inside the arena and below the cursor |
| `DosArena.ReleaseKeeps` | c/them/int21.c:1759-1769 | so does AH=49h |
| `DosArena.ResizeKeeps` | c/them/int21.c:1771-1788 | so does AH=4Ah, with any size (what it grants: DosGrants.ResizeGrants) |
| `DosArena.ExecKeeps` | c/them/int21.c:1093-1158 | so does EXEC, whether the program is loaded or not |
| `DosArena.TerminateKeeps` | c/them/int21.c:198-231 | so does the end of a program |
| `DosArena.RunKeeps` | c/them/int21.c:96-135 | over every sequence of services the live blocks stay disjoint, inside [1000h, A000h), and the cursor at or above them all |
| `DosHoles.RoomOfHole` | c/them/int21.c:123-135 | the room computed at a hole is the hole up to the first zero-length block in it |
| `DosHoles.GrantsLowest` | c/them/int21.c:1729-1757 | a request is granted exactly when an entry is free and a hole serves it, and gets the start of the lowest one |
| `DosHoles.RefusalReports` | c/them/int21.c:1748-1752 | a refusal changes nothing and reports the most any hole shows |
| `DosHoles.ReportIsExact` | c/them/int21.c:1748-1752 | it reports the largest hole exactly when some largest hole has no zero-length block in it |
| `DosHoles.FirstFitIsExact` | c/them/int21.c:1729-1757 | the lowest hole big enough is granted exactly when no zero-length block lies where the new block would go |
| `DosHoles.FirstFit` | c/them/int21.c:1729-1757 | without zero-length blocks, allocation is first fit over the free memory and a refusal reports the largest hole |
| `DosHoles.NoZeroKept` | c/them/int21.c:1778-1783 | only a resize to nothing makes a zero-length block |
| `DosGrants.OwnOrFree` | c/them/int21.c:123-135 | with a block out of the table its own paragraphs are free too, and no others change |
| `DosGrants.ResizeGrants` | c/them/int21.c:1771-1788 | a resize is granted exactly when the block's own extent and the free run behind it that shows hold the size; the block then holds exactly that and all else is unchanged |
| `DosGrants.RefusalIsLargest` | c/them/int21.c:1777-1782 | a refusal reports a size that would be granted, and no larger one would |
| `DosGrants.NoBlockNoResize` | c/them/int21.c:1772-1776 | error 9 is answered exactly when no live block starts there |
| `DosGrants.GrantIsOwned` | c/them/int21.c:1729-1757 | what AH=48h grants was free and is now one block of the running program |
| `DosGrants.GrantIsClear` | c/them/int21.c:1729-1757 | what is granted lies clear of every live block |
| `DosGrants.ResizedIsNotGranted` | c/them/int21.c:1729-1788 | over every run, while a resized block lives no later grant touches what its program was told it has |
| `DosGrants.ReleaseFreesOne` | c/them/int21.c:1759-1769 | AH=49h frees the block meant and no other |
| `DosGrants.StartedProgramOwns` | c/them/int21.c:1093-1158 | a program that starts owns its paragraphs and its environment's, and no other block changes |
| `DosLifetimes.ReleaseUndoesAllocate` | c/them/int21.c:1729-1769 | releasing what was just allocated leaves the blocks as they were |
| `DosLifetimes.TerminateUndoesExec` | c/them/int21.c:198-231 | a child that ends gives back the parent's PSP and all blocks not owned under the child's PSP address; the parent's table is as before exactly when there are none of these |
| `DosLifetimes.ChildTakesBlocks` | c/them/int21.c:198-231 | a run in which a child lands on its parent's PSP address and its end frees the parent's block |
| `DosLifetimes.DistinctKept` | c/them/int21.c:1729-1788 | every service but EXEC keeps the starts of live blocks distinct |
| `DosLifetimes.ExecDistinct` | c/them/int21.c:1093-1147 | EXEC keeps them distinct exactly when no zero-length block lies at the cursor or the table is too full for the environment |
| `DosLifetimes.RunNoZero` | c/them/int21.c:1729-1788 | runs without a resize to nothing have no zero-length block and distinct starts |
| `DosLifetimes.ZeroLengthHides` | c/them/int21.c:123-135 | a run after which nothing can be allocated though everything above is free |
| `DosLifetimes.ZeroLengthSharesStart` | c/them/int21.c:1093-1147 | a run after which two live blocks share a start |
| `DosArenaState.Memory.FindBlock` | c/them/int21.c:96-101 | the first live entry starting there |
| `DosArenaState.Memory.AddBlock` | c/them/int21.c:103-113 | the first free entry is taken, or none |
| `DosArenaState.Memory.MoveCursor` | c/them/int21.c:115-121 | the cursor is the end of the highest live block |
| `DosArenaState.Memory.RoomAt` | c/them/int21.c:124-135 | the scan, with its early return, computes the room |
| `DosArenaState.Memory.SearchSpace` | c/them/int21.c:1733-1747 | the search over all candidates |
| `DosArenaState.Memory.AllocateMemory` | c/them/int21.c:1729-1757 | AH=48h on the table in place |
| `DosArenaState.Memory.ReleaseMemory` | c/them/int21.c:1759-1769 | AH=49h on the table in place |
| `DosArenaState.Memory.ResizeMemory` | c/them/int21.c:1771-1788 | AH=4Ah on the table in place, which grants what DosGrants.ResizeGrants says |
| `DosArenaState.Memory.ExecProgram` | c/them/int21.c:1093-1158 | the blocks of a child on the table in place |
| `DosArenaState.Memory.EndProgram` | c/them/int21.c:198-231 | the child's blocks are freed in place |
| `DosHandles.NoOverflow` | c/them/int21.c:38-38 | no reference count reaches the width of its field |
| `DosHandles.SlotIsUnnamed` | c/them/int21.c:1199-1212 | an object handed out is named by no process, running or suspended, and holds no buffer |
| `DosHandles.CloseKeeps` | c/them/int21.c:1233-1248 | closing a handle keeps counts equal to the table entries naming each object |
| `DosHandles.ExecKeeps` | c/them/int21.c:1137-1152 | so does EXEC, which shares every open file |
| `DosHandles.TerminateKeeps` | c/them/int21.c:198-207 | so does the end of a program |
| `DosHandles.RunKeeps` | c/them/int21.c:1438-1524 | over every run each object's references are the entries naming it in the running and all suspended processes; unreferenced objects hold no buffer and unsaved bytes only lie in buffers |
| `DosHandles.StepKeepsOpen` | c/them/int21.c:1233-1248 | while some process names an object it keeps its name and its buffer |
| `DosHandles.ParentGetsItsFilesBack` | c/them/int21.c:198-207 | whatever a child and its children did, its parent returns to the same table, counts and open files, and nothing the child opened is left |
| `DosOpenings.OpenGives` | c/them/int21.c:1438-1524 | a file is opened exactly when a handle and an object are left and it can be had: the lowest free handle names a file of its own with that name; otherwise the error says why and every open file is as before |
| `DosOpenings.CloseUndoesOpen` | c/them/int21.c:1233-1248 | closing what was just opened leaves the same files open under the same handles, and cannot be done twice |
| `DosOpenings.SharedStaysOpen` | c/them/int21.c:1233-1248 | closing one of several handles of a file leaves it open for the others, saved and with its buffer |
| `DosHandlesState.FileTables.AllocateHandle` | c/them/int21.c:1199-1205 | the first handle that names nothing |
| `DosHandlesState.FileTables.AllocateObject` | c/them/int21.c:1207-1212 | the first object without a reference |
| `DosHandlesState.FileTables.CreateFile` | c/them/int21.c:1438-1483 | create in place, with its three failures |
| `DosHandlesState.FileTables.OpenFile` | c/them/int21.c:1485-1524 | open in place, with its two failures |
| `DosHandlesState.FileTables.CloseOne` | c/them/int21.c:1233-1248 | close in place: saved first, freed with the last reference |
| `DosHandlesState.FileTables.WriteFile` | c/them/int21.c:1592-1641 | the buffer and its flags on a write |
| `DosHandlesState.FileTables.ExecProgram` | c/them/int21.c:1137-1152 | the table is saved and every open file gets one more reference |
| `DosHandlesState.FileTables.EndProgram` | c/them/int21.c:198-207 | the child's table is closed before the parent's is restored |
| `DosFileData.PlaceHoldsLatest` | c/them/int21.c:1592-1641 | over every sequence of reads, writes and moves, a place of the buffer holds the byte written there last, or what it held before |
| `DosFileData.ReadReturnsLatest` | c/them/int21.c:1539-1590 | a read returns, place by place, what was written last, or the file as it was opened |
| `DosFileData.SizeIsFarthest` | c/them/int21.c:1632-1636 | every place written, and every place of the file at first, is inside the file |
| `DosFileData.WriteThenRead` | c/them/int21.c:1592-1665 | what is written is read back at the same position, as far as there was room |
| `DosFileData.EndThenWrite` | c/them/int21.c:1632-1665 | a write after a move to the end appends to the file as far as there is room, and changes nothing else of it |
| `DosFileData.BackThenRead` | c/them/int21.c:1539-1665 | after a move back over what was read the same is read again |
| `DosFileData.GapIff` | c/them/int21.c:1632-1636 | a file without leftovers stays so exactly when nothing is written past its end |
| `DosFileData.OthersLeaveNoGap` | c/them/int21.c:1539-1665 | reads and moves bring no leftovers into a file |
| `DosFileData.GapShowsBuffer` | c/them/int21.c:1632-1665 | a new file whose first byte is written at place 1 begins with what its buffer held |
| `DosFileData.SavedWholeIff` | c/them/int21.c:1218-1231 | a flush saves the whole file exactly when it has at most 512 bytes, and fills up with zeros |
| `DosFileData.OpenBody.WriteBytes` | c/them/int21.c:1632-1636 | the writing loop in place |
| `DosFileData.OpenBody.ReadBytes` | c/them/int21.c:1557-1559 | the reading loop of a buffered file |
| `DosFileData.OpenBody.MoveTo` | c/them/int21.c:1643-1665 | the position after a move, never negative |
| `DosFileData.OpenBody.Flush` | c/them/int21.c:1218-1231 | the block handed to the kernel |
| `JpegHuffman.SizesCount` | c/streamd/tiny_jpeg.h:379-393 | each length is given to as many symbols as the table says |
| `JpegHuffman.SizesAscend` | c/streamd/tiny_jpeg.h:379-393 | the list of lengths ascends and is as long as the table says |
| `JpegHuffman.CodeIsKraft` | c/streamd/tiny_jpeg.h:395-423 | a code is the share of the code space used before it, cut to its length, so it fits |
| `JpegHuffman.PrefixCodeIffKraft` | c/streamd/tiny_jpeg.h:395-423 | the 16-bit codes fit their lengths and none is a prefix of another exactly when the Kraft sum is at most 1 |
| `JpegTables.DecodeEncode` | c/streamd/tiny_jpeg.h:425-439 | a symbol's code, whatever follows, is read back as the symbol |
| `JpegTables.GetCodeLengths` | c/streamd/tiny_jpeg.h:379-393 | the filling loop stores the list and a zero behind it |
| `JpegTables.GetCodes` | c/streamd/tiny_jpeg.h:395-423 | the nested loops store the canonical codes, for any ascending list with at least one code |
| `JpegTables.GetExtended` | c/streamd/tiny_jpeg.h:425-439 | lengths and codes by symbol, the last entry of a symbol deciding |
| `JpegStandard.StandardTablesComplete` | c/streamd/tiny_jpeg.h:176-201 | the encoder's four tables are prefix codes with a code for every coefficient in range |
| `JpegCodec.NumberIsExtended` | c/streamd/tiny_jpeg.h:445-459 | the bits of a number extend to the number |
| `JpegCodec.VariableLength` | c/streamd/tiny_jpeg.h:445-459 | the shifting loop finds the size and the low bits |
| `JpegCodec.ConstantIsGeneral` | c/streamd/tiny_jpeg.h:656-666 | the shortcut for equal samples writes the bits of the general path |
| `JpegCodec.DcRoundTrip` | c/streamd/tiny_jpeg.h:698-716 | the first coefficient's change is read back |
| `JpegCodec.AcRoundTrip` | c/streamd/tiny_jpeg.h:727-770 | the other coefficients are read back from runs, sixteen-zero symbols and end of block |
| `JpegCodec.BlockRoundTrip` | c/streamd/tiny_jpeg.h:645-771 | a block in range is read back whole, whatever follows it |
| `JpegCodec.ScanRoundTrip` | c/streamd/tiny_jpeg.h:645-771 | any sequence of blocks of the three components is read back, each predicted from the last of its component |
| `JpegWriter.StuffRoundTrip` | c/streamd/tiny_jpeg.h:486-493 | a reader stops at the marker and has exactly the data |
| `JpegWriter.JoinBits` | c/streamd/tiny_jpeg.h:478-482 | new bits are joined below those waiting in the buffer, and no bit is lost |
| `JpegWriter.TakeByte` | c/streamd/tiny_jpeg.h:484-497 | the buffer's high byte is the first eight bits; the shift leaves the others |
| `JpegWriter.FileRoundTrip` | c/streamd/tiny_jpeg.h:467-771 | every sequence of blocks in range comes back from the bytes written for it and the marker after them |
| `JpegEncoder.Encoder.EmitByte` | c/streamd/tiny_jpeg.h:467-475 | what was handed on and what waits grow by one byte, across a full buffer |
| `JpegEncoder.Encoder.WriteBits` | c/streamd/tiny_jpeg.h:477-498 | the bits written grow by exactly the given bits |
| `JpegEncoder.Encoder.WriteDc` | c/streamd/tiny_jpeg.h:698-716 | the first coefficient as the specification writes it |
| `JpegEncoder.Encoder.SkipZeros` | c/streamd/tiny_jpeg.h:740-753 | runs of sixteen zeros are written, the rest counted |
| `JpegEncoder.Encoder.WriteAc` | c/streamd/tiny_jpeg.h:727-770 | the other coefficients as the specification writes them |
| `JpegEncoder.Encoder.EncodeUnit` | c/streamd/tiny_jpeg.h:645-771 | one block, with and without the shortcut |
| `JpegEncoder.Encoder.WriteBlock` | c/streamd/tiny_jpeg.h:302-331 | a run of bytes reaches the output whole, however often the buffer fills on the way |
| `JpegEncoder.Encoder.Finish` | c/streamd/tiny_jpeg.h:1111-1139 | the last byte is filled, the end-of-image marker written and all output handed on |
| `JpegImage.Expand` | c/streamd/tiny_jpeg.h:784-831 | a table expanded in place stands for its codes by symbol |
| `JpegImage.EncodeImage` | c/streamd/tiny_jpeg.h:1004-1139 | the bytes of an image are read back as its blocks by the decoder |
| `MdnsNames.ReadIsSpelled` | c/mdnsd/mdns.c:137-162 | a name that is read is the one spelled there, at most 255 bytes |
| `MdnsNames.ReadIffSpelled` | c/mdnsd/mdns.c:137-162 | reading succeeds exactly on names spelled through at most sixteen pointers in at most 255 bytes |
| `MdnsNames.ReadStaysInside` | c/mdnsd/mdns.c:137-162 | the place to go on from is past the name's start and inside the message or at its end |
| `MdnsNames.NameRoundTrip` | c/mdnsd/mdns.c:187-194 | a name written and read back |
| `MdnsNames.ReadNameInto` | c/mdnsd/mdns.c:137-162 | the loop terminates on every message, stays inside it and the 256-byte buffer, and returns 0 exactly on malformed names |
| `MdnsRecords.RecordRoundTrip` | c/mdnsd/mdns.c:198-220 | a record written anywhere in a message is read back as it was |
| `MdnsRecords.RecordsRoundTrip` | c/mdnsd/mdns.c:562-602 | records written one after another are read back in order |
| `MdnsMessage.PutAllPrefix` | c/mdnsd/mdns.c:213-220 | what goes in is a whole prefix of the records, counted, and the first left out would not have fitted |
| `MdnsMessage.Writer.Put8` | c/mdnsd/mdns.c:175-180 | one byte, or the message is full |
| `MdnsMessage.Writer.PutName` | c/mdnsd/mdns.c:187-194 | a name, cut where the frame ends |
| `MdnsMessage.Writer.BeginRecord` | c/mdnsd/mdns.c:198-210 | name, type, class, TTL and room for the length |
| `MdnsMessage.Writer.EndRecord` | c/mdnsd/mdns.c:213-220 | the length is filled in, or the record taken out again |
| `MdnsMessage.Writer.WriteRecord` | c/mdnsd/mdns.c:223-277 | each record writer adds its record whole or not at all |
| `MdnsReply.FrameRoundTrip` | c/mdnsd/mdns.c:292-317 | a datagram to the group or to one host is received there with its message |
| `MdnsReply.HeaderPasses` | c/mdnsd/mdns.c:299-309 | the header of every frame passes the internet checksum |
| `MdnsReply.RecordsAreProper` | c/mdnsd/mdns.c:88-118 | every name of a host is short enough to be read |
| `MdnsExchange.AssembledBytes` | c/mdnsd/mdns.c:447-453 | the records sent are a prefix of those meant to go in, and the header counts them |
| `MdnsExchange.ResponseRoundTrip` | c/mdnsd/mdns.c:524-602 | a response is read record by record with the names, types, TTLs, targets, ports and addresses written |
| `MdnsExchange.AnnouncementIsRead` | c/mdnsd/mdns.c:461-481 | every other host reads all of an announcement's records, in order (what they say: MdnsDiscovery.AnnouncementResolves) |
| `MdnsAnswer.NameEqIffSame` | c/mdnsd/mdns.c:121-132 | the comparison on bytes is the comparison label by label without regard to case |
| `MdnsAnswer.AnswersExactly` | c/mdnsd/mdns.c:344-377 | the answers are exactly the host's records that some question asks for |
| `MdnsAnswer.ReplyIsRead` | c/mdnsd/mdns.c:379-459 | a reply on the multicast port is read as the intended records in order, up to the first that did not fit |
| `MdnsDiscovery.AnnouncementResolves` | c/mdnsd/mdns.c:461-481 | an announcement read by another host leads from the type to the instance, from it to port, host and text, from the host to the address, lists the type, and says nothing else |
| `MdnsDiscovery.GoodbyeTakesBack` | c/mdnsd/mdns.c:461-481 | a goodbye takes back the same records, and nothing in it is to be kept |
| `MdnsDiscovery.TypeResolves` | c/mdnsd/mdns.c:417-459 | asking for a type, where all fits, resolves every service of it to instance, port, host and address |
| `MdnsDiscovery.InstanceResolves` | c/mdnsd/mdns.c:417-459 | asking for an instance gives its port and host and the host's address |
| `MdnsDiscovery.DescriptionResolves` | c/mdnsd/mdns.c:417-459 | asking for an instance's text gives it |
| `MdnsDiscovery.HostResolves` | c/mdnsd/mdns.c:417-459 | asking for the host gives its address |
| `MdnsDiscovery.TypesAreListed` | c/mdnsd/mdns.c:344-377 | asking what types there are lists the type of every service |
| `MdnsDiscovery.RepliesAreTrue` | c/mdnsd/mdns.c:379-459 | whatever is asked, and whether or not all of it fits, a reply says nothing but what is true of the host |
| `MdnsDiscovery.OneServiceFits` | c/mdnsd/mdns.c:327-341 | with one service every reply fits whole |
| `MdnsState.WriteSet` | c/mdnsd/mdns.c:327-341 | the loops write the set in its order |
| `MdnsState.MatchQuestion` | c/mdnsd/mdns.c:344-377 | the loops find exactly the records a question asks for |
| `MdnsState.ReceiveFrame` | c/mdnsd/mdns.c:379-402 | the checks of a received frame, header by header, accept what the specification accepts |
| `MdnsState.WrapFrame` | c/mdnsd/mdns.c:292-317 | the headers stored in front of the message, the checksum last, make the specified frame |
| `MdnsState.Build` | c/mdnsd/mdns.c:447-453 | answers, their count, further records and their count, written in place in that order |
| `MdnsState.HandleFrame` | c/mdnsd/mdns.c:379-459 | from a received frame to the reply's frame, with every refusal |
| `MdnsState.AnnounceFrame` | c/mdnsd/mdns.c:461-481 | the announcement's frame, read by others as MdnsDiscovery.AnnouncementResolves says |
| `MdnsState.Reader.Next` | c/mdnsd/mdns.c:562-602 | the read cursor advances as specified, passing over other classes and stopping at a malformed record |

## Left out

- Kernel calls, packet drivers and the clock: requests, packets and times are parameters; the network is a set of segments that may be delivered any number of times in any order.
- SYN, RST and FIN, slot reuse and `tcp_read`: the stream results speak of one established connection, which RNTP never half-closes.
- RntpConnection.StreamIsReliable: the network does not deliver bytes that alias the next ones (`RntpConnection.Aliases`); `RntpAliasing.StaleSegmentIsDelivered` shows that it must not.
- RntpSocket.Connection: the message being transmitted, which the transmitter only reads, is a sequence; what is received lies in arrays as in the code.
- TxQueueState.TcpTxQueue: the two slots are a sequence that the methods reassign; the data of a part is named by its buffer, not by a pointer.
- TxQueue.TransmissionIsFaithful: unacknowledged bytes are at most 2^31, far above the frame buffers of the program; `TxQueue.LiveTest` says why the code needs some such bound.
- The receive window is the 32768 bytes that RNTP installs; the small default buffer is not modelled.
- RntpClient: the kernel's requests are inputs, and a request it refuses ends the session; mounting and usage messages carry no further state.
- RntpClient.ReadAheadIsCoherent: a session ends on both sides at once; `RntpLease.LeaseIsSafe` has the general case.
- RntpLease.LeaseIsSafe: what a side does in one pass of its loop happens at one moment of its clock, and the two clocks run steadily up to the factor 10/7.
- RntpRecovery.Recovers: it says that a run of passes, hearings and polls exists, not that the two programs' timers will choose it.
- MdnsDiscovery.TypeResolves: where a reply does not fit into one frame, `MdnsAnswer.ReplyIsRead` says which records still come.
- RntpJoined.ReadsAreCurrentEndToEnd: the connection is established, and no segment aliases the next bytes, as in `RntpConnection.StreamIsReliable`.
- The accept loop of `c/rntp/main.c` and the reuse of its sockets: other peers are events of the session table.
- The checksum test of received frames in `c/rntp/main.c`: a damaged segment counts as lost.
- Checksum.InetCksum: sums are unbounded numbers; no packet is long enough for the 32-bit sum to overflow.
- JPEG headers, colour conversion, the cosine transform, quantisation and the zig-zag reordering that ends it: blocks of integers in scan order are the input, with differences of the first coefficient within 2047 and the others within 1023.
- MDNS queries sent by the browser (`mdns_query`) and its text listing.
- MdnsAnswer.ReplyIsRead: replies to legacy resolvers are modelled in `Handle` but go to a port that `mdns_response` does not accept, so nothing is read back from them.
- MdnsState.MatchQuestion: the answer masks are sets of record names; the 32 bits of a mask are not modelled, for at most sixteen services.
- Host, type and instance names are labels of 1 to 63 bytes, as DNS demands of the configuration.
- DosArena.ExecKeeps: the environment's text and the loaded file are not modelled, only how many paragraphs they take and whether loading succeeds.
- DosHandlesState.FileTables: an object says whether it holds a buffer and unsaved bytes; the bytes, size and position of a buffered file are those of `DosFileData`, one file at a time.
- DosHandlesState.FileTables.WriteFile: it says which object has unsaved bytes afterwards; which bytes, and the new size and position, is in `DosFileData.OpenBody.WriteBytes`.
- DosFileData.OpenBody.ReadBytes: reads of a file not yet in its buffer go through the kernel and are left out.
- DosFileData.OpenBody.MoveTo: sums beyond 32 bits wrap; the C code leaves them undefined.
- MdnsState.HandleFrame: the received frame, which is only read, is a sequence, and so is the reply returned; it is built in place in the writer's buffer. The counter of IP identifications is a parameter.
- MdnsState.AnnounceFrame: likewise.
- MetricsState.Ring: the bit mask of valid series is a sequence of booleans.
- The 8086 interpreter, graphics, shells, web server and other programs: outside these five subsystems.
