# Verified model of peer-observer's stateful tools

peer-observer watches Bitcoin nodes through extractors and hands their events to tools. This
project models the parts of it that carry state or cross a byte boundary, and proves what holds
over all their inputs and runs.

| files | what they model |
|---|---|
| `Varint`, `ArchiveFormat`, `ArchiveErrors`, `Reader` | the archive format, what is read from damaged bytes, the reader over a stream with short reads, the replayer |
| `Events`, `ArchiveLog`, `ArchiveContents`, `Archiver` | the archiver: filter, low-data mode, buffered writing, rotation, shutdown, crashes |
| `WireCodecs` | a sample of codecs that meets what the archive laws ask |
| `SlidingWindow`, `AlertMachine`, `AlertTrace`, `Alerts` | the alerts tool: windows, one-shot flags, disconnections, stale eviction |
| `Decimal`, `Strings`, `AddrmanTable`, `AddrmanDiff` | the raw addrman conversion and the changes between polls |
| `TableStats`, `StatUtil` | the addrman statistics, sorted ages and percentiles |
| `Orphanage`, `CompactBlocks` | the orphanage counters and the pairing of compact-block log events |
| `EbpfRecord` | the record that the tracing program writes and the extractor reinterprets |
| `Connectivity`, `Quiescence`, `Outcomes` | the connectivity check's workers and their shared cache, in any interleaving, what is answered once they are at rest, and what the results and counters say |
| `LogMetadata`, `BlockChecked` | the parser of the common part of a log line, and the matcher for block-checked messages |
| `Basics`, `Folds`, `MapSums` | shared vocabulary, order-independent folds, sums over maps |

Code that updates state in place is a class or a method with a loop, proved equal to a step of a
machine written as functions; the whole-run results are lemmas about that machine. What the
environment decides (short reads, how much a buffered writer passes on, hash map iteration order,
interleavings, clocks, connection results, faults) is an arbitrary choice or an input.

## Conventions

- Clocks are natural numbers of nanoseconds. A run of the alerts tool never goes back in time.
- Message bodies are a codec of any two functions. The laws of the archive ask that the messages
  which are written be intact: an encoding shorter than 2^64 bytes that is decoded to the message.
  `ArchiveFormat.ReadFrameIff` shows that nothing less will do. Inputs are called writable when the
  headers for the start and for the time of each message, and each delivered event that is
  archived, are intact. `WireCodecs` has codecs that give back every header and every event, and
  runs on writable inputs, so that these laws are not empty.
- The length prefix is concrete: the varint of the section "Base 128 Varints" of the Protocol
  Buffers Encoding specification. A tenth byte of 2 or more is rejected, as a value that does not
  fit 64 bits.
- A file of the archiver is what has reached the file system (`disk`) followed by what the
  buffered writer still holds (`pending`).
- The proofs about the archive take a cut at any byte of the current file as a crash. A crash
  in the middle of a write that would have led to a rotation is the cut of a run whose last
  write failed.

## Findings

- The raw addrman conversion accepts keys that are not canonical: `1/2` and `1/+2` are one
  position, and only the first entry is kept (`KeysCanCollide`). Entries are lost exactly when two
  keys differ at most by plus signs and leading zeros of their parts (`NothingLostIffTextsDiffer`);
  canonical keys never do that (`CanonicalKeysAreKept`).
- The count counters of the orphanage balance against the orphans there are exactly when no poll
  lists a new id twice (`CountsBalanceIff`); the polls `[a, a]`, `[]` add 2 and remove 1
  (`RepeatedIdUnbalances`). The byte counters balance against the byte gauge, for distinct ids,
  exactly when the sizes that changed for orphans that stayed cancel out
  (`BytesTelescopeIffNoDrift`); one orphan that grows from 1 to 2 bytes leaves them at 1
  (`GrownOrphanUnbalances`).
- A validation state whose reason itself has a comma and a space is cut there
  (`BlockChecked.StateRoundTripIff`): the reason `a, b` with the debug message `c` is read as
  reason `a` with `b, c` (`ReasonIsCut`).
- A log category bracket that spells `unknown` is taken for the unknown category, so that the
  line is reported at info and not at debug level (`DebugIffNotUnknown`, and
  `UnknownReportedAtInfo` for the line `2025-10-02T02:31:14Z [unknown] hi`).
- A connectivity worker panics on an input without an address
  (tools/connectivity-check/src/main.rs:150). After as many such inputs as there are workers, all
  later inputs stay queued and are never answered: every usable input gets its output if and only
  if fewer inputs without an address than workers came before it (`AllAnsweredIff`).
  `UsableInputNeverAnswered` is the case of one worker, and `ProgramNeverAnswers` that of the 50
  workers of the program.
- The record's field for a command has twelve bytes with the terminator
  (extractors/ebpf/src/bpf/tracing.bpf.c:79), and a command on the wire may have twelve letters. The
  command that is read, and with it the wire message that is rebuilt for the decoder, is the one
  sent if and only if the command is shorter than that (`CommandReadIff`, `WireMessageRebuiltIff`);
  `getcfheaders` is read as `getcfheader` (`LongCommandIsCut`).
- The addrman counters skip a poll when the one before had no entries at all, not only the first
  poll: an addrman that was emptied and filled again is never counted as added
  (`RefillIsNotCounted`, and `AddedTotalsAccount` for any polls).

## Model

| member | source | states |
|---|---|---|
| Varint.RoundTrip | tools/archive/src/archiver/mod.rs:161-167 | every length below 2^64 is written in at most ten bytes and read back as itself |
| Varint.PrefixFree | tools/archive/src/read.rs:85-119 | no length prefix, of whatever length, is the beginning of another, so a stream splits into frames in one way only |
| Varint.DecodeFits | tools/archive/src/read.rs:109-119 | whatever prefix is accepted, canonical or not, its value fits 64 bits and its canonical form is no longer |
| Varint.CollectShape | tools/archive/src/read.rs:95-114 | the delimiter loop stops at the first byte without continuation bit, or with only continued bytes at the end of the input or at ten bytes |
| Varint.EncodeHoldsGroups | tools/archive/src/archiver/mod.rs:161-167 | an encoding holds the groups of seven bits of its number, the least significant one first, and no leading zero group |
| Varint.DecodeIff | tools/archive/src/read.rs:95-119 | collected bytes are decoded if and only if they are at most ten, only the last lacks the continuation bit, and their groups make up a number of 64 bits, which is the result |
| ArchiveFormat.ReadAcceptsExactly | tools/archive/src/read.rs:58-83 | on any bytes, a read succeeds if and only if they start with a prefix of one to ten bytes and the whole payload it announces, which decodes; it consumes exactly these |
| ArchiveFormat.ReadFrame | tools/archive/src/read.rs:58-83 | a frame whose message is intact is read back, and what follows it is left alone |
| ArchiveFormat.ReadFrameIff | tools/archive/src/read.rs:58-83 | a frame is read back if and only if its message has a length of 64 bits and is decoded to itself |
| ArchiveFormat.ReadCutFrame | tools/archive/src/read.rs:62-78 | a frame of a length of 64 bits that is cut short is a clean end if nothing of it is left and an unexpected end of file otherwise |
| ArchiveFormat.WholeIsGreatest | tools/archive/src/read.rs:58-83 | the events counted as wholly inside a cut fit into it, and one more does not |
| ArchiveFormat.Truncation | tools/archive/src/read.rs:49-119 | a stream of intact events cut at any byte yields exactly the events wholly inside the cut, then a clean end on a frame boundary and an unexpected end of file elsewhere |
| ArchiveFormat.ArchiveTruncation | tools/archive/src/read.rs:34-83 | the same for a whole archive with an intact header: an empty one lacks its header, a cut in the header is an unexpected end of file at opening |
| ArchiveFormat.ArchiveRoundTrip | tools/archive/src/read.rs:34-83 | a complete archive with an intact header and intact events gives back all of them and ends cleanly |
| ArchiveErrors.ReadAllIff | tools/archive/src/read.rs:58-119 | on any bytes, the reader shows these events and stops with this error if and only if the bytes are chunks decoded to these events, followed by nothing (no error), by a chunk that breaks off, by a prefix that is no number of 64 bits, or by a chunk that is not decoded |
| ArchiveErrors.CleanIff | tools/archive/src/replayer.rs:41-64 | a file is replayed without error if and only if it is one chunk decoded as the header and then nothing other than chunks decoded as events |
| ArchiveErrors.DamageBehind | tools/archive/src/read.rs:58-119 | whatever stops the reader behind an archive, all of the archive is shown and nothing else, with the error that belongs to it |
| ArchiveErrors.BadMessageBehind | tools/archive/src/read.rs:79-83 | a message that is there in full and is not decoded is `InvalidMessage` |
| ArchiveErrors.BadPrefixBehind | tools/archive/src/read.rs:109-119 | a prefix that is no number of 64 bits is `InvalidPrefix` |
| ArchiveErrors.DamagedHeader | tools/archive/src/read.rs:34-47 | a header that stops the reader gives no event and the error that belongs to it, an empty file the missing header |
| Reader.ReadLengthDelimiter | tools/archive/src/read.rs:95-119 | on a stream, the loop finds and consumes what the flat bytes say |
| Reader.TakeToEnd | tools/archive/src/read.rs:68-73 | however short the reads, it takes the announced bytes or all that are left |
| Reader.ReadMessage | tools/archive/src/read.rs:58-83 | short reads make no difference to result or remaining bytes, and the shared buffer never outgrows the bytes that were left |
| Reader.ArchiveReader.Next | tools/archive/src/read.rs:49-56 | the iterator yields the next message of the flat bytes |
| Reader.Open | tools/archive/src/read.rs:34-47 | opening fails on a failing or a missing header and otherwise stands right behind the header |
| Reader.ShowEvents | tools/archive/src/replayer.rs:47-63 | the loop ends, on any bytes, having shown all events before the clean end or the first error |
| Reader.ReplayFile | tools/archive/src/replayer.rs:41-64 | the result is the number of events shown, or the error that stopped it |
| Reader.Run | tools/archive/src/replayer.rs:21-39 | all files are replayed in order and an error is reported if and only if one of them has one |
| Events.StripRemovesRaw | tools/archive/src/archiver/mod.rs:557-581 | low-data mode leaves no raw transaction, is done after one pass, and leaves other messages untouched |
| Events.StripKeepsFilter | tools/archive/src/archiver/mod.rs:340-366 | the filter cannot tell a stripped event from the original |
| Events.FilterIsUnion | tools/archive/src/archiver/mod.rs:340-366 | a filter archives the union of what its fields stand for, field by field |
| Events.ArgsAreAdditive | tools/archive/src/archiver/mod.rs:229-240 | two sets of command line filters, neither empty, together archive what one or the other does |
| Events.NoArgs | tools/archive/src/archiver/mod.rs:245-257 | without filters everything is archived |
| Events.CompositeArgs | tools/archive/src/archiver/mod.rs:317-335 | the address-relay filter is the four kinds of address messages, and the handshake filter version messages and connections |
| Events.PlainArgs | tools/archive/src/archiver/mod.rs:317-335 | each other filter is its own kind of event |
| Events.StripKeeps | tools/archive/src/archiver/mod.rs:557-581 | stripping keeps the time and all but the transactions of a message; of these it keeps the ids in their places, and of a block the header |
| Events.KeptIsUnique | tools/archive/src/archiver/mod.rs:553-581 | which leaves no choice |
| ArchiveLog.RunningReceivesAll | tools/archive/src/archiver/mod.rs:460-487 | until the loop is left, draining included, no delivered event is missed |
| ArchiveLog.ShutdownDrains | tools/archive/src/archiver/mod.rs:497-519 | a shutdown request does not end the loop but starts draining; what is delivered afterwards is still received |
| ArchiveLog.Conservation | tools/archive/src/archiver/mod.rs:460-491 | every event received that passes the filter is in exactly one file, once, in order and in its archived form; only one whose write failed may be missing, and the loop ends with it |
| ArchiveContents.WrittenIsSelected | tools/archive/src/archiver/mod.rs:469-487 | in every run, what is written is one for one and in order what was received and matches the filter: the very events without low-data mode, and with it these with only ids left of transactions |
| ArchiveContents.NothingRawIsWritten | tools/archive/src/archiver/mod.rs:478-480 | in low-data mode no message written has raw transaction bytes and no block has transactions |
| ArchiveContents.HeadersTell | tools/archive/src/archiver/mod.rs:110-158 | in every run each file tells in its header whether it is in low-data mode and when it was created: the first at the start, the others at a message |
| ArchiveContents.RunsUntilEnded | tools/archive/src/archiver/mod.rs:460-531 | without failing rotations, the loop runs if and only if no input has ended it (the end of the subscription, a first shutdown request whose drain fails, a drain's timeout, a failing write), and it drains if and only if a shutdown was requested |
| ArchiveContents.RotationFails | tools/archive/src/archiver/mod.rs:487-491 | a failing rotation fails the loop if and only if the event is archived and brings the file to its limit |
| ArchiveLog.ReceivedIsIntact | tools/archive/src/archiver/mod.rs:460-491 | everything archived of what a run receives is intact when each delivered event is, in its archived form |
| ArchiveLog.RunHeadersAreIntact | tools/archive/src/archiver/mod.rs:541-551 | in every reachable state, the headers of all files are intact when those for the start and for the time of each message are |
| ArchiveLog.ReplayClosed | tools/archive/src/archiver/mod.rs:541-551 | rotated files with intact headers and events replay without error to all their events |
| ArchiveLog.CompleteReplay | tools/archive/src/archiver/mod.rs:460-551 | in every run on writable inputs without a failed write, the files replay to everything received and none fails |
| ArchiveLog.CrashSafety | tools/archive/src/archiver/mod.rs:460-551 | for every run on writable inputs and any part of the current file on disk, a replay shows a prefix of the filtered and stripped events received |
| ArchiveContents.CrashShowsSelected | tools/archive/src/archiver/mod.rs:460-551 | the same in terms of the messages: a replay shows the first of the events received that match the filter, in their form |
| ArchiveLog.CleanShutdown | tools/archive/src/archiver/mod.rs:492-495 | when the subscription ends after writable inputs, a replay shows everything that was delivered, and no file fails |
| ArchiveLog.RotationBound | tools/archive/src/archiver/mod.rs:169-174 | in every reachable state the current file has no event or is below the limit, and each rotated file reached it with its last event and not before |
| Archiver.ArchiveFile.constructor | tools/archive/src/archiver/mod.rs:147-158 | a new file holds its header, flushed, and counts its bytes |
| Archiver.ArchiveFile.Put | tools/archive/src/archiver/mod.rs:85-99 | a buffered writer passes bytes on in order and loses none |
| Archiver.ArchiveFile.WriteEvent | tools/archive/src/archiver/mod.rs:161-167 | a write appends one frame and counts it; a failed one appends some part of it and counts nothing |
| Archiver.ArchiveFile.Finalize | tools/archive/src/archiver/mod.rs:176-178 | finalizing brings the whole logical stream to the disk |
| Archiver.Archiver.Rotate | tools/archive/src/archiver/mod.rs:541-551 | the old file is complete on disk before the new one, holding only a header, takes its place |
| Archiver.Archiver.WriteAndRotate | tools/archive/src/archiver/mod.rs:482-491 | the counted bytes are the length of the logical stream, and the file rotates when they reach the limit |
| Archiver.Archiver.Handle | tools/archive/src/archiver/mod.rs:461-528 | one round of the loop is one step of the machine: undecodable and filtered-out messages change nothing, a shutdown starts draining once |
| Archiver.Archiver.Run | tools/archive/src/archiver/mod.rs:460-538 | the whole loop follows the machine; at its end the last file is finalized and the number of files is one more than the rotations |
| Archiver.Archive | tools/archive/src/archiver/mod.rs:428-538 | on any inputs the result is success if and only if the loop was left in order and the last file finalized; on writable ones what is on disk replays to the first of the events received that match the filter, in their form, at any time, and to all of them without error after an orderly end |
| SlidingWindow.DropOldFrom | tools/alerts/src/lib.rs:100-106 | popping keeps the hits from the first one inside the window on |
| SlidingWindow.AlertsAtFirstCrowded | tools/alerts/src/lib.rs:81-119 | the next hit alerts if and only if it is the first of the whole history to have `threshold` earlier hits within the window, and it reports `threshold + 1` hits |
| SlidingWindow.AlertedWindow | tools/alerts/src/lib.rs:93-110 | after the alert the window is frozen with the `threshold + 1` hits that caused it and the time of the alert |
| SlidingWindow.AlertedIffIntervalCrowded | tools/alerts/src/lib.rs:78-110 | an alert has fired if and only if some closed interval as long as the window, placed anywhere, holds more than `threshold` hits |
| SlidingWindow.WindowIsBounded | tools/alerts/src/lib.rs:78-110 | the queue is sorted, holds at most `threshold + 1` times, and never changes once the flag is set |
| AlertMachine.PeersAreIndependent | tools/alerts/src/lib.rs:239-301 | in every run the state and the alerts of a peer are those of that peer on its own |
| AlertMachine.AlertsAreThoseOfProjection | tools/alerts/src/lib.rs:152-171 | the alerts of a peer are all the alerts of the run that has only its events and the cleanup ticks |
| AlertMachine.OrderIsIrrelevant | tools/alerts/src/lib.rs:158-170 | the iteration order of the hash map changes no peer and no peer's alerts |
| AlertMachine.ProjectIsAdmissible | tools/alerts/src/lib.rs:152-171 | the events of one peer and the ticks are themselves a run of the tool |
| AlertMachine.EvictAlerts | tools/alerts/src/lib.rs:164-170 | an eviction emits exactly one disconnection for each flagged peer it removes, wherever the peer stands in the order |
| AlertTrace.WindowIsHistory | tools/alerts/src/lib.rs:263-281 | in every reachable state a peer's windows are those of all its hits since its entry was created |
| AlertTrace.AlertsExactlyAtFirstCrowded | tools/alerts/src/lib.rs:254-282 | in every run, a message makes the tool emit a spammer alert if and only if it is the first to crowd the window since the tool knows the peer; the alert has the peer's address, the configured limits and `threshold + 1` hits |
| AlertTrace.SeenAtLastMessage | tools/alerts/src/lib.rs:269-273 | in every reachable state a peer was last seen at its last inbound message of any kind, and has the address it had when it became known |
| AlertTrace.AlertsFollowProtocol | tools/alerts/src/lib.rs:138-171 | in every run each peer's alerts form blocks of one or two spammer alerts of different kinds, each closed by one disconnection with the same address and the whole seconds since the first of them; a block is open if and only if the peer is known and flagged |
| AlertTrace.KnownIff | tools/alerts/src/lib.rs:150-171 | in every run a peer is known if and only if it has an inbound message since which neither its connection was closed nor a cleanup came more than the stale time later |
| AlertTrace.QueuesAreBounded | tools/alerts/src/lib.rs:93-110 | in every reachable state the queues are sorted, bounded and frozen after their alert |
| AlertTrace.NoPeerIsForgotten | tools/alerts/src/lib.rs:199-218 | while the last tick is at most the stale time ago, no known peer was last seen more than twice that time ago |
| AlertTrace.CleanupIsExact | tools/alerts/src/lib.rs:152-171 | a cleanup leaves the peers whose last message is at most the stale time ago, as they were, and removes all others |
| Alerts.PeerState.Check | tools/alerts/src/lib.rs:81-120 | the loop over the queue is one hit of the window model, on its own kind only |
| Alerts.PeerState.Disconnected | tools/alerts/src/lib.rs:138-148 | a peer that was never flagged leaves silently, a flagged one with the time since its earliest flag |
| Alerts.WhatCounts | tools/alerts/src/lib.rs:271-277 | pings are hits of one kind, both sorts of address messages hits of the other, and nothing else is a hit |
| Alerts.AlertState.HandleMessage | tools/alerts/src/lib.rs:254-282 | an inbound message of any kind touches its own peer's record and no other, and creates it if needed; pings and both kinds of address messages are hits |
| Alerts.AlertState.HandleConnection | tools/alerts/src/lib.rs:287-301 | a closed connection removes its peer and no other, and other connection events change nothing |
| Alerts.AlertState.CleanupStalePeers | tools/alerts/src/lib.rs:152-171 | the two loops remove exactly the stale peers, in whatever order the map yields them |
| Strings.SplitAtFirst | shared/src/protobuf/rpc_extractor.rs:542-544 | a key is split at its first separator |
| Strings.SplitIff | shared/src/protobuf/rpc_extractor.rs:542-544 | exactly how a text is split: at the first place of the character |
| Decimal.ParseRendered | shared/src/protobuf/rpc_extractor.rs:546-558 | a rendered 32-bit number is parsed back |
| Decimal.ParseIff | shared/src/protobuf/rpc_extractor.rs:546-558 | a text is parsed if and only if it is digits, possibly behind a plus sign, of a number of 32 bits, which is the result |
| AddrmanTable.KeyRoundTrip | shared/src/protobuf/rpc_extractor.rs:541-558 | a canonical key gives back its bucket and position |
| AddrmanTable.ParseKeyIff | shared/src/protobuf/rpc_extractor.rs:541-558 | a key is read if and only if it is a bucket, a slash and a position, which are the result |
| AddrmanTable.FirstIsKept | shared/src/protobuf/rpc_extractor.rs:560-568 | the entry kept for a position is the first one listed for it |
| AddrmanTable.TableToAddrmanBuckets | shared/src/protobuf/rpc_extractor.rs:537-571 | the conversion panics if and only if a key is malformed; otherwise flattening gives back what was listed, the first entry of a position winning, and no bucket is empty |
| AddrmanTable.CanonicalKeysAreKept | shared/src/protobuf/rpc_extractor.rs:535-577 | with canonical keys the flattened result is the raw map, with as many entries |
| AddrmanTable.NothingLostIffKeysDiffer | shared/src/protobuf/rpc_extractor.rs:560-568 | entries are lost if and only if two keys are read as one position |
| Decimal.ParsedAlikeIff | shared/src/protobuf/rpc_extractor.rs:546-558 | two texts are parsed to one number if and only if they are the same but for one plus sign and leading zeros |
| AddrmanTable.KeysCollideIff | shared/src/protobuf/rpc_extractor.rs:541-558 | two keys are read as one position if and only if their parts are the same in that sense |
| AddrmanTable.NothingLostIffTextsDiffer | shared/src/protobuf/rpc_extractor.rs:541-568 | entries are lost if and only if the map has two keys that are the same in that sense |
| AddrmanTable.KeysCanCollide | shared/src/protobuf/rpc_extractor.rs:546-558 | two different keys that are read as one position |
| AddrmanTable.EntryCount | shared/src/protobuf/rpc_extractor.rs:488-501 | the bucket sizes add up to the number of entries |
| AddrmanDiff.BucketChanges | tools/metrics/src/lib.rs:1085-1115 | in a bucket both tables have, the loop counts the key-wise changes of its positions, in any order |
| AddrmanDiff.TableChanges | tools/metrics/src/lib.rs:1070-1120 | the nested loops count the key-wise difference of the flat maps |
| AddrmanDiff.ChangesAccountForAll | tools/metrics/src/lib.rs:1062-1120 | added, replaced and kept entries make up the current table, and changed services and times are among the kept ones |
| AddrmanDiff.WhatChanges | tools/metrics/src/lib.rs:1085-1115 | the four counts are those of the positions that are new, that have another address or port, and that have neither but other services or another time |
| AddrmanDiff.TotalsAreSums | tools/metrics/src/lib.rs:1058-1161 | in every run the totals of each table are the sums of these counts over all polls but those skipped |
| AddrmanDiff.SizeChange | tools/metrics/src/lib.rs:1075-1120 | the table grows by the added entries and shrinks by those no longer there |
| AddrmanDiff.AddrmanMetrics.HandleAddrman | tools/metrics/src/lib.rs:1058-1161 | nothing is counted on the first poll with entries, and the difference to the last poll afterwards |
| AddrmanDiff.AddedTotalsAccount | tools/metrics/src/lib.rs:1058-1161 | over any polls, all that was counted as added and the entries of the polls skipped make up the current table and the positions lost on the way |
| AddrmanDiff.AddedIsSizeIff | tools/metrics/src/lib.rs:1058-1161 | so the added total is the size of the table if and only if as many positions were lost as entries came in polls that were skipped |
| AddrmanDiff.RefillIsNotCounted | tools/metrics/src/lib.rs:1058-1161 | of any addrman that is filled, emptied and filled again nothing is counted as added |
| AddrmanDiff.AddedTotalsTelescope | tools/metrics/src/lib.rs:1058-1161 | over polls that never lose a position, the first shown entries and all that were counted as added make up the current table |
| StatUtil.SortedIsUnique | tools/metrics/src/stat_util.rs:20-27 | a sorted permutation is unique, so how the sort works does not matter |
| StatUtil.PartitionPoint | tools/metrics/src/lib.rs:927-930 | binary search on the sorted samples counts the samples up to the bound |
| StatUtil.PercentileIsMonotone | tools/metrics/src/stat_util.rs:3-18 | a percentile grows with the quantile and stays between the least and the greatest sample, which it reaches at 0 and 1 and beyond |
| StatUtil.PercentileCounts | tools/metrics/src/stat_util.rs:3-18 | at least floor((n-1)q)+1 samples do not exceed the percentile and at most ceil((n-1)q) are less |
| StatUtil.PercentileOfEvenlySpaced | tools/metrics/src/stat_util.rs:8-17 | between samples it moves in proportion: on evenly spaced samples it is the point as far along as the rank |
| StatUtil.PercentileIsLinear | tools/metrics/src/stat_util.rs:3-18 | the same in terms of the quantile; no samples have the percentile zero |
| StatUtil.PercentileOfPermutation | tools/metrics/src/stat_util.rs:20-27 | the order of the samples does not matter |
| StatUtil.MedianIsMiddle | tools/metrics/src/stat_util.rs:29-31 | the median is the middle number or the mean of the two in the middle |
| TableStats.New | tools/metrics/src/lib.rs:816-924 | the loops over the hash maps give the statistics of every order of visiting the entries once |
| TableStats.OrderIsIrrelevant | tools/metrics/src/lib.rs:831-924 | every order of visiting the entries gives the same statistics |
| TableStats.NetworkTalliesAreCounts | tools/metrics/src/lib.rs:837-875 | the entries, terrible, future and far-future counters of a network are the numbers of its entries, of those more than ten minutes ahead or 30 days behind, of those ahead, and of those more than ten minutes ahead |
| TableStats.OtherTalliesAreCounts | tools/metrics/src/lib.rs:877-898 | the counters of a port, of a services value and of a service bit are the numbers of entries that have it |
| TableStats.SourcesAreExact | tools/metrics/src/lib.rs:900-907 | the distinct systems and sources are those of the entries |
| TableStats.EndpointsAreExact | tools/metrics/src/lib.rs:848-851 | the distinct endpoints of a network are those of its entries |
| TableStats.ServicesCountedTwice | tools/metrics/src/lib.rs:883-898 | 2^b times the counts of the bits, and the services times their counts, add up to the same: the sum of all services |
| TableStats.EveryEntryIsCounted | tools/metrics/src/lib.rs:831-924 | the counts per network, per port and per services each add up to the number of ages |
| TableStats.OrderCoversTable | tools/metrics/src/lib.rs:831-832 | which is the number of entries of the table |
| TableStats.NetworkCounts | tools/metrics/src/lib.rs:837-867 | for each network, distinct addresses do not exceed distinct endpoints, those do not exceed entries, and entries far in the future do not exceed entries in the future |
| TableStats.TerribleEntries | tools/metrics/src/lib.rs:860-875 | the terrible entries are those far in the future and all but the ones with an age of up to 30 days |
| TableStats.AgeBucketsCountEntries | tools/metrics/src/lib.rs:926-930 | an age bucket counts the entries whose age, zero for entries from the future, is at most the bound |
| TableStats.AgeBucketsCountTimes | tools/metrics/src/lib.rs:831-930 | in terms of the times: it counts the entries that are from the future or not longer ago than its bound |
| TableStats.EntriesWithAgeUpTo | tools/metrics/src/lib.rs:926-930 | the binary search over the sorted ages is that count |
| Orphanage.OrphanageMetrics.HandleOrphanTxs | tools/metrics/src/lib.rs:248-310 | a poll sets the gauges and adds what is new and what is gone, also for repeated ids |
| Orphanage.CountGone | tools/metrics/src/lib.rs:284-291 | the second loop counts the remembered orphans that are gone, in any order |
| Orphanage.PollCounts | tools/metrics/src/lib.rs:265-291 | a poll adds each listed orphan the last one did not have, with its bytes, and removes each of the last one that is not listed any more, with the bytes it had, and counts nothing else |
| Orphanage.SameIdsCountNothing | tools/metrics/src/lib.rs:265-291 | so a poll with the ids of the last one counts nothing |
| Orphanage.PollBalancesUpTo | tools/metrics/src/lib.rs:248-310 | for any poll, the counts balance up to the repeats among the new ids, and the bytes up to those and the growth of the orphans that stayed |
| Orphanage.PollBalances | tools/metrics/src/lib.rs:248-310 | so for distinct ids, the counts of a poll balance, and its bytes balance up to that growth |
| Orphanage.CountersTelescopeUpTo | tools/metrics/src/lib.rs:248-310 | over any run, all added less all removed is the number of orphans plus the repeats among the new ids of each poll; for bytes, their size less all growth plus the bytes of those repeats |
| Orphanage.CountersTelescope | tools/metrics/src/lib.rs:248-310 | over runs whose polls have distinct ids, all added less all removed is the current count; for bytes, the current gauge less the growth |
| Orphanage.NoRepeatsIffDistinct | tools/metrics/src/lib.rs:265-274 | a poll has at least as many entries as ids, and as many only if it repeats none |
| Orphanage.CountsBalanceIff | tools/metrics/src/lib.rs:248-310 | over any run, added less removed is the number of orphans if and only if no poll listed a new id twice |
| Orphanage.CountGaugeBalancesIff | tools/metrics/src/lib.rs:248-310 | and it is the count shown if and only if the last poll repeats as many entries as were repeated among new ids ever |
| Orphanage.RepeatedIdUnbalances | tools/metrics/src/lib.rs:248-310 | an id listed twice and then gone is added twice and removed once |
| Orphanage.GrownOrphanUnbalances | tools/metrics/src/lib.rs:265-310 | an orphan that grows from 1 to 2 bytes between two polls leaves the byte counters at 1 |
| Orphanage.BytesTelescopeIffNoDrift | tools/metrics/src/lib.rs:265-310 | over any run, the byte counters balance against the orphans there are if and only if the growths and the bytes of repeated new ids cancel out; with distinct ids, against the gauge if and only if the growths do |
| Orphanage.BytesTelescope | tools/metrics/src/lib.rs:265-310 | when each id has one size, they balance up to the bytes of repeated new ids, and with distinct ids against the gauge |
| CompactBlocks.CompactBlockMetrics.HandleReconstruction | tools/metrics/src/lib.rs:1696-1746 | one event updates its entry, reports a completed pair and removes it, and drops old entries |
| CompactBlocks.EventsAreConserved | tools/metrics/src/lib.rs:1696-1746 | in every reachable state each entry has one of its two ends and is younger than five minutes, and events = 2 pairs + waiting + overwritten + expired |
| CompactBlocks.ExpiredIsOld | tools/metrics/src/lib.rs:1741-1745 | what goes is at least five minutes old |
| CompactBlocks.EntryWaits | tools/metrics/src/lib.rs:1702-1745 | in every run a block has an entry if and only if an event made one and waits since then: no event of the other kind came, and old entries always went less than five minutes after it |
| CompactBlocks.PairIff | tools/metrics/src/lib.rs:1716-1738 | an event completes a pair if and only if an event of the other kind about its block waits |
| CompactBlocks.PairWithinFiveMinutes | tools/metrics/src/lib.rs:1696-1746 | a block whose header came first is reported when it is reconstructed, as long as old entries went less than five minutes after the header |
| CompactBlocks.PairReportsLastEvents | tools/metrics/src/lib.rs:1649-1673 | a pair reports the mode of the last header (never an unknown one), whether the last reconstruction had requested transactions, and the time between the two |
| EbpfRecord.LayoutsAgree | extractors/ebpf/src/bpf/tracing.bpf.c:31-38 | by the layout rules of C, the fields of the record start at the offsets 0, 8, 76, 96, 108 and 112, with three bytes of padding before the size, and the payload at 120; so do those of the `repr(C)` struct |
| EbpfRecord.NumberRoundTrip | shared/src/protobuf/ebpf_extractor/ctypes.rs:54-56 | a number stored in little-endian bytes is read back |
| EbpfRecord.LastByteIsHighest | shared/src/protobuf/ebpf_extractor/ctypes.rs:54-56 | the last byte is the most significant one |
| EbpfRecord.ProbeReadUserStr | extractors/ebpf/src/bpf/tracing.bpf.c:76-80 | a string is copied, cut to leave room for its terminator; what follows the terminator in the field is arbitrary, and nothing outside the field is touched |
| EbpfRecord.SetMetaData1 | extractors/ebpf/src/bpf/tracing.bpf.c:69-73 | the numbers are stored at their offsets, and all bytes outside them are left alone |
| EbpfRecord.SetMetaData2 | extractors/ebpf/src/bpf/tracing.bpf.c:76-80 | the strings are stored at their offsets, and all bytes outside their fields are left alone |
| EbpfRecord.HandleNetMsg | extractors/ebpf/src/bpf/tracing.bpf.c:83-180 | a message of up to 4194304 bytes gets a record of the smallest class with all its fields, whatever the reserved memory held; a larger one, or one without room in its ring, gets none |
| EbpfRecord.ReadIff | shared/src/protobuf/ebpf_extractor/ctypes.rs:92-101 | any bytes are read if and only if there is room for the struct and for the payload its size field tells, at most 4194304 bytes, which is what is read |
| EbpfRecord.RecordBytes | extractors/ebpf/src/bpf/tracing.bpf.c:31-73 | a record has its id at 0, a byte of one or zero for the direction at 108, its size at 112 and the payload at 120 |
| EbpfRecord.RecordRoundTrip | shared/src/protobuf/ebpf_extractor/ctypes.rs:92-101 | the reader gets back id, direction, size, the exact payload and each string cut to its field, independent of padding, class and what follows terminator or payload |
| EbpfRecord.RawMessage | shared/src/protobuf/ebpf_extractor/ctypes.rs:442-457 | the rebuilt wire message has the command padded with zeros, none of what follows the terminator in the record, and size, checksum and payload behind it |
| EbpfRecord.WireFields | shared/src/protobuf/ebpf_extractor/ctypes.rs:442-457 | field by field: empty magic, padded command, size in 32 bits at 16, the first four bytes of the hash at 20, the payload at 24 |
| EbpfRecord.CommandReadIff | extractors/ebpf/src/bpf/tracing.bpf.c:76-80 | the command read from a record is the one of the call if and only if it is shorter than its field |
| EbpfRecord.WireMessageRebuiltIff | shared/src/protobuf/ebpf_extractor/ctypes.rs:442-457 | the wire message rebuilt from a record is that of the call if and only if the command is shorter than its field |
| EbpfRecord.LongCommandIsCut | shared/src/protobuf/ebpf_extractor/ctypes.rs:50-52 | `getcfheaders` is read without its last letter |
| Connectivity.KeyIsInjective | tools/connectivity-check/src/main.rs:149-154 | two IP endpoints have the same cache key only if address and port are the same |
| Connectivity.CachedResultsAreSound | tools/connectivity-check/src/main.rs:149-210 | in every interleaving, a cached result is a success, and less than an hour before its lookup a success for that address and port was stored after a handshake |
| Connectivity.CachedIffRecentlyStored | tools/connectivity-check/src/main.rs:155-165 | in every interleaving, a usable input is answered from the cache if and only if a success for its address and port was stored less than an hour ago |
| Connectivity.CacheTimesNeverDecrease | tools/connectivity-check/src/main.rs:188-194 | no step removes a cache entry or sets its time back |
| Connectivity.OneOutputPerUsableInput | tools/connectivity-check/src/main.rs:144-215 | in every interleaving, whenever no worker is at work, the outputs are one for each parsable IPv4 or IPv6 input taken so far and none for others |
| Quiescence.WorkShrinks | tools/connectivity-check/src/main.rs:144-215 | every step of a worker leaves less work |
| Quiescence.ComesToRest | tools/connectivity-check/src/main.rs:144-215 | from every reachable state the workers come to rest within as many steps as there is work |
| Quiescence.RunAccounts | tools/connectivity-check/src/main.rs:149-150 | in every reachable state there is one lost worker for each input without an address that was taken, and every input was taken while a worker was left |
| Quiescence.WithinReach | tools/connectivity-check/src/main.rs:149-150 | an input is within reach of the workers if and only if fewer inputs without an address than workers came before it |
| Quiescence.NeverAnsweredBeyondReach | tools/connectivity-check/src/main.rs:144-215 | in every reachable state, nothing out of reach was taken or answered |
| Quiescence.AnsweredAtRest | tools/connectivity-check/src/main.rs:144-215 | in every interleaving, workers at rest have answered every parsable IPv4 or IPv6 input within reach once, and nothing else |
| Quiescence.AllAnsweredIff | tools/connectivity-check/src/main.rs:144-215 | so every such input is answered if and only if fewer inputs without an address than workers came before each of them |
| Quiescence.FewAddressless | tools/connectivity-check/src/main.rs:357-361 | the 50 workers of the program answer everything as long as fewer than 50 inputs lack an address |
| Quiescence.UsableInputNeverAnswered | tools/connectivity-check/src/main.rs:149-150 | a run that ends with no worker, no output and a parsable input in the queue |
| Quiescence.ProgramNeverAnswers | tools/connectivity-check/src/main.rs:149-150 | behind 50 inputs without an address, the 50 workers of the program answer nothing, in any interleaving |
| Quiescence.ProgramCanNeverAnswer | tools/connectivity-check/src/main.rs:357-361 | a run of the 50 workers on these inputs that has come to rest |
| Connectivity.CountersAddUp | tools/connectivity-check/src/main.rs:374-398 | tried = successful + unsuccessful, and cached <= successful |
| Outcomes.OutcomesAreRight | tools/connectivity-check/src/main.rs:184-210 | in every interleaving and for any set of inputs: handshakes are the successful outputs that are not cached and the workers that still owe one, and stores likewise; refused attempts are the unsuccessful outputs; cache hits are the cached ones; none is cached and unsuccessful |
| Outcomes.CountersAreCounts | tools/connectivity-check/src/main.rs:374-398 | in every run the counters are the numbers of the outputs counted, of the successful, the unsuccessful and the cached ones |
| Outcomes.FinalCounters | tools/connectivity-check/src/main.rs:144-398 | once workers and sink are done, in whatever order: successful = handshakes + cache hits, unsuccessful = refused attempts, cached = cache hits, tried = all of them |
| Outcomes.RunTellsActions | tools/connectivity-check/src/main.rs:217-263 | the queue holds all that arrived, in order, the clock is the time that passed, and the outputs are those that were sent, in order |
| Outcomes.LogHasTimes | tools/connectivity-check/src/main.rs:155-195 | every store and every cache hit has the time that had passed when it was made |
| Connectivity.UsableIff | tools/connectivity-check/src/main.rs:168-184 | usable are the parsable IPv4 and IPv6 addresses |
| LogMetadata.TimestampRendered | shared/src/log_matchers.rs:13-22 | a timestamp is recognised whatever follows it |
| LogMetadata.TimestampIff | shared/src/log_matchers.rs:13-22 | exactly which lines start with a timestamp, and how long it is: a date, a time, and zero or one to six digits of a second |
| LogMetadata.ItemIff | shared/src/log_matchers.rs:25-33 | exactly what an item is: brackets around at least one character, none of them closing, and what follows |
| LogMetadata.ScanIsExact | shared/src/log_matchers.rs:48-66 | on any line, metadata and message make up the text, the message is not empty, and no more metadata is to be found in it |
| LogMetadata.ScanRendered | shared/src/log_matchers.rs:48-66 | the greedy scanner takes exactly the rendered items and leaves the message |
| LogMetadata.ScanLaidOut | shared/src/log_matchers.rs:48-66 | however much white space is behind the items, the scanner takes them all |
| LogMetadata.ScanTakesItems | shared/src/log_matchers.rs:48-66 | and on any line all that it takes is items with white space behind each |
| LogMetadata.ItemsFound | shared/src/log_matchers.rs:284-287 | searching the metadata part finds exactly the items it was rendered from |
| LogMetadata.InterpretItems | shared/src/log_matchers.rs:284-326 | finding the level, dropping level items, taking the category off the end and the thread off the front give what the items mean |
| LogMetadata.ParseCommonLogData | shared/src/log_matchers.rs:259-336 | a line that does not match gives the empty data; any other is its timestamp, metadata and message, with no metadata left in the message, and gives that timestamp, the meaning of the items in that metadata, and that message |
| LogMetadata.MatchesIff | shared/src/log_matchers.rs:48-66 | a text without line breaks behind a timestamp matches if and only if it is white space and something more |
| LogMetadata.LineRoundTrip | shared/src/log_matchers.rs:259-336 | a rendered line gives back its timestamp, the meaning of its items and its message, for any items that can stand between brackets |
| LogMetadata.LaidOutLine | shared/src/log_matchers.rs:259-336 | the same with any white space behind timestamp and items |
| LogMetadata.CategoryAndThread | shared/src/log_matchers.rs:300-326 | for any items, the category is that of the last item that is no level, if that is one, and the thread the first such item, unless that was the category |
| LogMetadata.LevelOfFirst | shared/src/log_matchers.rs:288-298 | the level is that of the first item that is a level |
| LogMetadata.LevelOfLast | shared/src/log_matchers.rs:302-322 | without one, the last item decides: trace if it is a category marked so, info for the unknown one or none, otherwise debug |
| LogMetadata.LevelIff | shared/src/log_matchers.rs:288-298 | the only levels are `error` and `warning`, in any case |
| LogMetadata.CategoryItem | shared/src/log_matchers.rs:246-257 | a category's item, marked as trace or not, is read back as that category and never as a level |
| LogMetadata.CoreLineRoundTrip | shared/src/log_matchers.rs:259-336 | a line in Bitcoin Core's layout gives back its thread, category, level, timestamp and message |
| LogMetadata.DebugIffNotUnknown | shared/src/log_matchers.rs:313-322 | such a line with a category but no level and no trace mark is at debug level if and only if the category is not the unknown one, and at info otherwise |
| LogMetadata.UnknownReportedAtInfo | shared/src/log_matchers.rs:313-322 | a line for which that goes wrong, beside one for which it does not |
| BlockChecked.StateRoundTripIff | shared/src/log_matchers.rs:40-46 | a validation state is read back as its reason and its debug message if and only if the reason has no comma with white space behind it |
| BlockChecked.SplitAtBreak | shared/src/log_matchers.rs:40-46 | any state is split at its first comma with white space behind it |
| BlockChecked.SplitWithoutBreak | shared/src/log_matchers.rs:40-46 | a state without one is all reason |
| BlockChecked.ReasonIsCut | shared/src/log_matchers.rs:40-46 | the reason `a, b` is cut to `a` |
| BlockChecked.EventRoundTrip | shared/src/log_matchers.rs:121-136 | a block-checked message gives back hash, reason and debug message, behind any text in which no earlier match starts |
| BlockChecked.CoreEvent | shared/src/log_matchers.rs:121-136 | the message as Bitcoin Core writes it gives back its hash, of 64 hexadecimal digits, its reason and its debug message |
| BlockChecked.NoEventIff | shared/src/log_matchers.rs:121-136 | nothing is found in a message if and only if no header starts anywhere in it |

## Left out

- Compression: only plain archives are modelled; what `needs_rotation` sees of a compressed file depends on zstd.
- Archive file names and the retry on a name that exists; the files are known by the order of their creation.
- Input and output errors while reading an archive; a source is read until it is exhausted. Files that cannot be opened.
- NATS, RPC, sockets, procfs, libbpf loading, metric servers and command lines: what they deliver is a sequence of inputs, and counters are integers.
- The fields of messages that neither filter, low-data mode nor metrics inspect are opaque bytes, and the generated message decoders are abstract functions.
- Events.StripLowData: is a function from event to event, not an update in place; an event has one owner there, so nothing else could see the difference.
- The addrman statistics use unbounded integers where the program uses 64-bit ones; a time so far away that `time - now` leaves 64 bits is not modelled. The port is cut to 16 bits as in the program.
- Floating point: ages and percentiles are exact reals, without infinities; a sample that is not a number is an absent one.
- The mean, and the gauges of the orphanage other than its count and bytes.
- The connection, mempool and validation records of the tracing program; only the P2P message record is modelled. For `MempoolRejected` the two sides declare different lengths (extractors/ebpf/src/bpf/tracing.bpf.c:293, shared/src/protobuf/ebpf_extractor/ctypes.rs:22), so no agreement is claimed.
- A failed read of user memory inside a tracepoint, and the lossy conversion of a field's bytes to UTF-8.
- The decoder that is given the rebuilt wire message, and the hash in it.
- EbpfRecord.HandleNetMsg: the inbound and the outbound handler are one method with the direction as an argument.
- Connectivity: the workers are a state machine over atomic steps rather than loops; the text of an address parses or not by an arbitrary predicate, and the result of a connection attempt is an input.
- Case mapping of log items is ASCII only, and digits of a timestamp are ASCII digits; reading a recognised timestamp is an arbitrary function.
- The matchers for other log messages than block-checked ones.
- That a compact-block pair completes within five minutes is not claimed: old entries go after the update, so a late event can still complete one.
- The websocket, logger and IP list tools, extractor loops and display code.
