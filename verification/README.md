# Verification of nxdumptool's transfer machinery

nxdumptool dumps game data from a console to storage or, over USB, to a host server. This project
models the parts of it in which several pieces have to agree, and proves that they do:

| files | what they model |
|---|---|
| `Pipeline`, `PipelinePrograms`, `PipelineSafety`, `PipelineLiveness`, `PipelineSuccess` | the double-buffered reader and writer threads of `nxdt_rw_poc.c` as a step machine over the one-slot shared object, and what every run of it keeps, under the code's own synchronisation and under two safe ones |
| `PipelineRuns`, `PipelineHazards`, `PipelineLies`, `PipelineHangs` | runs that lose, misplace or strand a block, or never end, and which dumps are exposed to them |
| `PipelineCleanup`, `PipelineBuffers` | what a dump leaves on the storage device when it does not get to its end, and which buffer a block goes into |
| `DumpReaders`, `DumpResults`, `DumpTrees`, `DumpHangs`, `DumpCleanup` | the extracted and recursive readers as programs of the pipeline, and the results in terms of files and directory trees |
| `UsbFraming`, `UsbProtocol`, `UsbHostSafety`, `UsbHost`, `UsbSession`, `UsbScripts` | packets and bulk reads, the ABI host of `nxdt_host.py` as functions and as a class that updates its globals in place, the console's side of `usb.c`, and the two of them together |
| `PfsImage`, `NcaPatch`, `NspBuilder`, `NspResult`, `NspNames`, `NspRecords`, `NspOverUsb` | Partition FS images, patches written into streamed content, the two passes that build an NSP, what the finished NSP is and what its entries hold, and what its content records tell |
| `Ctr`, `NcaSection`, `NcaMeaning` | counter blocks, counter mode, reading and patching any range of an encrypted section through one buffer |
| `Xci`, `XciDump`, `RomFsWalk`, `RomFsDump`, `LatestTitle`, `TitleIds`, `ServiceGuard` | gamecard images and their checksums, the RomFS table walk, both alone and through the pipeline, the search for the latest title, title ID arithmetic, the reference-counted service guard |
| `Bytes`, `Bits` | sequences and integers of bytes; the bit-mask macros of `defines.h` |

Code that updates state in place is modelled as classes and methods with loops, each proved against
a function or a predicate; the threads are modelled as step relations, because every interleaving of
them is the point. AES, SHA-256 and the CRC-32 table are arbitrary functions. I/O failures, lost
transfers, cancellations and the host's checks of an output path are the environment's choices.

## Findings

Some promises hold only under a condition. The condition is part of the theorem, and where the text
says "exactly" both directions are proved. The code's own synchronisation unlocks the mutex, only
then wakes the other thread, and guards its waits by `if` (`nxdt_rw_poc.c:4787-4804`, `6436-6466`).
Safe ones wake inside the critical section, or test the guard again after a wait.

* A wait can end while the block before it is still in the slot exactly when the synchronisation is
  the code's own and the wait is the first one behind a block other than the first
  (`nxdt_rw_poc.c:4787-4804`, `OvertakenIff`). A block is lost exactly when such a wait stands before
  another block of the same file; for a raw dump, to a file or over USB, when it has at least three
  blocks (`LosesDataIff`, `LosesDataIffThreeBlocks`).
* As written, a dump in which nothing fails can hang (`nxdt_rw_poc.c:6432-6445`, `CleanRunHangsIff`):
  a raw one exactly when it has at least three blocks (`CleanRawDumpHangsIffThreeBlocks`); an extracted
  or recursive one, to files, exactly when it has two blocks or more, unless they are just the two of
  the file that ends it, and over USB exactly when it has three or more, two of them in the file that
  is opened last (`ExtractedHangsIff`, `RecursiveHangsIff`).
* As written, an extracted dump can be reported as successful while a block is missing, is in another
  file, or has been sent out of freed memory, exactly when it has two blocks or more, and over USB a
  last file that is not empty (`nxdt_rw_poc.c:5080-5095`, `6440-6445`, `ExtractedSuccessIsWrongIff`);
  one file of two blocks is enough (`TwoBlocksSufficeToLoseOne`). For a recursive dump of files with
  distinct paths the condition is one on the tree: some file with a block other than the first of the
  dump ends the dump, or, to files, is followed by another file of its directory or holds one such
  block in front of another (`nxdt_rw_poc.c:6150-6165`, `RecursiveSuccessIsWrongIff`). A raw dump
  reported as successful has always written everything, but for its last block, which may come out of
  freed memory.
* A run in which nothing fails stays on its way to success exactly when there is a byte to dump, and
  the synchronisation is safe or the dump has at most one block, or two of a raw dump to a file
  (`nxdt_rw_poc.c:4908-4912`, `6436-6445`, `StaysOnTrackIff`): a dump of nothing is refused
  (`NothingToDump`), and otherwise a block can be lost, the writer can leave early, or a transfer of
  nothing can be refused (`usb.c:372-377`). Whatever happens, both threads take a bounded number of
  steps (`RunsAreBounded`).
* A cancellation alone, or a read error alone, can leave the writer asleep for ever exactly when there
  is a byte to dump (`nxdt_rw_poc.c:6436`, `CancelHangsIff`, `ReadErrorHangsIff`). A write error alone
  can leave the reader asleep exactly when some final wait may meet the block that failed, because
  that wait does not look at the error (`nxdt_rw_poc.c:5084`, `6154`, `WriteErrorHangsIff`): never in a
  raw dump, in an extracted one when its last file is not empty or an overdue wake-up can lead into an
  empty last file, in a recursive one when some directory ends behind a block.
* The readers of files delete all output when they end with a flag set, but only if a file is open
  then (`nxdt_rw_poc.c:5093-5103`, `5481-5491`, `5801-5811`, `6158-6168`, `6406-6416`). So a failed
  write leaves nothing, nor does a dump that ends early inside a file (`WhatIsLeft`); but a reader
  that ends between two files, because the next one cannot be opened or a directory cannot be listed,
  or, behind a directory, because it is stopped, leaves everything before. That can be exactly when
  some place of its program other than the end has files and none open (`LeavesFilesIff`): in an
  extracted dump, when there are two files or more (`ExtractedLeavesFilesIff`), in a recursive one,
  when some file is not the last entry of the dumped directory (`RecursiveLeavesFilesIff`), and in
  both when there is a byte to dump. What is left are whole files under a safe synchronisation, or
  with at most one block (`ExtractedLeaves`, `RecursiveLeaves`); as written, a file can be left
  without its last block (`LeavesTruncated`, `FirstFileTruncated`). A stop that comes after the reader
  has ended reports a cancelled dump and deletes nothing (`nxdt_rw_poc.c:6491-6501`, `LateStop`).
* A raw reader frees its buffers right after publishing the last block, so that a dump reported as
  successful may end in anything, under every synchronisation (`nxdt_rw_poc.c:4807-4812`,
  `RawDumpMayEndInGarbage`). Readers that wait for the slot to drain do so exactly over USB, when
  that wait can be overtaken (`DrainedReaderIsTornIff`).
* The host takes a 16-byte chunk that equals a cancel header for a cancellation
  (`nxdt_host.py:957-968`, `FramedTransfer`); a cancellation in the last 15 bytes of a file stops the
  server (`nxdt_host.py:931-945`, `CancelArrives`); and a header sent outside NSP transfer mode stops
  it too, instead of being answered with a malformed command (`nxdt_host.py:1018-1025`,
  `NspHeaderCompletes`).
* A Partition FS header stays aligned when an entry is added exactly when its name table grows
  (`pfs.c:283-308`, `AlignmentKeptIffGrown`); all names in an NSP are long enough for that, and the
  header of a finished NSP is aligned (`HeaderIsAligned`).
* Records of the content meta are updated by size, type and ID offset (`cnmt.c:331-349`). When IDs
  tell contents apart, the records of a finished NSP tell the hash and label of every other content
  exactly when no record in front of a changed content's own one has that content's size, type and ID
  offset (`MetaRecordsAllIff`); a title of two one-byte contents loses a hash (`FirstHashIsLost`,
  `LosesAHash`).
* The size of an NSP is the announced one exactly when the regenerated XML of the content meta has
  kept its size (`nxdt_rw_poc.c:7003`, `7194-7216`, `SizeIsAnnounced`).
* A patch of a section whose hash region is stored in plaintext is encrypted as a whole; it reads
  back as intended exactly when none of its encrypted bytes fall into that region
  (`nca.c:1790-1799`, `PatchIsSeamlessIff`).
* `host/README.md:146` gives the path of a file 769 bytes; the host reads the first 768
  (`nxdt_host.py:796-800`), which is all a console path can need.

## Model

| member | source | states |
|---|---|---|
| PipelineSafety.ReachableInv | code_templates/nxdt_rw_poc.c:4942-5091 | under every kind of synchronisation, the code's own included, every step of either thread keeps one invariant, through read errors, write errors and cancellations at any point |
| PipelineSafety.WrittenIsBlockPrefix | code_templates/nxdt_rw_poc.c:5034-5078 | in every run, bytes written and the block in the slot never exceed the bytes published; they are equal unless a wait before another block can be overtaken, and then what has been written is a prefix of the source that ends at a block boundary |
| PipelineSafety.BlockInFlightIsUntouched | code_templates/nxdt_rw_poc.c:5064-5078 | while a block is in the slot, no step of the reader changes the slot, its buffer or the output, other than one that overtakes the block, what follows it up to the next wait, and the cleanup of a failed run |
| PipelineRuns.OvertakenIff | code_templates/nxdt_rw_poc.c:4787-4804 | a wait can end with the block before it still in the slot if and only if it is the first wait behind a block other than the first, and wake-ups are neither sent inside the critical section nor re-tested |
| PipelineLiveness.RunsAreBounded | code_templates/nxdt_rw_poc.c:4942-5091 | every run of every reader, whatever the synchronisation and whatever fails, takes a bounded number of steps besides cancellations |
| PipelineLiveness.CleanRunsComplete | code_templates/nxdt_rw_poc.c:6471-6570 | every run without failures of a dump of at least one byte with safe synchronisation, or with at most one block (two of a raw dump to a file), ends in success with all bytes written |
| PipelineSuccess.SuccessIsComplete | code_templates/nxdt_rw_poc.c:6471-6570 | a dump reported as successful has written everything, every block into the file it belongs to, unless one of its fatal waits can be overtaken; raw dumps have none, but may have been written out of freed memory |
| PipelineHazards.LosesDataIff | code_templates/nxdt_rw_poc.c:4787-4804 | some run loses a published block if and only if a wait before a block can be overtaken, for every reader |
| PipelineHazards.LosesDataIffThreeBlocks | code_templates/nxdt_rw_poc.c:4787-4804 | a raw dump, to a file or over USB, can lose a block if and only if the synchronisation is the code's own and it has at least three blocks |
| PipelineHazards.ReadErrorHangsIff | code_templates/nxdt_rw_poc.c:4935-4939 | a dump can hang after a read error alone, sent before the writer has joined its queue, if and only if there is a byte to dump |
| PipelineHazards.CancelHangsIff | code_templates/nxdt_rw_poc.c:6436-6445 | a dump of any reader can hang after a cancellation alone, which the writer's wait guard does not look at, if and only if there is a byte to dump |
| PipelineHazards.AlarmEndsSleeper | code_templates/nxdt_rw_poc.c:4945-4949 | a stop or a read error that finds the writer asleep wakes it, and at its next step the writer leaves; only one that tests its guard again sleeps on after a cancellation |
| PipelineHazards.WriteErrorHangsIff | code_templates/nxdt_rw_poc.c:5080-5086 | a dump can hang after a failed write alone if and only if one of its drains may meet the failed block: published right before it, or past one overtaken wait and one opened file |
| PipelineHazards.RawDumpNeverStrands | code_templates/nxdt_rw_poc.c:4787-4804 | a raw dump never hangs once a write has failed |
| PipelineHazards.RawDumpMayEndInGarbage | code_templates/nxdt_rw_poc.c:4807-4812 | under every kind of synchronisation, a raw dump reported as successful may end in any bytes of the right length |
| PipelineLies.DrainedReaderIsTornIff | code_templates/nxdt_rw_poc.c:5080-5110 | a reader that waits for the slot to drain can have a block written out of freed memory if and only if it goes over USB and its final wait can be overtaken; it can end cleanly with a full slot if and only if that wait can be overtaken |
| PipelineLies.SuccessLiesIff | code_templates/nxdt_rw_poc.c:6440-6445 | a drained dump can be reported as successful while incomplete, misplaced or ending in garbage if and only if one of its fatal waits can be overtaken |
| PipelineLies.StaysOnTrackIff | code_templates/nxdt_rw_poc.c:6436-6466 | every run without failures keeps its flags down, loses nothing and has its writer stay, if and only if there is a byte to dump, and the synchronisation is safe or there are too few blocks |
| PipelineHangs.CleanRunHangsIff | code_templates/nxdt_rw_poc.c:6429-6469 | for every reader, a run without failures can hang if and only if the synchronisation is the code's own and: with files the reader closes, there are two blocks or more, other than a single pair at the end; and otherwise, a block of the file opened last can be overwritten |
| PipelineHangs.CleanRawDumpHangsIffThreeBlocks | code_templates/nxdt_rw_poc.c:6432-6436 | a raw dump, to a file or over USB, can hang with nothing failing if and only if the synchronisation is the code's own and it has at least three blocks |
| PipelineCleanup.WhatIsLeft | code_templates/nxdt_rw_poc.c:5093-5103 | under every synchronisation, a dump to storage leaves no file when a write has failed, or when it ends early with a file open; any other leaves nothing, or exactly the files opened up to where it ended |
| PipelineCleanup.LeftFilesAreWhole | code_templates/nxdt_rw_poc.c:5093-5103 | when no block can be overtaken, the files left are whole: those of the program up to there |
| PipelineCleanup.LeavesFilesIff | code_templates/nxdt_rw_poc.c:6158-6168 | a reader, other than the RomFS one, that ends early can leave files if and only if its program comes to a place, other than its end, where there are files and none of them is open |
| PipelineCleanup.LeavesTruncated | code_templates/nxdt_rw_poc.c:4951-4966 | as written, every loop head whose wait can be overtaken can close a file without its last block, and the dump can end there and leave it |
| PipelineCleanup.LateStop | code_templates/nxdt_rw_poc.c:6491-6501 | a stop after both threads have ended turns any success into a failure that leaves all files |
| PipelineCleanup.NothingToDump | code_templates/nxdt_rw_poc.c:4908-4912 | a dump of no bytes opens no file, writes nothing and is never reported as successful |
| PipelineBuffers.CallsKeepBuffers | code_templates/nxdt_rw_poc.c:6019-6025 | in every run, when a recursive call returns, both buffers have the order they had when it was entered, however many blocks the call has read |
| DumpResults.ExtractedDumpIsFaithful | code_templates/nxdt_rw_poc.c:4883-5112 | a successful extracted dump has written all entries, each into its own file, if the synchronisation is safe, or it has at most one block, or goes over USB with an empty last file; the RomFS reader may skip only empty files; what an unsuccessful one leaves is stated by the rows of DumpCleanup |
| DumpResults.ExtractedSuccessIsWrongIff | code_templates/nxdt_rw_poc.c:4883-5112 | in all other cases, and in no others, some run is reported as successful with wrong output |
| DumpResults.TwoBlocksSufficeToLoseOne | code_templates/nxdt_rw_poc.c:5080-5095 | as written, an extracted dump of one file of two blocks can be reported as successful with bytes missing |
| DumpResults.ExtractedDumpFinishes | code_templates/nxdt_rw_poc.c:4883-5112 | for any list of file sizes, zeros included, that holds a byte, of at most one block or under a safe synchronisation, a run without failures is never stuck, is bounded, and ends in success |
| DumpResults.ExtractedStaysOnTrackIff | code_templates/nxdt_rw_poc.c:6436-6466 | a run without failures of an extracted dump can go wrong if and only if there is no byte to dump, or the synchronisation is the code's own and there are two blocks or more |
| DumpHangs.ExtractedHangsIff | code_templates/nxdt_rw_poc.c:6429-6469 | as written, an extracted dump can hang with nothing failing if and only if, to files, it has two blocks or more that are not just the two of its last file, or over USB, three or more with two in its last file |
| DumpResults.ExtractedWriteErrorHangsIff | code_templates/nxdt_rw_poc.c:5080-5086 | an extracted dump can hang after a failed write alone if and only if its last file is not empty, or, as written, the last but one is not and holds a block other than the first |
| DumpResults.ExtractedStopHangsIff | code_templates/nxdt_rw_poc.c:6436-6445 | an extracted dump can hang after a cancellation alone, or a read error alone, if and only if its files hold a byte |
| DumpTrees.RecursiveDumpIsFaithful | code_templates/nxdt_rw_poc.c:5959-6178 | a successful dump of any directory tree holds every file of the tree with its own bytes, unless the synchronisation is the code's own and the tree has a risky file |
| DumpTrees.RecursiveSuccessIsWrongIff | code_templates/nxdt_rw_poc.c:5959-6178 | it may hold something else if and only if the synchronisation is the code's own and some file of the tree is risky, by its blocks, the blocks before it and what follows it in its directory |
| DumpTrees.RecursiveStaysOnTrackIff | code_templates/nxdt_rw_poc.c:6436-6466 | a run without failures of a recursive dump can go wrong if and only if there is no byte to dump, or the synchronisation is the code's own and the tree has two blocks or more |
| DumpHangs.RecursiveHangsIff | code_templates/nxdt_rw_poc.c:6429-6469 | the same for directory trees, with the file that ends the dump, and over USB with the file that is opened last |
| DumpTrees.RecursiveWriteErrorHangsIff | code_templates/nxdt_rw_poc.c:6150-6156 | a recursive dump can hang after a failed write alone if and only if some directory of the tree ends behind a block, directly, over USB through directories that lead to an empty one, or, as written, with one empty file in between |
| DumpTrees.RecursiveStopHangsIff | code_templates/nxdt_rw_poc.c:6436-6445 | a recursive dump can hang after a cancellation alone, or a read error alone, if and only if its tree holds a byte |
| DumpTrees.CallsReturnWithEmptySlot | code_templates/nxdt_rw_poc.c:5959-6178 | although the buffers are passed by value, every recursive call returns with two distinct buffers and an empty slot, unless the drain of the call was overtaken |
| DumpCleanup.ExtractedLeavesFilesIff | code_templates/nxdt_rw_poc.c:5093-5103 | an extracted dump to storage that ends early can leave files if and only if it has two files or more and a byte to dump, the RomFS reader included |
| DumpCleanup.ExtractedLeaves | code_templates/nxdt_rw_poc.c:5093-5103 | what it leaves are the first files of the image, without the last, and then no write has failed; they are whole under a safe synchronisation or with at most one block |
| DumpCleanup.FirstFileTruncated | code_templates/nxdt_rw_poc.c:4951-4966 | as written, a first file of two blocks or more can be all that is left, and incomplete |
| DumpCleanup.RecursiveLeavesFilesIff | code_templates/nxdt_rw_poc.c:6158-6168 | a recursive dump that ends early can leave files if and only if there is a byte to dump, and some file of the tree is not the last entry of the directory dumped |
| DumpCleanup.RecursiveLeaves | code_templates/nxdt_rw_poc.c:6158-6168 | what it leaves are files of the tree, and then no write has failed; each holds its own bytes under a safe synchronisation or with at most one block |
| UsbFraming.ReadTransfer | host/nxdt_host.py:603-604 | a read of the data size, one byte more when that is aligned, takes exactly the packets of one transfer and its empty packet |
| UsbFraming.FileStreamIsFramed | source/core/usb.c:388-407 | whatever chunks a file is sent in, its packets carry exactly its bytes and end in one short packet |
| UsbFraming.HostReadTakes | host/nxdt_host.py:920-945 | for every cut into transfers and every packet size dividing the block, each read takes some data, leaves a framed rest, and never times out or overflows |
| UsbHostSafety.AnyTransfer | host/nxdt_host.py:931-979 | against any device the transfer loop ends, and a completed transfer has appended exactly what it read |
| UsbHostSafety.TransferLeaves | host/nxdt_host.py:920-996 | a completed transfer ends at the announced size or one byte past it; a failed or cancelled one leaves neither the file nor any NSP state; no other file changes |
| UsbHostSafety.NspHeaderCompletes | host/nxdt_host.py:1015-1047 | the header is accepted exactly in NSP mode with nothing missing and the announced header size; the file is then header and bodies, of the announced size |
| UsbHostSafety.CommandKeeps | host/nxdt_host.py:1108-1159 | whatever a device sends, every command keeps the accounting of NSP mode: file is padding and bodies, and the remaining size counts what is missing |
| UsbHost.Server.IsAlignedToPacketSize | host/nxdt_host.py:603-604 | the mask test is divisibility by the packet size |
| UsbHost.Server.ResetNspInfo | host/nxdt_host.py:606-620 | all NSP globals are reset, and the file is removed exactly when asked |
| UsbHost.Server.ReceiveData | host/nxdt_host.py:920-996 | the loop over offset and block size does what the transfer function says, in state, log and outcome |
| UsbHost.Server.HandleSendFileProperties | host/nxdt_host.py:783-996 | the handler, branch by branch, has the effect, the exchange and the status of its specification |
| UsbHost.Server.HandleSendNspHeader | host/nxdt_host.py:1015-1047 | the handler has the effect and the status of its specification, the stop before the mode check included |
| UsbHost.Server.Serve | host/nxdt_host.py:1078-1159 | the command loop, from any consistent state and against any device, ends and has exchanged and stored what the session function says; where that stops and where it goes on is stated by the rows below |
| UsbSession.CommandArrives | source/core/usb.c:698-794 | a command sent by the console, with any block, is read exactly and dispatched |
| UsbSession.EndSessionStops | host/nxdt_host.py:1156-1159 | EndSession is answered with status 0 and ends the server, whatever the device sends behind it |
| UsbSession.StartSessionStopsIff | host/nxdt_host.py:775-781 | StartSession is answered with 0 and the loop goes on for ABI version 1.2; any other version is answered with 6 and ends the server, whatever follows |
| UsbSession.MalformedIsAnswered | host/nxdt_host.py:1131-1152 | any other magic word, an unknown command ID, or a block of the wrong size is answered with 4, 5 or 7, changes nothing, and the loop goes on behind the block |
| UsbSession.WrongModeIsRefused | host/nxdt_host.py:1003-1061 | cancelling outside NSP mode, an NSP header that is not due, and starting a file system dump in NSP mode are answered with 7 and change nothing |
| UsbSession.UnexpectedHeaderStops | host/nxdt_host.py:1018-1019 | an NSP header while no NSP file is open ends the server without an answer, whatever follows |
| UsbSession.BadPropertiesAreRefused | host/nxdt_host.py:808-820 | file properties without a name, with a name too long, or with an NSP header size that does not fit the size or the mode are answered with 7 and change nothing |
| UsbSession.PropertiesRoundTrip | source/core/usb.c:1262-1302 | the host parses the size, the path and the NSP header size that the console put into the block |
| UsbSession.FramedTransfer | host/nxdt_host.py:957-968 | a framed file is received completely, and nothing behind it is touched, if and only if no chunk of it reads like a cancellation; otherwise it is dropped |
| UsbScripts.OnlyTheLastBlock | host/nxdt_host.py:957-968 | with 8 MiB blocks only the last chunk of a file can be mistaken for a cancellation |
| UsbScripts.CancelIs | host/nxdt_host.py:957-961 | a chunk is taken for a cancellation exactly when it has sixteen bytes of which the first eight are the magic word and command 2 |
| UsbScripts.CancelArrives | source/core/usb.c:459-475 | a cancellation between two blocks is noticed exactly when at least its own 16 bytes are still missing; otherwise the server stops |
| UsbScripts.EveryOpIsServed | host/README.md:81-186 | every operation usb.c allows is answered with the statuses the console waits for, and changes the files as the console's view says |
| UsbScripts.ConformingSessions | host/README.md:229-258 | every conforming sequence of files, NSPs and cancellations, refused ones included, is served to the end, which may be an EndSession or a refused version with anything sent behind it: the exchange of packets and statuses and the final disk are exactly the console's |
| UsbScripts.NspIsComplete | host/README.md:229-258 | an NSP sent entry by entry ends up as its header followed by its entries, and no other file changes |
| Bits.PowerOfTwoTest | include/defines.h:37-37 | the mask test recognises exactly the powers of two |
| Bits.AlignedMeansMultiple | include/defines.h:35-35 | for a power of two, the mask test is divisibility |
| Bits.AlignUpIsLeast | include/defines.h:33-33 | for a power of two, the result is the least multiple at or above the argument |
| PfsImage.Image.AddEntry | source/core/pfs.c:248-319 | a name is refused only when empty; otherwise it is appended, all other entries and names stay, offsets are running sums, and the table grows as stated |
| PfsImage.Image.UpdateName | source/core/pfs.c:321-348 | a name is replaced exactly when the new one is not longer; the rest of it, all other names and the header size stay |
| PfsImage.HeaderRoundTrip | source/core/pfs.c:350-391 | a written header starts with the bytes of "PFS0", holds the entry count, the name table size and every entry's fields at their offsets on disk, is accepted by the reader, and reads back as exactly its entries and names, whatever follows it |
| PfsImage.AlignmentKeptIffGrown | source/core/pfs.c:283-308 | adding an entry keeps the header aligned if and only if the name table grows |
| NspResult.HeaderIsAligned | source/core/pfs.c:283-308 | the header of a finished NSP ends at the first multiple of 0x20 behind its entries and names |
| NcaPatch.WriteRegion | source/core/nca.c:1708-1730 | exactly the bytes a buffer and a region have in common are overwritten, and the result tells whether the region's end was among them |
| NcaPatch.Patch.WriteToBuffer | source/core/nca.c:346-363 | a block is overlaid with all regions, those finished earlier included, and the flags say which regions end in it |
| NcaPatch.StreamPatched | code_templates/nxdt_rw_poc.c:7090-7168 | for every block size, what is streamed is the whole content with the header patch and then the content patch over it |
| NcaPatch.InnerPatchWins | code_templates/nxdt_rw_poc.c:7128-7148 | every byte sent comes from the last region of the content patch over it, else from the last one of the header patch, else from the content |
| NspBuilder.PassesAgree | code_templates/nxdt_rw_poc.c:6901-6995 | entry k has the size of body k for any mix of contents, icons, XMLs and ticket, if and only if the regenerated XML has kept its size |
| NspBuilder.Builder.FirstPass | code_templates/nxdt_rw_poc.c:6901-7005 | the first pass lays out the specified entries in order, with the indices the second pass relies on |
| NspBuilder.Builder.VerifyContentHash | source/core/cnmt.c:267-316 | a content is accepted exactly when the first record with its ID holds its hash |
| NspBuilder.Builder.UpdateContentInfo | source/core/cnmt.c:318-355 | the first record with the content's size, type and ID offset gets the new ID and hash, and no other changes |
| NspBuilder.Builder.Build | code_templates/nxdt_rw_poc.c:6572-7431 | a run succeeds exactly when nothing stops it, every content is verified and finds the record to update, and the header fits into a block; it has then sent the bodies of the final records in entry order, given every entry its final name, and put the final header over the room left for it |
| NspResult.SizeIsAnnounced | code_templates/nxdt_rw_poc.c:7003-7066 | the bytes written differ from the announced size by exactly what the regenerated XML differs from the first one |
| NspResult.EveryEntryLeadsToItsBody | code_templates/nxdt_rw_poc.c:7063-7371 | entry k of the finished file, as read back from it, names body k by its final label, and its offset leads to exactly the bytes of body k from where the file's own two counts say that the data starts |
| NspResult.NamesAreHashes | code_templates/nxdt_rw_poc.c:7168-7191 | a content keeps its label if sending has not changed its hash, and else is named by the first 16 bytes of the hash of what was sent |
| NspNames.EntriesAreThese | code_templates/nxdt_rw_poc.c:6901-6995 | a finished NSP has an entry of an owner, a suffix and a body if and only if it is a content, its XML or icons, the XML of the content meta, the ticket or the certificate chain, each under its own suffix |
| NspNames.TicketIsNamedByRights | code_templates/nxdt_rw_poc.c:6982-6989 | ticket and certificate chain are named by the rights ID |
| NspNames.HexReadsBack | source/core/nxdt_utils.c:708-725 | every byte of a label is written as two lower-case digits that read back as its upper and its lower half |
| NspRecords.RecordedIff | source/core/cnmt.c:331-349 | when IDs tell contents apart, a content's own record ends with the hash of what was sent and, if that has changed, its first 16 bytes as the ID, if and only if its update met that record and no other content's did |
| NspRecords.MetaRecordsAllIff | source/core/cnmt.c:357-390 | the content meta of a finished NSP, sent last, is patched from records that tell the final hash and label of every other content if and only if no record in front of a changed content's own one has its size, type and ID offset |
| NspRecords.FirstHashIsLost | source/core/cnmt.c:331-349 | in the finished NSP of two one-byte contents of one size, type and ID offset, no record tells the hash of the first |
| NspRecords.LosesAHash | code_templates/nxdt_rw_poc.c:7168-7191 | and that NSP is finished when nothing stops it |
| NspOverUsb.HostHoldsTheSameNsp | code_templates/nxdt_rw_poc.c:7352-7369 | sent over USB under any entry names, the NSP arrives as exactly the file the storage path writes |
| Ctr.InitializePartialCtr | include/core/aes.h:43-56 | the loop writes the counter block of the IV and the offset and nothing behind it; null pointers change nothing |
| Ctr.UpdatePartialCtr | include/core/aes.h:58-71 | the lower half becomes the block number of the offset, and the upper half stays |
| Ctr.UpdatePartialCtrEx | include/core/aes.h:73-91 | the generation and the block number are replaced, and the secure value stays |
| Ctr.CounterValue | include/core/aes.h:43-56 | read as a 128-bit big-endian number, the counter of an offset is the counter of offset 0 plus offset / 16, with no carry into the upper half |
| Ctr.CounterBytes | include/core/aes.h:43-56 | the counter block is the big-endian form of that number |
| Ctr.UpdatesAgreeWithInitialisation | include/core/nca.h:313-321 | the plain update continues an initialised counter, and the extended one is initialisation with the generation replaced |
| Ctr.RandomAccess | source/core/nca.c:1292-1300 | decrypting an aligned sub-range from its own counter is slicing a sequential decryption |
| Ctr.CryptByCounterBlocks | source/core/nca.c:1297-1299 | from any aligned offset, byte i meets the cipher's output for the counter block of its own offset, at its position in that block |
| Ctr.CryptTwice | source/core/nca.c:1794-1799 | decryption undoes encryption |
| NcaSection.FsSection.Read | source/core/nca.c:1191-1354 | any range, aligned or not, through any number of buffers and across a plaintext hash region, is read as the section means: an encrypted byte as its own bits against the cipher's output for the counter block of its own offset; and the read succeeds exactly when the range and its last cipher block are in the file |
| NcaSection.FsSection.ReadAesCtrEx | source/core/nca.c:1386-1462 | a range is decrypted with its own generation, which the counter then keeps |
| NcaSection.FsSection.GenerateBlock | source/core/nca.c:1737-1866 | the block decrypts to the new data with what the section means around it |
| NcaMeaning.MeaningIsSequential | source/core/nca.c:1070-1099 | what an encrypted section means is its sequential decryption from the counter of its own offset |
| NcaMeaning.WholeBlocksAreReadable | source/core/nca.c:1306-1309 | in a content of whole cipher blocks, aligning a range upwards never makes a read fail |
| NcaMeaning.PatchIsSeamlessIff | source/core/nca.c:1790-1799 | putting a generated block into the content changes what the section means in exactly the new data, if and only if no encrypted byte of it falls into the plaintext hash region, but for bytes the key stream leaves alone |
| NcaMeaning.PatchBesideHashRegion | source/core/nca.c:1732-1736 | a block beside the hash region replaces data seamlessly |
| Xci.ReadImage | code_templates/nxdt_rw_poc.c:4754-4805 | for every block size, the blocks published are those of the image without its certificate, and the checksums are those of exactly these bytes, and of the key area and these bytes |
| Xci.CrcAppend | code_templates/nxdt_rw_poc.c:2606-2611 | checking a part and then the rest with its result as the seed is checking both |
| Xci.OnlyTheCertificateChanges | code_templates/nxdt_rw_poc.c:4773-4774 | removal sets bytes 0x7000 to 0x71FF to 0xFF and changes nothing else |
| XciDump.SuccessfulDumpIsTheImage | code_templates/nxdt_rw_poc.c:4732-4812 | in every run of the two threads, under every synchronisation, a gamecard dump reported as successful has written exactly the image with its certificate kept or removed, unless its last block was written out of freed memory |
| RomFsWalk.Walk | code_templates/nxdt_rw_poc.c:5650-5786 | on any table and under any progress of the writer, the walk ends, stays inside the table, and stops for one of its three reasons |
| RomFsWalk.TableHoldsEntries | include/core/romfs.h:98-109 | a concatenation of encoded entries holds every entry where the walk will look for it, which is the first multiple of four behind the name of the one before |
| RomFsDump.WrittenAtHead | code_templates/nxdt_rw_poc.c:5650-5651 | in every run of the two threads, the bytes written when the loop condition is checked are at most the sizes of the entries dumped so far |
| RomFsDump.DumpSkipsEmptyFilesOnly | code_templates/nxdt_rw_poc.c:5650-5651 | while the two threads run, whatever their synchronisation and whatever fails, the walk over a table of entries never fails, visits a prefix of them in order, and stops only when all entries left are empty |
| LatestTitle.CountFromInfoBlock | include/core/title.h:330-352 | from any node of a list, the result is the length of the whole list |
| LatestTitle.LatestTitleInfo | code_templates/nxdt_rw_poc.c:1947-1993 | from any node of a list of patches, the result is the latest title, its position from the head, and the length of the list |
| LatestTitle.LatestIsNewest | code_templates/nxdt_rw_poc.c:1959-1987 | the title found is of maximal version; the start wins every tie, nodes before it win over nodes behind it, and nearer ones over farther ones |
| TitleIds.AddOnConvertsBack | include/core/title.h:210-242 | for all 64-bit values, an add-on ID that belongs to an application converts back to it with its low twelve bits cleared |
| TitleIds.BelongsToOneApplication | include/core/title.h:235-242 | an add-on ID belongs to two applications only if they agree above the low twelve bits |
| TitleIds.SiblingsAreEquivalent | include/core/title.h:244-249 | the sibling check is an equivalence on the valid add-on IDs and holds of no others |
| TitleIds.SiblingsShareAnApplication | include/core/title.h:244-249 | siblings are exactly the IDs that belong to one application together |
| TitleIds.AddOnsAndDataPatchesAreApart | include/core/title.h:271-294 | the add-on IDs and the data patch IDs of one application never overlap |
| TitleIds.PatchAndDeltaRoundTrip | include/core/title.h:195-203 | converting to a patch, a delta or a data patch ID and back gives the ID again, wrap-around included |
| TitleIds.IdsOfAnApplication | include/core/title.h:31-38 | from an application ID, the patch is 0x800 above, the delta 0xC00, add-on content i 0x1001 + i, and its data patch another 0x800 |
| TitleIds.IndexBelongs | include/core/title.h:251-255 | the ID made from an application and a 16-bit zero-based index belongs to the application exactly for the first 2000 indices |
| ServiceGuard.StepInv | include/core/service_guard.h:33-56 | every step keeps the invariant, and an initialisation exactly when the counter does not overflow |
| ServiceGuard.EveryRunIsGuarded | include/core/service_guard.h:58-74 | under any interleaving of any threads, when the mutex is free the service is live if and only if the counter is positive, and attempts and cleanups take turns |
| ServiceGuard.CountsUsers | include/core/service_guard.h:33-56 | the counter is the number of successful initialisations less the exits that met a live service |
| ServiceGuard.SurplusExit | include/core/service_guard.h:50-56 | an exit without a user changes nothing |
| ServiceGuard.Guard.BeginInitBy | include/core/service_guard.h:33-37 | the first half of an initialisation, on the object itself, is its step, and tells whether the service has to be initialised |
| ServiceGuard.Guard.EndInitBy | include/core/service_guard.h:39-47 | the second half, which cleans up after a failure, is its step |
| ServiceGuard.Guard.ExitBy | include/core/service_guard.h:50-56 | the exit, on the object itself, is its two steps |

## Left out

- DumpTrees.RecursiveSuccessIsWrongIff: is stated for trees whose files have distinct paths, as on a file system; a file dumped twice could hide what happened to its first copy.
- NspRecords.MetaRecordsAllIff: assumes that record IDs differ, that a record with a content's ID describes that content, and that no changed content's new ID is already in use, because otherwise records cannot be told apart at all.
- NcaSection.FsSection.Read: is stated for ranges that do not reach over both ends of a hash region, because the region always starts with the section, where that cannot happen.
- NcaSection.FsSection.GenerateBlock: covers plaintext and AES-CTR sections, not AES-XTS ones.
- ServiceGuard.EveryRunIsGuarded: assumes fewer than 2^32 users, because the counter wraps around there.
- DumpCleanup.RecursiveLeaves: is stated for trees whose files have distinct paths, for the same reason.
- PipelineCleanup.LeavesTruncated: goes one way: it is stated for waits before a file is closed, and not for blocks that are overwritten or left behind at a return and lie in a file that is left.
- Data races inside a critical section are not modelled: a mutex-held section is one step, which hides a reader closing the output file, right behind a wait or after a cancellation, while the writer is inside `fwrite`.
- Readers and writer are a step relation and not an imperative program, so that every interleaving is covered; how an error unwinds the recursive reader's calls is collapsed into its end.
- What freed memory holds is arbitrary; reads of it by the writer are modelled, other uses are not.
- The file browser, menus, configuration, progress reporting and logging are user interface.
- The USB stack below bulk packets, device enumeration and speed changes in mid-session are not modelled; a failed write of a status ends the real server one step earlier than the model.
- Decoding of paths, creation of directories and free space are one choice of the environment per offered path; two offered paths name the same file exactly when they are equal.
- Splitting of large files for FAT32 and pre-allocation of single files with `ftruncate` are not modelled; for NSPs the pre-allocated size is.
- Cancellation of an NSP dump is checked once per content instead of once per block; either way the output is removed.
- AES-XTS sections, sparse and compressed storage, bucket trees and hash layer generation are not part of this model.
- The title key check, header encryption and the generation of XMLs and patches for other contents are inputs of the NSP builder.
- The XTS and RSA cryptography, tickets and certificates are opaque bytes.
- 64-bit overflow of offsets and sizes is excluded by preconditions, except for title IDs and the service counter, where it is modelled.
- Service initialisation itself is one step that succeeds or fails.
