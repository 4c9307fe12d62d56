# The AESD character driver and its socket server, modelled in Dafny

The driver keeps the ten most recent write commands in a ring of entries and
presents them as one stream of bytes. A write that holds a newline finishes a
packet; writes without one are gathered in a pending block. Reads deliver the rest
of one entry at a time, `llseek` moves within the total length, and an ioctl moves to
an offset inside a chosen command. The socket server runs one thread per connection:
it hands what it receives to the device, up to a newline, and sends the device's
contents back.

What the device is for is stated in `PacketSpec.dfy` without rings or pointers, twice:
one call at a time (`WriteAbs`, `ReadAbs`, `SeekAbs`) and over a whole history of writes
(`Packets`, `Unfinished`, `LastTen`). Everything else is proved against it:

| file | contents |
|---|---|
| `Bytes.dfy` | C strings, sums, concatenation and positions in a concatenation |
| `Memory.dfy` | the kernel heap: an allocator that may reuse addresses, move blocks and leave junk in them |
| `CircularBuffer.dfy` | the ring as a value with its invariant, and the class the driver updates |
| `PacketSpec.dfy` | the packet specification, its two accounts, draining, seeking, chunking |
| `Driver.dfy` | the whole device as a value, ownership of every heap block, all runs of writes |
| `Device.dfy` | the class behind `main.c`, method by method |
| `CriticalSection.dfy` | the bodies under the mutex, step by step |
| `Threads.dfy` | any number of threads with their programs, the two locks, runs |
| `Interleaving.dfy` | serialisability: results, files, device and ownership in every interleaving |
| `Programs.dfy` | merging: the log against the programs, the order of `write_lock` |
| `LengthScan.dfy` | the unlocked length scan against the commits that overlap it |
| `Schedules.dfy` | progress, and the interleavings that show where the guarantees end |
| `OneThread.dfy` | the class against the jobs of the interleaved threads |
| `WriteLock.dfy` | when `write_lock` can still be freed |
| `Server.dfy` | one connection: the reused buffer, the receive and send loops, the echo |
| `ServerRuns.dfy` | all connections together: whose chunks end up in which packet, and who stalls |
| `Replies.dfy` | what a connection is sent in an interleaving |
| `Seeks.dfy` | where `llseek` puts a file in an interleaving, and what is read from there |
| `Reaper.dfy` | main and its workers: flags, joins, lost completions |

State that the source updates in place is a class (`Slab`, `Buffer`, `Device`, `File`);
each of its methods is proved against functions of the value it holds, and the lemmas
are about those functions. What the kernel chooses (addresses, junk bytes, memory past
the array, faults, when a lock wait is interrupted) is a parameter or an arbitrary
choice. A thread is taken to own one open file.

Where code and documentation differ the model follows the code:

- The ioctl's prefix loop does not wrap around. It sets the documented position,
  whatever lies beyond the array, if and only if output position plus command is at most
  ten (`SeekExactIff`). Up to eleven packets every accepted seek is exact
  (`SeekExactEarly`); with twelve one can go astray (`SeekAstray`).
- The ioctl accepts an offset equal to the command's size, which is the start of the next
  command (`SeekThenRead`).
- The ioctl unlocks a mutex it has not taken when it fails early. A step keeps mutual
  exclusion if and only if it is not such a failure while somebody holds the mutex
  (`MutexKeptIff`), and a run if and only if it has no such step (`PoliteIffMutex`). A run with one such step ends with the mutex free and the ring out of
  order (`StrayUnlockBreaksRing`). The theorems about interleavings are about
  all runs without such a step, called polite; without seek commands every run is
  (`SeekFreeIsPolite`).
- A write moves the file position by the packet's length plus one for every chunk
  (`WriteAdvance`, `OnePacketCommits`).
- A read ignores the count it is given and copies one byte more than it announces. All
  reads stay within the count if and only if every packet is shorter than it
  (`ReadsFitIff`); for every count one write makes the next read overrun it
  (`EveryCountIsOverrun`).
- A refused `llseek` stores its error as the position (`RefusedSeekReadsNothing`).
- `add_entry` leaks one scratch block per packet, and that is all that is leaked while
  blocks are to be had (`OwnershipOverRuns`); without a scratch block the whole packet is
  dropped, and still reported as written (`Device.Write`). A packet that cannot get its
  own block leaves the device in order if and only if it was a new one and the chunk did
  not end it (`RefusedKeepsInvIff`).
- The unlocked length scan can answer with a length the device never had
  (`ScanCanMiss`); with two commits in between, exactly when is stated by
  `ScanAnswers`.
- The server holds `write_lock` around one chunk, not around one packet: a packet ends up
  made of two clients' chunks if and only if somebody's write comes directly after
  another client's chunk without a newline (`PacketsMixIff`, `PacketsCanMix`).
- A server thread whose write is interrupted asks again for the `write_lock` it holds. In
  every polite run of the server the lock can still be freed if and only if its holder
  has not been interrupted in its write (`ServerWriteLockIff`); a run in which that
  happens, while another connection reads its reply, is `WriterCanStall`.
- With a NUL in a chunk, leftovers in the server's buffer can end a packet that holds no
  newline (`LeftoversCanEndAPacket`); when they do is stated by `ServerSeesNewlineIff`.
- Main can lower a worker's flag without having seen it. It does so if and only if the
  worker raised it between main's test and main's store (`LostIff`), and the worker is
  then never joined (`LostIsNeverJoined`).

## Model

| member | source | states |
|---|---|---|
| `CircularBuffer.Buffer.constructor` | aesd-char-driver/aesd-circular-buffer.c:162-165 | initialisation gives the empty ring, which satisfies the ring invariant |
| `CircularBuffer.Buffer.FindEntryOffsetForFpos` | aesd-char-driver/aesd-circular-buffer.c:56-94 | nothing is found iff the offset is at or past the total of the live entries; otherwise the slot and inner offset whose preceding sizes add up to the offset; the ring is as before although the search moved the output position, in at most ten rounds |
| `Driver.HitIsAt` | aesd-char-driver/aesd-circular-buffer.c:46-55 | what the lookup finds by sizes is, in the flat concatenation of the packets, the packet and byte at that position |
| `Bytes.AtFacts` | aesd-char-driver/aesd-circular-buffer.c:48-55 | a position of a concatenation determines one part and inner offset, the byte there is the concatenation's byte, and the rest of the part is a slice of the concatenation |
| `CircularBuffer.Buffer.AddEntry` | aesd-char-driver/aesd-circular-buffer.c:103-130 | without memory for the scratch block nothing changes; otherwise the live entries lose the oldest iff ten were live and gain the new one with its measured length, the displaced pointer is returned, and one fresh block stays allocated |
| `CircularBuffer.PushedIsQueue` | aesd-char-driver/aesd-circular-buffer.c:112-127 | the stores of an addition keep the ring invariant on every rotation and act on the live entries as a bounded queue; the displaced pointer is the oldest entry's |
| `CircularBuffer.Buffer.Length` | aesd-char-driver/aesd-circular-buffer.c:148-157 | the sum over slots 0 to 9 is the sum over the live entries |
| `CircularBuffer.RotationKeepsSum` | aesd-char-driver/aesd-circular-buffer.c:148-157 | the physical sum does not depend on the output position |
| `CircularBuffer.LiveComesFirst` | aesd-char-driver/aesd-circular-buffer.c:68-83 | in the lookup's order the live entries come first and only zero sizes follow |
| `PacketSpec.Eviction` | aesd-char-driver/aesd-circular-buffer.c:96-130 | the flat contents after a commit are the old ones without the oldest packet, if ten were live, followed by the new one, and every surviving byte moves forward by the evicted length |
| `PacketSpec.HistoryIsView` | aesd-char-driver/main.c:150-193 | the call-by-call account and the history account of the device agree on every sequence of writes |
| `PacketSpec.ChunkingLeavesNoTrace` | aesd-char-driver/main.c:150-193 | two ways of cutting one NUL-free packet leave the same device; the file positions differ by exactly the difference in the number of writes |
| `PacketSpec.OnePacketCommits` | aesd-char-driver/main.c:156-193 | writes of which only the last holds a newline commit the tail followed by their strings, and move the file by the packet's length plus one per chunk |
| `PacketSpec.ReadFacts` | aesd-char-driver/main.c:73-106 | a read is empty iff the position is at or past the end; otherwise it is the slice of the flat contents from the position to the end of its entry |
| `PacketSpec.DrainIsSuffix` | aesd-char-driver/main.c:54-118 | repeated reads deliver the flat contents from the position on, nothing if it is past the end |
| `PacketSpec.DrainIsShort` | aesd-char-driver/main.c:54-118 | they take no more non-empty reads than there are entries from the position on |
| `PacketSpec.DrainStepsOnBoundaries` | aesd-char-driver/main.c:81-86 | every read of a drain is non-empty and ends on an entry boundary |
| `PacketSpec.SeekExactIff` | aesd-char-driver/main.c:254-269 | an accepted seek sets the documented position for every content of the memory past the array iff output position plus command is at most ten |
| `PacketSpec.SeekAstray` | aesd-char-driver/main.c:257-260 | after twelve packets a seek to the tenth live command can set another position |
| `PacketSpec.SeekExactEarly` | aesd-char-driver/main.c:254-269 | up to eleven packets every accepted seek sets the documented position, so that twelve is the smallest failing history |
| `PacketSpec.SeekAcceptedIff` | aesd-char-driver/main.c:223-251 | a seek command is accepted iff the command is live and the offset at most its size; refused, it returns the error and leaves the position |
| `PacketSpec.SeekThenRead` | aesd-char-driver/main.c:244-269 | within that bound, the next read delivers the command from the offset on; with the offset at its end, the next command or nothing |
| `PacketSpec.SeekLands` | aesd-char-driver/main.c:203-212 | SEEK_SET and SEEK_END succeed iff the asked position lies in 0 to the length; a following read delivers the contents from there to the end of the entry, something iff it lies below the length |
| `PacketSpec.SeekSetThenCur` | aesd-char-driver/main.c:203-212 | SEEK_CUR by m after SEEK_SET to n answers and leaves the file as SEEK_SET to n + m does, refusal included, and a read then delivers the contents from there to the end of the entry |
| `PacketSpec.SeekIsSeekSet` | aesd-char-driver/main.c:203-212 | from every position SEEK_CUR by other than zero and SEEK_END are SEEK_SET to the position they ask for, SEEK_CUR by zero leaves the position, and any other whence is refused |
| `PacketSpec.RefusedSeekReadsNothing` | aesd-char-driver/main.c:208-211 | the error stored as position reads nothing iff the contents are at most 2^64 - 22 bytes |
| `PacketSpec.ReadsFitIff` | aesd-char-driver/main.c:83-106 | no read, from whatever position, copies more than count bytes iff every packet is shorter than count |
| `PacketSpec.EveryCountIsOverrun` | aesd-char-driver/main.c:83-106 | for every count a single write on a fresh device makes the first read copy more |
| `PacketSpec.InOfIsModulo` | aesd-char-driver/aesd-circular-buffer.c:125-127 | the input position after n packets is n modulo ten |
| `Driver.AppendBound` | aesd-char-driver/main.c:155-176 | the allocated or grown block holds the tail as a string and has exactly room for it, the chunk and the terminator counted per chunk, so the append fits |
| `Driver.GatherRefines` | aesd-char-driver/main.c:150-177 | gathering a chunk keeps ownership of all blocks, appends the chunk's string to the tail and leaves the packets alone, whether or not the block moves |
| `Driver.CommitRefines` | aesd-char-driver/main.c:179-193 | a commit keeps ownership of all blocks and pushes the tail into the view, dropping the oldest packet iff ten were live |
| `Driver.WriteRefines` | aesd-char-driver/main.c:120-201 | a write keeps the device invariant, does to the abstract device what the specification says, and its pending size is the file's advance |
| `Driver.RunRefines` | aesd-char-driver/main.c:120-201 | after any run of writes the invariant holds and the device stands for the specification's state |
| `Driver.TraceRefinement` | aesd-char-driver/main.c:120-201 | after any run of writes the slots read from the output position are the last ten packets of the history with their exact sizes, the pending block is the unfinished tail with a capacity of its bytes plus its chunks, and both offsets are functions of the number of packets |
| `Driver.OwnershipOverRuns` | aesd-char-driver/main.c:155-193 | live and pending blocks are pairwise distinct and allocated, and the rest of the heap is one scratch block per packet; with blocks numbered by the packets they were allocated for, the live ones are those of the last packets in order, the released ones exactly those of all packets before, each once and in order, and nothing unallocated was ever released |
| `Driver.LoseRefines` | aesd-char-driver/main.c:179-193 | a packet dropped for want of a scratch block leaves a device in order with the packets it had and no tail |
| `Driver.RefusedKeepsInvIff` | aesd-char-driver/main.c:155-171 | a chunk that gets no block leaves the device in order iff it began a packet and did not end it |
| `Driver.SizesAreLengths` | aesd-char-driver/aesd-circular-buffer.c:123-124 | recorded sizes are the packets' exact lengths, not the pending sizes |
| `Driver.OutIsOutOf` | aesd-char-driver/aesd-circular-buffer.c:112-119 | output position and number of live entries are functions of the number of packets |
| `Device.Device.constructor` | aesd-char-driver/main.c:353-377 | the module's initial device is valid, unlocked and empty |
| `Device.Device.Reserve` | aesd-char-driver/main.c:155-166 | a new packet gets a cleared fresh block, a continued one keeps its bytes in a grown block that may have moved |
| `Device.Device.Gather` | aesd-char-driver/main.c:155-177 | reservation and append together; that the string fits is established for the append |
| `Device.Device.Commit` | aesd-char-driver/main.c:179-193 | the entry goes into the ring, the file moves by the pending size, a displaced buffer is released while it is allocated, flags are reset |
| `Device.Device.CommitRefused` | aesd-char-driver/main.c:179-193 | without a scratch block the entry is not stored and its block lost, while file and flags go on as if it had been |
| `Device.Device.Write` | aesd-char-driver/main.c:120-201 | for every chunk and every fault: interrupted, without a buffer or on a copy fault, device and file are unchanged and the matching error is returned; a write of no bytes, and a new packet without a block, bring the thread down with the mutex held; a continued packet without a block returns an error and loses its pointer; a packet without a scratch block is dropped and reported as written; otherwise count is returned and device and file change as specified |
| `Device.Device.Read` | aesd-char-driver/main.c:54-118 | the device is unchanged; the file moves by what the specification's read finds, which is delivered with one terminator, announced without bytes when no buffer can be had, or replaced by an error on a copy fault; undisturbed, the bytes copied are within count iff nothing was found or what was found is shorter than count |
| `Device.Device.CopyOut` | aesd-char-driver/main.c:90-106 | the bytes handed over are the rest of the entry's string and one NUL |
| `Device.Device.Seek` | aesd-char-driver/main.c:203-212 | the position becomes the kernel's answer for the length of the flat contents, errors included |
| `Device.Device.AdjustFileOffset` | aesd-char-driver/main.c:214-278 | a command that is not live or an offset beyond its size is refused with the position unchanged; otherwise the position is the one the loop computes; the mutex is free afterwards, taken or not |
| `Device.SeekOutcome` | aesd-char-driver/main.c:236-269 | the slot check passes iff the command is live, the size check is against the packet's length, and the loop's sum is the specification's |
| `CriticalSection.ReadFinishes` | aesd-char-driver/main.c:70-112 | a read's walk through the shared ring, step by step, ends with the specification's read and the device as it was |
| `CriticalSection.LookupWalks` | aesd-char-driver/aesd-circular-buffer.c:66-93 | from any point of the walk, the lookup ends on the entry that is hit or gives up after the tenth, with the output position restored |
| `CriticalSection.WriteFinishes` | aesd-char-driver/main.c:137-193 | a write's steps end with the invariant and the specification's write |
| `CriticalSection.SeekFinishes` | aesd-char-driver/main.c:236-272 | a seek's checks and loop end with the specification's seek |
| `CriticalSection.StartsOnCourse` | aesd-char-driver/main.c:65-117 | every call that is given the mutex on a device in order is going to return what it returns alone |
| `Interleaving.MutexKeptIff` | aesd-char-driver/main.c:223-234 | a step keeps mutual exclusion iff it is not an early failure of the ioctl while somebody holds the mutex |
| `Interleaving.PoliteIffMutex` | aesd-char-driver/main.c:223-276 | from the start, a run has no such failure while somebody holds the mutex iff after every one of its steps exactly the owner of the mutex is inside |
| `Interleaving.StrayUnlockAdmitsTwo` | aesd-char-driver/main.c:274-276 | after such a failure any waiting call gets in while the first is still inside |
| `Interleaving.TakeKeepsInv` | aesd-char-driver/main.c:54-278 | every polite step of every thread keeps mutual exclusion, the course of the call inside, the files outside and the log |
| `Interleaving.Serialisable` | aesd-char-driver/main.c:54-278 | in every polite interleaving of any number of threads each job returned what it returns in the serial run of the log, which starts from a fresh device and the files' first positions and moves each file only by its own thread's jobs; every file outside the mutex stands where that run leaves it; with the mutex free the ring invariant holds and the device is what that run leaves |
| `Interleaving.CallsReturn` | aesd-char-driver/main.c:54-278 | in every polite interleaving a logged write returned the number of its bytes, a read the number it delivered, a seek command zero or the error |
| `Interleaving.DeviceHoldsTheLog` | aesd-char-driver/main.c:120-201 | with the mutex free the slots hold the last ten packets of the logged writes, and the pending block the rest |
| `Interleaving.OwnersInInterleavings` | aesd-char-driver/main.c:155-193 | with the mutex free every block has its one owner, and the blocks released are those of the packets that left the ring, each once |
| `Programs.LogIsMerge` | server/aesdsocket.c:134-182 | in every interleaving the log, projected to a thread, is the part of the thread's program that it is done with, less exactly the calls that came back without the mutex; and it holds nothing else |
| `Programs.WriteLockOrder` | server/aesdsocket.c:148-182 | in every interleaving the guarded writes are in the log in the order in which their writers took `write_lock`, all but at most the last one; with `write_lock` free, all |
| `Programs.WritesArePrefix` | server/aesdsocket.c:134-182 | in every interleaving the logged chunks of a thread that writes under `write_lock` are a prefix of its program's chunks, and all of them once it is through |
| `Programs.DoomedForever` | server/aesdsocket.c:148-175 | once the holder of `write_lock` has been interrupted, or is to write nothing, `write_lock` is never free again and no guarded write begins |
| `Programs.SeekFreeIsPolite` | aesd-char-driver/main.c:223-276 | where no program holds a seek command every interleaving is polite |
| `LengthScan.RunTotals` | aesd-char-driver/aesd-circular-buffer.c:148-157 | in every polite interleaving the total of the slot sizes after n commits is the length of the last ten of the first n packets; with the mutex free these are all the totals there have been |
| `LengthScan.WholeScan` | aesd-char-driver/aesd-circular-buffer.c:148-157 | in every polite interleaving the answer of a finished scan is the sum of sizes the slots had at moments during the scan, later for later slots |
| `LengthScan.ScanAnswers` | aesd-char-driver/main.c:203-212 | in every polite interleaving, however many commits overlap it, a scan that came to the slots of the first v of them after they were made and to the others' before answers with the length after those v; so one overlapped by no commit answers with the length; by one, with the length before or after it according to when it read the slot; by two, with none of the three lengths iff it read the first commit's slot before and the second's after, both changed their slot's size, and by different amounts |
| `LengthScan.TwoCommitScan` | aesd-char-driver/main.c:207-208 | the last of these, where the two commits go to consecutive slots of the ring |
| `Schedules.NeverStuck` | aesd-char-driver/main.c:65-117 | in every polite interleaving a thread that holds the mutex, scans, leaves `write_lock`, or may begin its next job can take a step, and one that waits can take a free mutex, unless it is refused for its command number |
| `Schedules.ScanCanMiss` | aesd-char-driver/main.c:207-208 | a run from the start whose scan answers with none of the lengths there were |
| `Schedules.LookupRestores` | aesd-char-driver/aesd-circular-buffer.c:66-93 | on any ring, in order or not, a lookup ends with the output position it began with |
| `Schedules.StrayUnlockBreaksRing` | aesd-char-driver/main.c:223-276 | a run from the start with one early failure that ends with all threads done, the mutex free and the ring invariant broken |
| `OneThread.PerformRead` | aesd-char-driver/main.c:54-118 | a read through the class gives result, position and device of the interleaved threads' read |
| `OneThread.PerformWrite` | aesd-char-driver/main.c:120-201 | the same of a write |
| `OneThread.PerformSeek` | aesd-char-driver/main.c:214-278 | the same of a seek command |
| `OneThread.Reposition` | aesd-char-driver/main.c:203-212 | the same of an `llseek` that goes by the length of the contents |
| `WriteLock.WriteLockFreedIff` | server/aesdsocket.c:148-182 | in every polite run of any threads, a `write_lock` that is held can still be freed iff its holder has not been interrupted and is not to write nothing |
| `Server.ServerSeesNewlineIff` | server/aesdsocket.c:135-147 | the reused buffer shows a newline iff the chunk's string has one, or the chunk has no NUL and the string behind it, in the buffer and past its end, has one |
| `Server.SeekRequestIff` | server/aesdsocket.c:122-151 | a buffer is taken for a seek command iff its first nineteen bytes are the characters of the command |
| `Server.ChunkDecides` | server/aesdsocket.c:134-190 | a chunk after which the 1024 bytes of the buffer spell the command ends the loop and is not handed on; any other is handed on, and ends the loop iff its string has a newline, or it has no NUL and the string behind it has one |
| `Server.LineIsUnlikeIff` | server/aesdsocket.c:151 | a line differs from the command at a position both have iff it does not begin with it |
| `Server.PlainTextNeverSeeks` | server/aesdsocket.c:134-151 | chunks that each differ so from the command never make the buffer spell it, whatever is left in it |
| `Server.LeftoversAreSilent` | server/aesdsocket.c:118-147 | short NUL-free chunks leave no newline behind, so that the leftovers never end a packet |
| `Server.LeftoversCanEndAPacket` | server/aesdsocket.c:135-147 | with a NUL in a chunk the loop can end although no string written has a newline |
| `Server.NoNewlineNoEnd` | server/aesdsocket.c:134-190 | as long as no newline arrives the loop hands on every chunk and goes on receiving, interruptions and empty answers included |
| `Server.FailureEndsReceiving` | server/aesdsocket.c:135-143 | a failed receive ends the loop, with the chunks before it handed on |
| `Server.CommandIsSeen` | server/aesdsocket.c:135-166 | a first chunk that spells the command ends the loop with nothing handed on |
| `Server.CleanPacketIsReceived` | server/aesdsocket.c:134-190 | on short NUL-free chunks, interruptions and empty answers in between, the loop ends exactly at the first chunk with a newline, having handed on every chunk up to it |
| `Server.HandleChunk` | server/aesdsocket.c:135-182 | a chunk overwrites the start of the buffer; unless the buffer then begins like a seek command the device performs exactly one write of the chunk, and the file moves only if the server saw the packet end |
| `Server.ReceiveAndWriteToFile` | server/aesdsocket.c:116-190 | the device goes through exactly the writes of the receive loop's specification, which is left for the same reason |
| `Server.ReadFileAndSend` | server/aesdsocket.c:79-114 | the socket receives the drain of the device from the file's position, all of it if every piece fits the send buffer with its terminator, otherwise up to the first piece that overruns it |
| `Server.OverrunIff` | server/aesdsocket.c:79-114 | the send buffer is overrun iff some piece of the drain does not fit it, and what was sent then are the pieces before the first such |
| `Server.FittingDrain` | server/aesdsocket.c:79-114 | if every packet fits the send buffer nothing overruns it, and what is sent is the flat contents from the position on, in no more writes than there are packets |
| `Server.DataProcessor` | server/aesdsocket.c:200-223 | the device goes through the connection's writes; the reply is its drain, from the start or from where a seek command leads, and completion is reported iff no seek command was served |
| `Server.Echo` | server/aesdsocket.c:200-223 | a connection that sends one clean packet to a device whose packets fit the send buffer gets back from the server the concatenation of the last ten packets, ending with its own; the device holds these and no tail; completion is reported |
| `Server.EchoOfPlainText` | server/aesdsocket.c:200-223 | the same by the client's bytes alone: chunks of which none begins like the command |
| `Server.SeekEcho` | server/aesdsocket.c:151-166 | a connection whose first chunk is a seek command gets the contents from the offset in the command on, or all of them if the command is not live or the offset too large; the device is unchanged and completion not reported |
| `Server.UnansweredIsServed` | server/aesdsocket.c:134-190 | a connection on which no newline arrives is sent nothing and reports nothing; its chunks are in the tail |
| `Server.FailureIsServed` | server/aesdsocket.c:135-223 | a connection whose receive fails is sent all packets and reports completion; its chunks stay in the tail |
| `ServerRuns.CleanPacketProgram` | server/aesdsocket.c:200-223 | the thread of a connection that sends one clean packet writes its chunks under `write_lock`, opens the device afresh and reads |
| `ServerRuns.FailedProgram` | server/aesdsocket.c:135-223 | so does one whose receive fails, with the chunks before |
| `ServerRuns.CommandProgram` | server/aesdsocket.c:151-166 | one whose first chunk is a seek command writes nothing, seeks to the command and offset, and reads |
| `ServerRuns.UnfinishedProgram` | server/aesdsocket.c:134-190 | one on which no newline has arrived only writes |
| `ServerRuns.ProgramWrites` | server/aesdsocket.c:134-182 | a connection's program writes exactly the chunks the receive loop hands on, all under `write_lock` |
| `ServerRuns.ServerMerge` | server/aesdsocket.c:116-190 | in every interleaving of connections the logged writes are, in `write_lock` order, a merge of what the receive loops hand on: a prefix of each client's chunks, all of them once its thread is through; in polite ones, with the mutex free, the slots hold the last ten packets of that merge |
| `ServerRuns.ServerIsPolite` | server/aesdsocket.c:151-166 | if no connection is sent a seek command, every interleaving of the server is polite |
| `ServerRuns.PacketsMixIff` | server/aesdsocket.c:148-182 | the slots hold the joined groups of the merge, and no packet is made of two clients' chunks iff nobody's write came directly after another client's chunk without a newline |
| `ServerRuns.UnmixedIff` | server/aesdsocket.c:148-182 | the same for every sequence of tagged chunks |
| `ServerRuns.PacketsCanMix` | server/aesdsocket.c:134-182 | a run in which one connection's line ends another's unfinished packet, and one slot holds both |
| `ServerRuns.WholePacketsNeverMix` | server/aesdsocket.c:148-182 | if every client's chunks hold a newline each slot holds the string of exactly one client's chunk, in `write_lock` order, and nothing is left pending |
| `ServerRuns.ServerWriteLockIff` | server/aesdsocket.c:148-182 | in every polite run of the server, a `write_lock` that is held can still be freed iff its holder has not been interrupted in its write |
| `ServerRuns.WriterCanStall` | server/aesdsocket.c:148-175 | a run of two connections in which one holds `write_lock`, is interrupted while the other has the driver's mutex for a read, and nothing frees `write_lock` afterwards |
| `Replies.ReplyIsContents` | server/aesdsocket.c:79-114 | in every polite interleaving, a thread that opens the device afresh and reads until a read comes back empty has read exactly the contents, if nobody committed meanwhile |
| `Replies.EchoInInterleaving` | server/aesdsocket.c:200-223 | in every polite interleaving of the server, a connection whose packet is the last one committed until its reply is through is sent the last ten packets, ending with the one it finished |
| `Replies.SeekReplyInInterleaving` | server/aesdsocket.c:151-166 | in every polite interleaving of the server, a connection's seek command is carried out as sent, is accepted iff it is live and the offset within it, and if nobody commits until the reply is through, the connection is sent the contents from there on, or all of them after a refusal |
| `Replies.DroppedSeekReply` | server/aesdsocket.c:151-166 | a connection whose seek command never got the mutex is sent all the contents |
| `Replies.EchoHappens` | server/aesdsocket.c:200-223 | a run in which a connection's line is echoed |
| `Seeks.SoughtLands` | aesd-char-driver/main.c:203-212 | in every polite interleaving a finished `llseek` answered with the position asked for iff that lies in 0 to the total its scan found, with the error otherwise, and that is where its file stands |
| `Seeks.SoughtThenRead` | aesd-char-driver/main.c:203-212 | if its scan saw every slot as it was in the end, and nobody commits until the thread's next read, the total is the length of the contents, and that read delivers the contents from the position asked for to the end of the entry, nothing after a refusal |
| `Reaper.StepKeepsInv` | server/aesdsocket.c:405-460 | every step of main and of every worker, the signal included at any time, keeps the fate of every list entry in order |
| `Reaper.JoinedAtMostOnce` | server/aesdsocket.c:411-414 | in every interleaving, shutdown included, no worker is joined twice, and only workers that raised their flag and exited are joined |
| `Reaper.LostIff` | server/aesdsocket.c:451-459 | in every interleaving a worker has raised its flag, has it down again and is unjoined iff the run contains main's test of it that saw the flag down, then its raising, then main's store, with no other step of main between |
| `Reaper.LostIsNeverJoined` | server/aesdsocket.c:451-460 | such a worker is never joined afterwards |
| `Reaper.JoinedIff` | server/aesdsocket.c:405-460 | when main has finished, a worker has been joined, once, iff it raised its flag before main's last look at it and did not lose it |
| `Reaper.FlagUpIsJoined` | server/aesdsocket.c:451-454 | in every run, when main finds a flag up in its pass its next step is the join of that worker |
| `Reaper.FlagUpIsReaped` | server/aesdsocket.c:451-460 | and once it has gone on to the next entry, the worker is joined, once, and its flag down, for good |
| `Reaper.PassJoinsIff` | server/aesdsocket.c:450-460 | in every run, between an accept and the next look at the signal main looks at every entry, and at the end a worker has been joined, once, iff it raised its flag before that look and did not lose it |
| `Reaper.MainCanFinish` | server/aesdsocket.c:405-432 | every run in which main has not given up can go on to one in which it has finished |
| `Reaper.SilentIsNeverJoined` | server/aesdsocket.c:211-223 | a worker that served a seek command is never joined |
| `Reaper.CompletionCanBeLost` | server/aesdsocket.c:451-460 | such a run: the first worker finishes between main's test and main's store |

## Left out

- Driver.OwnershipOverRuns: is about entry buffers and scratch blocks; buffers that live only during one call are values, not heap blocks. Runs in which an allocation fails are not among its runs.
- Server.DataProcessor: errors and short counts on writes to the device and to the socket are left out, and so is what follows once the send buffer has been overrun.
- Interleaving.Serialisable: calls that fail on memory or copy faults do not take part, and a write of no bytes never gets past its wait; a guarded call fails only by interruption.
- Driver.TraceRefinement: its runs are of writes of at least one byte; what a write of none does is stated by `Device.Write`.
- CriticalSection.StartsOnCourse: the steps are coarser than single accesses where nobody outside the mutex can see the difference, as the file's first lines say.
- ServerRuns.ServerMerge: a connection whose write fails other than by interruption keeps `write_lock` and goes on receiving in the source; such failures are left out.
- `size_t` overflow of sums of sizes: the blocks summed are disjoint pieces of one address space.
- Parsing of the seek command's text: command and offset are what a parameter reads off the buffer.
- `aesd_ioctl` dispatch, `aesd_open`, `aesd_release`, module set-up and clean-up: no state beyond the initial device.
- The timer and its timestamps: the server starts it only when `USE_AESD_CHAR_DEVICE` is 0, and defines it as 1. Daemonising, socket set-up, address formatting, closing of sockets and freeing of the list.
- Debug output and logging.
- `finder-app`, `examples` and the copied system headers.
