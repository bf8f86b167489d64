# Verified models of boot loader, virtqueue, CryptoCard and memory-move code

This project models the algorithmic core of five pieces of C code and proves what they promise, in Dafny. `dafny verify dfyconfig.toml` checks all of it.

| file | component |
|---|---|
| `IsoWalk.dfy` | the boot loader's iterative search of an ISO 9660 volume, with three hand-kept stacks |
| `IsoWriter.dfy` | directory trees as bytes on a volume, and the search on a volume so written |
| `BootMap.dfy` | the two zIPL segment loaders over chained tables of block pointers, and cylinder/head/sector arithmetic |
| `BootWriter.dfy` | lists of extents as bytes in tables of block pointers, and the loaders on disks so written |
| `ReadMany.dfy` | splitting a read into READ(10) commands, and its agreement with the virtio-blk back end |
| `VRing.dfy`, `Requests.dfy` | the split virtqueue: descriptor chains, polling, and requests one after another |
| `Descriptors.dfy` | who owns and who writes a descriptor over runs of requests |
| `NetReceive.dfy` | receiving packets with 64 recycled buffers beside an arbitrary device |
| `Cipher.dfy` | the card's cipher in C arithmetic on signed characters |
| `CardProtocol.dfy` | the CryptoCard driver as a state machine: any number of callers, one lock, one register file, interrupts |
| `CardCalls.dfy` | every job, result and key traced back to the call of the user it is for |
| `KeyRace.dfy` | which key a call uses when SET_KEY runs beside it |
| `CardDriver.dfy` | the driver's transfer routines and ioctl as they run with the lock held |
| `Crypter.dfy` | the user library that splits long buffers into chunks |
| `VmaMove.dfy` | moving a memory area to the first hole that fits |
| `OptionList.dfy` | the per-process option list |
| `Common.dfy`, `Disk.dfy` | machine integers, memory and block devices |

## How the models work

- The ISO walk is proved against a recursive search of a directory tree. `Outlook` says what the rest of the walk will find from the current stacks; every turn of the loop keeps it. The volume may be cyclic: the depth limit alone ends the walk.
- Both loaders first decode each block into a table of what its entries make the loader do (`EntryAt`), then follow the tables. `Held` relates a disk to the chain it holds, `Flatten` is the list of extents that the chain means.
- What the loaders read is tied to bytes by writers that do not use the readers: `IsoWriter` writes directory records and sectors, `EckdWriter` and `ScsiWriter` write tables of pointers, and `NetReceive.HeaderBytes` writes packet headers. What was written is what is found.
- `NetReceive` and `CardProtocol` are state machines over single reads and writes of what is shared; copying a text counts as one, and so does recv's look at the used ring (index, length and id), which the device does not change meanwhile. Counters that do not wrap stand behind the 16-bit indices.
- In `CardProtocol` each routine is the list of its register accesses. `Outcome` executes the rest of the lock holder's list, letting the device work only where the caller waits, and yields nothing if an access comes at a moment when it must not. The invariant is that this outcome is the cipher of the caller's own text.
- In `KeyRace` every component of a key carries the number of the SET_KEY that wrote it. Two runs with the same order of steps and other keys carry the same numbers, so the numbers decide what holds for all values of the keys.
- The cipher of `gen.c` is the function that the device computes.

## Where the code differs from what it sets out to do

- `virtio_load_direct` passes block numbers through a 32-bit signed integer (`ScsiLoader.TruncationHarmless`, `ScsiLoader.ListTruncation`).
- `virtio_run` ignores the result of `vring_wait_reply`, so a late reply is taken for the next one (`Requests.StaleReply`; `Requests.SuccessMeansDone` says exactly when not). Then a descriptor that the device owns can be written (`Descriptors.OwnedUntouched` says exactly when not), and repeated timeouts run past the table (`Descriptors.TimeoutsOverrun`).
- A sector count that is not positive still transfers the maximum (`ReadMany.CountDecides`).
- `decryptChar` fails for a second key component above 128, where a signed character wraps (`Cipher.RoundTrip`).
- The comment on `decrypt` promises decryption; above 32768 characters the code encrypts again (`Crypter.BufferReturns`).
- A key set while a call reads it can give the call a key that nobody set (`KeyRace.TornKey`, `KeyRace.HalfSetKey`; `KeyRace.WholeKey` says exactly when not).
- The transfer routines keep the length of a text in 32 bits (`CardProtocol.WholeText`).
- A store that is not a number stores the number scanned before, perhaps by another process (`OptionList.BorrowedExample`).

## Model

| member | source | states |
|---|---|---|
| `IsoWalk.IsoGetFileSize` | Assignment_3/Assignment-3 que/qemu-static/pc-bios/s390-ccw/bootmap.c:532-604 | for every volume whose root holds a well-formed directory tree, the walk ends and returns the data length of the first record in depth-first preorder, at most eight levels deep, whose extent is the one asked for, and 0 if there is none |
| `IsoWalk.SearchIsFirst` | Assignment_3/Assignment-3 que/qemu-static/pc-bios/s390-ccw/bootmap.c:545-603 | the recursive search that the loop's invariant speaks of finds the first match of the preorder, or nothing exactly when no record matches |
| `IsoWalk.Visit` | Assignment_3/Assignment-3 que/qemu-static/pc-bios/s390-ccw/bootmap.c:567-593 | one turn of the loop reports the match or keeps what the rest of the walk will find, and comes closer to the end |
| `IsoWalk.Resume` | Assignment_3/Assignment-3 que/qemu-static/pc-bios/s390-ccw/bootmap.c:595-600 | leaving an exhausted directory resumes the enclosing one where it was suspended, and leaving the root means that nothing is left |
| `IsoWalk.OutlookKept` | Assignment_3/Assignment-3 que/qemu-static/pc-bios/s390-ccw/bootmap.c:573-593 | stepping over a record that does not match, or entering its directory, does not change what will be found |
| `IsoWalk.Stacks.SkipSelfAndParent` | Assignment_3/Assignment-3 que/qemu-static/pc-bios/s390-ccw/bootmap.c:551-565 | the first visit of a directory leaves the cursor at its first proper record with the right number of bytes left |
| `IsoWalk.Stacks.EndSector` | Assignment_3/Assignment-3 que/qemu-static/pc-bios/s390-ccw/bootmap.c:567-571 | padding or the end of a sector moves the cursor to the next sector of the same directory |
| `IsoWalk.Stacks.SkipRecord` | Assignment_3/Assignment-3 que/qemu-static/pc-bios/s390-ccw/bootmap.c:573-593 | a record that is not entered is stepped over |
| `IsoWalk.Stacks.EnterDirectory` | Assignment_3/Assignment-3 que/qemu-static/pc-bios/s390-ccw/bootmap.c:578-591 | the enclosing directory is suspended past the record, and the stacks describe the new one |
| `IsoWriter.SizeOnVolume` | Assignment_3/Assignment-3 que/qemu-static/pc-bios/s390-ccw/bootmap.c:532-604 | on every volume written from a tree of files and directories, byte by byte after ECMA-119, the walk returns the size of the first entry of that tree in depth-first preorder with the extent asked for, seven levels below the root at most, and 0 if there is none |
| `IsoWriter.FolderHeld` | Assignment_3/Assignment-3 que/qemu-static/pc-bios/s390-ccw/bootmap.h:360-371 | a volume so written holds, for the walk, the tree it was written from: names, dates and other flags do not matter, flag 0x02 alone makes a directory |
| `IsoWriter.RecordBack` | Assignment_3/Assignment-3 que/qemu-static/pc-bios/s390-ccw/bootmap.h:360-371 | the record read at an offset has the length, extent, size and flags written there, the numbers recorded in both byte orders |
| `IsoWriter.RootBack` | Assignment_3/Assignment-3 que/qemu-static/pc-bios/s390-ccw/bootmap.h:380-408 | the root directory is found through the record at byte 156 of sector 16 |
| `IsoWriter.PreorderListing` | Assignment_3/Assignment-3 que/qemu-static/pc-bios/s390-ccw/bootmap.c:545-603 | the preorder of the records is the listing of the tree written |
| `BlockChain.LoadTable` | Assignment_3/Assignment-3 que/qemu-static/pc-bios/s390-ccw/bootmap.c:149-187 | the data extents of one table are stored back to back in order, up to the entry that ends the table |
| `BlockChain.LoadList` | Assignment_3/Assignment-3 que/qemu-static/pc-bios/s390-ccw/bootmap.c:137-190 | continuation pointers are followed and load nothing; what is loaded and what is left make up the list |
| `BlockChain.LoadLists` | Assignment_3/Assignment-3 que/qemu-static/pc-bios/s390-ccw/bootmap.c:218-220 | calling the segment routine until it reports the null block number loads the whole list |
| `BlockChain.HeldUnique` | Assignment_3/Assignment-3 que/qemu-static/pc-bios/s390-ccw/bootmap.c:137-190 | what a disk holds from a block on is one list only, so the loaders' result is determined |
| `EckdLoader.LoadEckdList` | Assignment_3/Assignment-3 que/qemu-static/pc-bios/s390-ccw/bootmap.c:137-220 | for every finite chain of tables, of any length, the memory is the concatenation of all its extents at contiguous addresses, and the loader goes on exactly when the chain ends in a null pointer |
| `EckdLoader.NothingFollowsContinuation` | Assignment_3/Assignment-3 que/qemu-static/pc-bios/s390-ccw/bootmap.c:166-177 | the entry after a continuation pointer is never data and never the end of the list |
| `EckdWriter.LoadWritten` | Assignment_3/Assignment-3 que/qemu-static/pc-bios/s390-ccw/bootmap.c:137-220 | for every list of extents written to tables byte by byte, over any number of blocks linked by continuation pointers or last slots: every extent of n blocks is loaded whole, in order and back to back, and the loader goes on exactly if no table ends in a pointer of a wrong size or address |
| `EckdWriter.PointerMeans` | Assignment_3/Assignment-3 que/qemu-static/pc-bios/s390-ccw/bootmap.c:149-187 | what each pointer makes the loader do, by the cylinder, head, sector, size and number of blocks written in it and what follows it |
| `EckdWriter.AddressBack` | Assignment_3/Assignment-3 que/qemu-static/pc-bios/s390-ccw/bootmap.c:105-117 | the cylinder, head and sector of a block, by division, lead back to the block |
| `EckdWriter.WrittenLaidOut` | Assignment_3/Assignment-3 que/qemu-static/pc-bios/s390-ccw/bootmap.h:35-47 | each table written is decoded to exactly its extents and its ending |
| `ScsiLoader.LoadScsiList` | Assignment_3/Assignment-3 que/qemu-static/pc-bios/s390-ccw/bootmap.c:371-422 | the same for the SCSI loader: the memory is the concatenation of all extents of the chain, and the loader succeeds exactly on complete chains |
| `ScsiWriter.LoadWritten` | Assignment_3/Assignment-3 que/qemu-static/pc-bios/s390-ccw/bootmap.c:371-422 | the same for SCSI tables with data below block 2^31: every extent of n blocks is loaded whole, in order and back to back, and the loader goes on exactly if no table ends in a bad pointer |
| `ScsiWriter.PointerMeans` | Assignment_3/Assignment-3 que/qemu-static/pc-bios/s390-ccw/bootmap.c:393-420 | what each pointer means by the block number, size and number of blocks written in it: in the format, and for the loader up to block 2^31 |
| `ScsiWriter.WrittenLaidOut` | Assignment_3/Assignment-3 que/qemu-static/pc-bios/s390-ccw/bootmap.h:22-27 | each table written is decoded to exactly its extents and its ending, in the format for all block numbers |
| `ScsiLoader.TruncationHarmless` | Assignment_3/Assignment-3 que/qemu-static/pc-bios/s390-ccw/virtio-blkdev.c:63-84 | the loader does what a pointer says if and only if the pointer is not data, or its block number survives a 32-bit signed integer, or neither the stored nor the truncated blocks exist |
| `ScsiLoader.TruncationExample` | Assignment_3/Assignment-3 que/qemu-static/pc-bios/s390-ccw/virtio-blkdev.c:67-67 | a concrete pointer to a block that does not exist makes the loader load another block |
| `ScsiLoader.ListTruncation` | Assignment_3/Assignment-3 que/qemu-static/pc-bios/s390-ccw/bootmap.c:371-422 | for whole lists: where the disk holds a list as the format means it, the loader finds the same list if and only if the truncation is harmless for every entry visited |
| `Eckd.AddressRecovered` | Assignment_3/Assignment-3 que/qemu-static/pc-bios/s390-ccw/bootmap.c:105-117 | inside the geometry, cylinder, head and sector are recovered from the block number by division and remainder |
| `Eckd.SplitRecovered` | Assignment_3/Assignment-3 que/qemu-static/pc-bios/s390-ccw/bootmap.c:109-111 | the stored head and cylinder fields are recovered from the address they are split into |
| `Eckd.BlockOrder` | Assignment_3/Assignment-3 que/qemu-static/pc-bios/s390-ccw/bootmap.c:105-117 | block numbers increase strictly in cylinder, head, sector order |
| `Eckd.BlockInjective` | Assignment_3/Assignment-3 que/qemu-static/pc-bios/s390-ccw/bootmap.c:105-127 | two stored addresses inside the geometry have the same block number if and only if all their fields agree |
| `Eckd.NullIsAllZero` | Assignment_3/Assignment-3 que/qemu-static/pc-bios/s390-ccw/bootmap.c:105-117 | the all-zero pointer is the only one with the null block number if and only if the geometry has heads and sectors |
| `ReadMany.TransferLimit` | Assignment_3/Assignment-3 que/qemu-static/pc-bios/s390-ccw/virtio-scsi.c:404-411 | the limit after setup is the least of 2048 and the non-zero ones of the configured and the reported limit |
| `ReadMany.CommandsTile` | Assignment_3/Assignment-3 que/qemu-static/pc-bios/s390-ccw/virtio-scsi.c:262-284 | the commands tile the requested range in order, without gap or overlap, each with a buffer of its size, if and only if the last of them starts at an address that READ(10) can express and no buffer size wraps in 32 bits |
| `ReadMany.CommandsShort` | Assignment_3/Assignment-3 que/qemu-static/pc-bios/s390-ccw/virtio-scsi.c:272-275 | every command transfers at least one block and at most the limit |
| `ReadMany.TilesExecute` | Assignment_3/Assignment-3 que/qemu-static/pc-bios/s390-ccw/virtio-scsi.c:271-281 | commands that tile a range have the effect of one read of the range |
| `ReadMany.CommandsRead` | Assignment_3/Assignment-3 que/qemu-static/pc-bios/s390-ccw/virtio-scsi.c:262-284 | the chunked read is one read of the whole range |
| `ReadMany.ScsiReadMany` | Assignment_3/Assignment-3 que/qemu-static/pc-bios/s390-ccw/virtio-scsi.c:262-284 | the loop ends, having zeroed each buffer, executed exactly those commands up to the first that fails, and stepped the address by the 32-bit size; a count that is not positive still issues one command of the limit |
| `ReadMany.CountDecides` | Assignment_3/Assignment-3 que/qemu-static/pc-bios/s390-ccw/virtio-scsi.c:271-281 | for every sector, factor, limit and address, the chunked read does what was asked for, on every memory, if and only if the count is positive |
| `BlkRequest.SendRead` | Assignment_3/Assignment-3 que/qemu-static/pc-bios/s390-ccw/virtio-blkdev.c:23-37 | the three buffers make one chain, and a device following it finds header, data and status buffer with their lengths and flags |
| `BlkRequest.ServeReads` | Assignment_3/Assignment-3 que/qemu-static/pc-bios/s390-ccw/virtio-blkdev.c:23-37 | the header that the driver writes, read back by the device, names the sector, so serving the three buffers does the whole read |
| `BlkRequest.BlkRead` | Assignment_3/Assignment-3 que/qemu-static/pc-bios/s390-ccw/virtio-blkdev.c:16-47 | a device that follows the published chain and decodes the header from memory does the whole read of the run of blocks, counted in its own sectors |
| `ReadMany.BackendsAgree` | Assignment_3/Assignment-3 que/qemu-static/pc-bios/s390-ccw/virtio-blkdev.c:16-61 | both back ends store the same bytes for the same run of blocks, whatever the number of device sectors to a block on either side |
| `VRing.FollowLaidOut` | Assignment_3/Assignment-3 que/qemu-static/pc-bios/s390-ccw/virtio.c:234-242 | a device that follows the descriptors from the head visits exactly the buffers of the commands, in order, with lengths and flags, the driver's own flag removed |
| `VRing.VRing.Send` | Assignment_3/Assignment-3 que/qemu-static/pc-bios/s390-ccw/virtio.c:234-242 | publishing a chain advances the available index by one, takes one slot, touches only its own descriptors, and a device following that slot visits exactly the chain |
| `VRing.VRing.SendLoop` | Assignment_3/Assignment-3 que/qemu-static/pc-bios/s390-ccw/virtio.c:237-242 | the loop writes one descriptor a command, each naming the next, and publishes only with the last |
| `VRing.VRing.SendBuf` | Assignment_3/Assignment-3 que/qemu-static/pc-bios/s390-ccw/virtio.c:159-177 | the whole new state of the ring after one buffer |
| `VRing.VRing.Poll` | Assignment_3/Assignment-3 que/qemu-static/pc-bios/s390-ccw/virtio.c:192-205 | an update is reported if and only if the device's index differs from the last one seen; then the free descriptors start at 0 again |
| `VRing.FlagBits` | Assignment_3/Assignment-3 que/qemu-static/pc-bios/s390-ccw/virtio.c:162-174 | setting and clearing the driver's own flag bit disturbs no other flag |
| `Requests.PollAll` | Assignment_3/Assignment-3 que/qemu-static/pc-bios/s390-ccw/virtio.c:222-224 | every queue is polled once and the sum is positive exactly when some queue moved |
| `Requests.OneReplySeen` | Assignment_3/Assignment-3 que/qemu-static/pc-bios/s390-ccw/virtio.c:192-205 | a reply is always seen by the 16-bit comparison |
| `Requests.WaitReply` | Assignment_3/Assignment-3 que/qemu-static/pc-bios/s390-ccw/virtio.c:214-232 | the wait polls every queue in each round and succeeds at the first round in which some queue has moved, for any number of requests outstanding, completed by the device in any order |
| `Requests.SuccessMeansDone` | Assignment_3/Assignment-3 que/qemu-static/pc-bios/s390-ccw/virtio.c:234-244 | whatever the device does, a successful wait means that the request just published is complete, if and only if nothing was outstanding or unseen on any queue before the call |
| `Requests.IdleWait` | Assignment_3/Assignment-3 que/qemu-static/pc-bios/s390-ccw/virtio.c:214-244 | on idle queues the wait succeeds if and only if the request is completed within its rounds; then the queue is quiet, otherwise the device still has the request |
| `Requests.VirtioRun` | Assignment_3/Assignment-3 que/qemu-static/pc-bios/s390-ccw/virtio.c:234-249 | the call publishes and waits, whatever is outstanding; on idle queues the queue is quiet after it if and only if the device completed the request in time |
| `Requests.AnsweredRuns` | Assignment_3/Assignment-3 que/qemu-static/pc-bios/s390-ccw/virtio.c:214-249 | in any run of requests the queue is quiet before, between and after them (indices agree, next descriptor 0, nothing owned by the device) if and only if every request is completed while it is waited for |
| `Requests.AllAnsweredIs` | Assignment_3/Assignment-3 que/qemu-static/pc-bios/s390-ccw/virtio.c:214-249 | that is, request number j of the run is completed in one of the rounds of its own wait, for every j |
| `Requests.StaleReply` | Assignment_3/Assignment-3 que/qemu-static/pc-bios/s390-ccw/virtio.c:244-244 | from every quiet queue: after a request of n descriptors that timed out, the wait for the next one succeeds on the late reply while the device still has that request; a third request writes descriptors of it if and only if it is longer than n |
| `Descriptors.OwnedUntouched` | Assignment_3/Assignment-3 que/qemu-static/pc-bios/s390-ccw/virtio.c:159-177 | over runs of any length, for a given course of the waits: no descriptor that the device owns is written or cleared, whatever the positive sizes of the requests, if and only if no call ends with an update while the device has a request left (for the last call: the request with descriptor 0) |
| `Descriptors.CleanAlike` | Assignment_3/Assignment-3 que/qemu-static/pc-bios/s390-ccw/virtio.c:214-249 | the course of a run does not depend on the sizes of the requests |
| `Descriptors.WaitLessens` | Assignment_3/Assignment-3 que/qemu-static/pc-bios/s390-ccw/virtio.c:192-232 | during a wait the device only gives requests back, and the next free descriptor stays or becomes 0 |
| `Descriptors.TimeoutsOverrun` | Assignment_3/Assignment-3 que/qemu-static/pc-bios/s390-ccw/virtio.c:166-171 | while no update is seen, no request writes beyond the descriptor table if and only if the table has room for all requests together |
| `Descriptors.RunRing` | Assignment_3/Assignment-3 que/qemu-static/pc-bios/s390-ccw/virtio.c:234-249 | on the ring itself, whatever earlier calls have left outstanding: it ends where the protocol says; only the request's own descriptors are written, and descriptor 0 on success; until then the published chain is intact |
| `Descriptors.OneQueueWait` | Assignment_3/Assignment-3 que/qemu-static/pc-bios/s390-ccw/virtio.c:214-232 | polling one ring is the general wait on one queue |
| `NetReceive.StepKeeps` | Assignment_3/Assignment-3 que/qemu-static/pc-bios/s390-ccw/virtio-net.c:92-135 | every step of recv and every step of the device keeps the invariant |
| `NetReceive.RunKeeps` | Assignment_3/Assignment-3 que/qemu-static/pc-bios/s390-ccw/virtio-net.c:92-135 | so does every interleaving of any length |
| `NetReceive.InitialInv` | Assignment_3/Assignment-3 que/qemu-static/pc-bios/s390-ccw/virtio-net.c:59-65 | the queue after initialisation satisfies it |
| `NetReceive.InvNothingOverwritten` | Assignment_3/Assignment-3 que/qemu-static/pc-bios/s390-ccw/virtio-net.c:127-128 | neither an available slot the device has yet to read nor a used slot recv has yet to read is ever written, across wrap-around |
| `NetReceive.EveryRun` | Assignment_3/Assignment-3 que/qemu-static/pc-bios/s390-ccw/virtio-net.c:92-135 | in every run each of the 64 buffers is in exactly one place; outside recv the available index is the read index plus 64 modulo 65536; recv sees an empty queue exactly when nothing is unread; packets are delivered in order, each once |
| `NetReceive.FramesDelivered` | Assignment_3/Assignment-3 que/qemu-static/pc-bios/s390-ccw/virtio-net.c:92-135 | in every run the i-th call of recv that finds a packet delivers the i-th frame that the device returned, without its header, cut to the limit of that call |
| `NetReceive.ReceivedFrame` | Assignment_3/Assignment-3 que/qemu-static/pc-bios/s390-ccw/virtio-net.c:32-40 | for every header, written field by field, every frame and every limit, what recv makes of the packet is the frame cut to the limit |
| `NetReceive.RecvIsSteps` | Assignment_3/Assignment-3 que/qemu-static/pc-bios/s390-ccw/virtio-net.c:92-135 | one call delivers the oldest packet not yet delivered, cut to the caller's limit, and recycles its buffer |
| `NetReceive.RecvFinds` | Assignment_3/Assignment-3 que/qemu-static/pc-bios/s390-ccw/virtio-net.c:99-109 | when the indices differ, the entry under the read index names a buffer of the driver, with a length that fits it, holding the oldest packet not yet delivered |
| `NetReceive.ReceiveQueue.Recv` | Assignment_3/Assignment-3 que/qemu-static/pc-bios/s390-ccw/virtio-net.c:92-135 | the routine on the arrays of the ring: nothing changes when the queue is empty; otherwise the packet, the recycled slot and both indices |
| `NetReceive.RingSizeDivides` | Assignment_3/Assignment-3 que/qemu-static/pc-bios/s390-ccw/virtio-net.c:103-108 | a wrapping 16-bit index picks the right slot for ever if and only if the ring size divides 65536 |
| `NetReceive.IndicesTellApart` | Assignment_3/Assignment-3 que/qemu-static/pc-bios/s390-ccw/virtio-net.c:99-101 | 16-bit equality of the two indices means equality of the counts behind them |
| `NetInit.PostBuffers` | Assignment_3/Assignment-3 que/qemu-static/pc-bios/s390-ccw/virtio-net.c:59-65 | after initialisation, buffer i has descriptor i and available slot i, for all 64, which is the state the receive protocol starts from |
| `Cipher.EncryptByteShifts` | Assignment_3/Assignment-3 que/A3_test_cases/all_test_cases_template/eval-test/common/gen.c:42-48 | encrypting a character is a shift round its alphabet by both key components; case is kept and other characters stay |
| `Cipher.DecryptByteShifts` | Assignment_3/Assignment-3 que/A3_test_cases/all_test_cases_template/eval-test/common/gen.c:50-60 | decrypting is the shift back, off by 22 places where the first subtraction wraps in a signed character |
| `Cipher.EncryptShifts` | Assignment_3/Assignment-3 que/A3_test_cases/all_test_cases_template/eval-test/common/gen.c:98-110 | encrypting a message shifts every letter by the sum of the key |
| `Cipher.EncryptTwice` | Assignment_3/Assignment-3 que/A3_test_cases/all_test_cases_template/eval-test/common/gen.c:98-110 | two encryptions are one shift by the sum of all key components |
| `Cipher.ShiftedEqual` | Assignment_3/Assignment-3 que/A3_test_cases/all_test_cases_template/eval-test/common/gen.c:98-110 | two shifts of a message agree if and only if they are equal modulo 26 or the message has no letters |
| `Cipher.MessageReturns` | Assignment_3/Assignment-3 que/A3_test_cases/all_test_cases_template/eval-test/common/gen.c:98-123 | a message survives encryption and decryption if and only if no letter of its cipher text lies more than 128 below the second key component |
| `Cipher.RoundTrip` | Assignment_3/Assignment-3 que/A3_test_cases/all_test_cases_template/eval-test/common/gen.c:42-60 | every message survives under a key if and only if the second component is at most 128 |
| `Cipher.EncryptMessage` | Assignment_3/Assignment-3 que/A3_test_cases/all_test_cases_template/eval-test/common/gen.c:98-110 | the loop leaves the encrypted message in the buffer and the rest of the buffer alone |
| `Cipher.DecryptMessage` | Assignment_3/Assignment-3 que/A3_test_cases/all_test_cases_template/eval-test/common/gen.c:112-123 | the loop leaves the decrypted message in the buffer and the rest of the buffer alone |
| `CardProtocol.RoutineWorks` | Assignment_3/drivers/cryptocard.c:176-340 | each of the eight routines, by itself, starts the device on the caller's own job, waits for it and copies back its result, for every text that fits (by DMA every text), its length kept in 32 bits: all modes agree |
| `CardProtocol.WholeText` | Assignment_3/drivers/cryptocard.c:219-219 | with the length kept in 32 bits, a text is ciphered whole in either direction under every key if and only if no letter lies beyond that length |
| `CardProtocol.DecMmPollWorks` | Assignment_3/drivers/cryptocard.c:278-292 | so does the one that writes its registers in another order |
| `CardProtocol.ProgramWorks` | Assignment_3/drivers/cryptocard.c:436-475 | so does the whole locked section of a call, with the key it has read |
| `CardProtocol.HolderWaits` | Assignment_3/drivers/cryptocard.c:131-142 | while a job runs or its interrupt is pending, the holder of the lock is waiting for just that |
| `CardProtocol.DeviceKeepsOutcome` | Assignment_3/drivers/cryptocard.c:131-142 | the device finishing and the interrupt handler running, at any moment, do not change where the holder of the lock is going |
| `CardProtocol.InstrKeeps` | Assignment_3/drivers/cryptocard.c:176-340 | each instruction brings its caller further on the same way, and every job started is the caller's own |
| `CardProtocol.StepKeeps` | Assignment_3/drivers/cryptocard.c:405-542 | every step of every caller, of the device, of the interrupt handler and of the unlocked configuration calls keeps the invariant |
| `CardProtocol.EveryRun` | Assignment_3/drivers/cryptocard.c:405-542 | in every interleaving of any number of callers and handles: one caller inside the lock; every job started has the key, direction and text of the call that started it; every finished call got the cipher of its own text, as far as 32 bits count it, under the key it read; the flag is set only for a caller that waits or was just released; none is released early, none sleeps without a wake-up on its way; no register is written while the device works |
| `CardCalls.FinishedCalls` | Assignment_3/drivers/cryptocard.c:436-527 | in every run every finished call is one that a user made, with that handle, direction and text, none finishes twice, and the user got exactly the encryption or decryption asked for |
| `CardCalls.StartedJobs` | Assignment_3/drivers/cryptocard.c:425-485 | in every run every job started is that of a call a user made, goes by DMA or MMIO and with or without interrupt exactly as the last settings of its handle said when the call read them |
| `CardCalls.Settings` | Assignment_3/drivers/cryptocard.c:425-435 | a handle has the interrupt and DMA settings last made on it |
| `CardCalls.AskedKeys` | Assignment_3/drivers/cryptocard.c:418-424 | the keys recorded for a handle are those of the SET_KEY calls on it, in order |
| `CardProtocol.HolderCanFinish` | Assignment_3/drivers/cryptocard.c:436-475 | from every reachable state there is a way for the holder of the lock to finish with the result of its own job: nobody is stuck inside |
| `CardProtocol.LockCanBeReleased` | Assignment_3/drivers/cryptocard.c:437-475 | likewise while the holder still reads its configuration, if its text fits the way it will go |
| `KeyRace.WholeKey` | Assignment_3/drivers/cryptocard.c:418-422 | in every run, with any number of SET_KEYs at once: for an order of steps the key that a call uses is one set whole, whatever the values of the keys, if and only if the last SET_KEY to write the first component before the call read it is the last to write the second before the call read that |
| `KeyRace.WholeKeyInOrder` | Assignment_3/drivers/cryptocard.c:418-439 | when SET_KEYs of the handle come one at a time, if and only if between the two reads as many of them complete as were between their writes at the first read, that is one or none |
| `KeyRace.KeyReads` | Assignment_3/drivers/cryptocard.c:438-439 | which SET_KEYs the two components are from, by the second writes between the two reads |
| `KeyRace.UndisturbedKey` | Assignment_3/drivers/cryptocard.c:438-439 | in particular the key is one set whole if no SET_KEY is between its writes at the first read and none completes before the second |
| `KeyRace.RunLike` | Assignment_3/drivers/cryptocard.c:405-542 | the order of steps of a run does not depend on the values of the keys |
| `KeyRace.StepKeys` | Assignment_3/drivers/cryptocard.c:418-422 | every step keeps the record of which SET_KEY each component of a handle's and a call's key is from |
| `KeyRace.HalfSetKey` | Assignment_3/drivers/cryptocard.c:418-422 | a run in which a call uses the first component of a key half set and the second of the key before |
| `KeyRace.CompletedKey` | Assignment_3/drivers/cryptocard.c:418-422 | a run in which SET_KEY is between its writes at the first read and the call still uses the whole new key |
| `KeyRace.OneKey` | Assignment_3/drivers/cryptocard.c:436-475 | on a handle whose key is not set in the run, every finished call has used its key |
| `KeyRace.TornKey` | Assignment_3/drivers/cryptocard.c:418-422 | a run in which SET_KEY does all its work between the two reads, and the call uses a key that nobody set |
| `CardDriver.Card.EncryptionMmioPoll` | Assignment_3/drivers/cryptocard.c:262-276 | the buffer is encrypted under the key register and the card is idle again |
| `CardDriver.Card.DecryptionMmioPoll` | Assignment_3/drivers/cryptocard.c:278-292 | the buffer is decrypted under the key register and the card is idle again |
| `CardDriver.Card.EncryptionMmioInterrupt` | Assignment_3/drivers/cryptocard.c:176-191 | as encryption_mmio_poll, with the flag clear again |
| `CardDriver.Card.DecryptionMmioInterrupt` | Assignment_3/drivers/cryptocard.c:193-209 | as decryption_mmio_poll, with the flag clear again |
| `CardDriver.Card.EncryptionDmaPoll` | Assignment_3/drivers/cryptocard.c:294-316 | as encryption_mmio_poll, through a coherent buffer |
| `CardDriver.Card.DecryptionDmaPoll` | Assignment_3/drivers/cryptocard.c:318-340 | as decryption_mmio_poll, through a coherent buffer |
| `CardDriver.Card.EncryptionDmaInterrupt` | Assignment_3/drivers/cryptocard.c:211-234 | as encryption_dma_poll, with the flag clear again |
| `CardDriver.Card.DecryptionDmaInterrupt` | Assignment_3/drivers/cryptocard.c:236-259 | as decryption_dma_poll, with the flag clear again |
| `CardDriver.Card.AwaitMm` | Assignment_3/drivers/cryptocard.c:187-189 | sleeping on the flag ends, and only after the job is done, however long it takes |
| `CardDriver.Card.PollMm` | Assignment_3/drivers/cryptocard.c:273-274 | spinning on the busy bit ends, and only after the job is done |
| `CardDriver.Card.AwaitDma` | Assignment_3/drivers/cryptocard.c:229-231 | the same for DMA |
| `CardDriver.Card.PollDma` | Assignment_3/drivers/cryptocard.c:312-313 | the same for DMA |
| `CardDriver.Card.WorkMm` | Assignment_3/drivers/cryptocard.c:273-274 | what the device does during one look at the status register is the protocol's device step, or a tick of its clock |
| `CardDriver.Card.Ioctl` | Assignment_3/drivers/cryptocard.c:436-475 | the part of the user's memory that the call names is ciphered under the handle's key and the rest stays, whatever the mode, and the registers show that the transfer went the way configured; this is what the protocol's list of register accesses comes to from the same registers |
| `Crypter.PiecesTile` | Assignment_3/src/crypter.c:57-100 | the ioctls cover exactly the buffer, in order, each of at most a chunk, if and only if the number of chunks fits an int; one ioctl for a short buffer; only an empty buffer gives an empty ioctl |
| `Crypter.WholeChunks` | Assignment_3/src/crypter.c:82-89 | the loop has ciphered exactly the chunks it has passed |
| `Crypter.EncryptBuffer` | Assignment_3/src/crypter.c:57-100 | chunked encryption is encryption of the whole buffer, whatever the mode, with exactly those ioctls |
| `Crypter.DecryptBuffer` | Assignment_3/src/crypter.c:110-154 | up to 32768 characters are decrypted; a longer buffer is encrypted once more |
| `Crypter.BufferReturns` | Assignment_3/src/crypter.c:110-154 | which buffers come back after encrypt and decrypt: up to 32768 characters exactly those whose letters survive, longer ones exactly if twice the key is a multiple of 26 or there are no letters |
| `Crypter.ShortBufferReturns` | Assignment_3/src/crypter.c:110-125 | every buffer of up to 32768 characters comes back under every key whose second component is at most 128 |
| `Crypter.ChunksAmongOthers` | Assignment_3/src/crypter.c:57-100 | in every run of the protocol in which the handle's key is not set, with any other callers between the ioctls, the results of the calls for the pieces are together the encrypted buffer |
| `VmaMove.FindHole` | Assignment_2/btplus.c:188-206 | the search returns the lowest page from the end of the area on that begins a run of one page more than the area has, and fails if and only if there is none below the limit |
| `VmaMove.AddressSpace.Copy` | Assignment_2/btplus.c:225-235 | the copy loop copies every page of the range and changes no other |
| `VmaMove.AddressSpace.MovePages` | Assignment_2/btplus.c:220-237 | mapping, copying and unmapping together move the range: contents kept, old range unmapped, other pages unchanged |
| `VmaMove.AddressSpace.MoveToHole` | Assignment_2/btplus.c:167-245 | the call fails, changing nothing, if and only if the address is unmapped or there is no hole; otherwise the range moves to the lowest hole |
| `VmaMove.PagesPreserved` | Assignment_2/btplus.c:220-238 | after any sequence of moves every page is where the moves took it, with its contents; no two pages meet, and there are no others |
| `VmaMove.OthersStay` | Assignment_2/btplus.c:220-238 | a page that no move names stays where it is |
| `OptionList.Options.Put` | Assignment_1/part3/driver.c:36-50 | a store extends the history by one, and the list again represents the history |
| `OptionList.Options.Get` | Assignment_1/part3/driver.c:128-137 | the lookup returns what the history of stores says the reader should see |
| `OptionList.FindSeen` | Assignment_1/part3/driver.c:128-137 | the first entry of a process in the newest-first list is its value in a map of latest stores |
| `OptionList.SeenAtLatest` | Assignment_1/part3/driver.c:36-50 | whatever other processes did since, a process sees the driver's number as it was at its own latest store |
| `OptionList.OwnNumber` | Assignment_1/part3/driver.c:36-50 | if that store was a number, it sees that number |
| `OptionList.BorrowedNumber` | Assignment_1/part3/driver.c:41-44 | if it was not, it sees the number that any process stored before |
| `OptionList.BorrowedExample` | Assignment_1/part3/driver.c:41-44 | two stores after which one process sees the other's number |
| `OptionList.NeverStored` | Assignment_1/part3/driver.c:129-136 | no value is found if and only if the process never stored |

## Left out

- IsoWalk.IsoGetFileSize: directories are well formed (self and parent records first, records within a sector, lengths that add up) and all sectors named can be read; the loader panics otherwise. The read of a sector after leaving the root is not modelled, since its result is not used.
- EckdLoader.LoadEckdList: load addresses stay below 2^64, and the image does not overlap the loader's own buffers. That the extents of a held list can be read follows from `BlockChain.HeldReadable`; the requirement is there so that the image is defined. A failed read ends the chain like a refused entry.
- ScsiLoader.LoadScsiList: the same two conditions.
- IsoWriter.SizeOnVolume: a volume has at most 2^32 sectors and a directory less than 4 GiB; every directory named is on the volume.
- EckdWriter.LoadWritten: at most 16 heads, as four bits of the head field can name, and reserved bytes of pointers are zero; a table that ends without a null, bad or continuation pointer is not written. A block fits the loader's buffer, and the two conditions of LoadEckdList hold here too.
- ScsiWriter.LoadWritten: likewise for reserved bytes, endings and buffer; `ScsiLoader.ListTruncation` covers block numbers from 2^31 on.
- ReadMany.CommandsTile: the limit times the blocks to a sector is below 65536, as it is for a limit of 2048 and the factors the driver uses. A failed command ends the read, where the driver panics.
- BlkRequest.BlkRead: the read stays on the medium, its length in bytes fits 32 bits, and the device answers in time with success.
- Requests.WaitReply: the rounds of polls that fit in the time are a parameter. Notification and interrupt draining are not modelled.
- Descriptors.RunRing: a device with one queue, and a request that fits the rest of the table; `Descriptors.TimeoutsOverrun` says when it does, and what the source writes beyond the table is not modelled.
- VRing.VRing.Send: likewise the chain fits the rest of the table.
- NetReceive.EveryRun: the device fills a buffer and writes its used entry in one step, returns packets of at least the header's length, and does not change buffers it does not hold. The ring has at least 64 entries and a size that divides 65536.
- CardProtocol.EveryRun: calls on unmapped buffers, copies from and to the user that succeed, and waits not ended by signals. The user's buffer is not changed by others during the call. That a caller does get the lock is not stated: nothing is assumed about scheduling.
- CardProtocol.RoutineWorks: a text longer than the card's data area is not sent through it; the source would write past the area, and the model's call goes no further.
- KeyRace.WholeKeyInOrder: SET_KEYs of one handle come one at a time; `KeyRace.WholeKey` does without this.
- CardDriver.Card.Ioctl: lengths of 4 GiB and more, which the routines cut to 32 bits, are excluded; the kernel does not allocate such buffers. The spin before a start is passed at once, because the card is idle there.
- Crypter.EncryptBuffer: one configuration and one idle card over all chunks; `Crypter.ChunksAmongOthers` lets other callers in between. Fewer than 2^31 chunks; beyond, `Crypter.PiecesTile` shows that the ioctls miss part of the buffer.
- VmaMove.AddressSpace.MoveToHole: addresses are page-aligned, pages can be read and written, an area has fewer than 2^31 pages, since the copy loop counts them in an int, and vm_mmap honours a hint that is wholly free. The end of the area is a parameter.
- OptionList.Options.Get: a process that never stored makes the driver use an unset variable; the model returns no value.
- `find_iso_bc_entry`, the El Torito catalog checks and `send` of virtio-net: they would add only easy members.
- `IOCTL_COMPACT_VMA`, `IOCTL_PROMOTE_VMA` and `IOCTL_MVE_VMA_TO` of btplus.c: the first does not compact under the conditions it tests, the second is page-table work inside the kernel, the third checks only the first page of its target.
- Mapped CryptoCard operations: they never release the lock.
- Module and PCI registration, channel I/O, console output, network boot, benchmarks and test programs.
