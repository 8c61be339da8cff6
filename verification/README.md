# ferrvm in Dafny

ferrvm is a small virtual machine monitor. This project models its device models, its I/O bus, the memory image it
builds before a guest starts, and its shutdown protocol, and proves what they promise. `dafny verify dfyconfig.toml`
covers all of it.

## How it is modelled

- **Guest memory** (`Memory`) is an object over a byte array. An access out of bounds is a result, not a precondition.
  A ghost log holds every successful store in order; the contents always are the zeroed region with the log replayed.
  So the effect of any code on memory is a list of stores, and orderings inside a call can be stated.
- **Code that works in place** is written in place: the virtqueue, the block and entropy devices, the PCI function,
  the UART, the bus, the ELF loader, the page-table and MP-table writers are classes and methods with loops. Each is
  proved to do what a specification function says of the old state, and the properties are proved of that function.
- **Two parties** are a state machine. The virtqueue protocol (`RingProtocol`, `RingRuns`) interleaves driver steps
  with device steps down to single stores, and the device's loads may have seen any mixture of what the driver stored;
  the shutdown protocol (`Shutdown`) interleaves any number of threads, one atomic access at a time; the UART and the PCI
  function are driven by arbitrary sequences of operations.
- **Readers are independent of writers**: a page walk, an MP-table parser, a PCI capability walk, a pending-bit reader
  and the layouts of descriptors, request headers, ELF64 headers and registers are written from the standards, not
  from the code that produces what they read.
- **Integers** are unbounded; wherever the source's width matters the wrap is written out (`Wrap64`, `Plus16`,
  `Plus32`, `WithLow`, casts as `%`). Sums that the source leaves unguarded wrap, as in a release build.
- **Outside the program**: interrupt and message sinks are traces; the entropy source is a stream; host disk faults are
  an arbitrary function from the request number to the buffer at which I/O fails; the UART receive timeout is an
  arbitrary boolean; a back end's answer to a notification is an argument of the transport.

## Main results

- Exactly-once, in-order completion over every interleaved driver and device run, across 16-bit wrap-around
  (`RingRuns.ExactlyOnceInOrder`, `RingRuns.ProcessIsRun`, `RingRuns.EverythingComesBack`), for queue sizes that divide
  2^16, which is exactly when the slot arithmetic is right (`Rings.WrappedSlot`).
- The used index is published once and last, after every element it covers (`RingPublish.PublishedLast`).
- The descriptor walk never truncates a proper chain and never exceeds num + 1 (`Virtq.WalkWholeChain`,
  `Virtq.WalkTruncates`); whatever list a driver stores, byte by byte, is the list collected
  (`Chains.StoredChainCollected`).
- Segmented block I/O refines a flat disk: read-back across any segmentation and any requests elsewhere in between, told
  by the status bytes the guest finds (`BlkStatus.ReadBack`, `BlkStatus.StatusTells`), exactly the buffers before the
  first failing one (`BlkProps.RequestOnDisk`), and over any sequence one flat store per write (`BlkProps.DiskIsFlat`).
- MSI-X neither loses nor invents a raised vector over any run (`PciRuns.NoneLostNoneInvented`), though a queue without a
  valid vector raises none while MSI-X is on (`PciRuns.WantedIsReported`); the INTx line follows the
  ISR byte (`PciRuns.LineFollowsIsr`), which tells exactly whether INTx was wanted since it was last read
  (`PciGuest.StatusSeen`); a reset gives a new device around the old configuration space and table, then
  and ever after (`PciRuns.AfterReset`); configuration space stays well-formed under every access
  (`PciConfig.ConfigStaysSound`), and what a driver programs is what the device then works with, in numbers
  (`PciGuest.QueueProgrammed`, `PciGuest.AlwaysIdentifies`, `PciGuest.AnswersWhereAssigned`).
- The UART's cached interrupt level always equals the recomputed one, its receive path conserves bytes, its modem
  status is what its history says (`UartRuns.LineIsRight`, `UartRuns.ReceiveConserves`, `UartRuns.ModemStatusIsRight`).
  Every register value and the line itself are functions of the history of accesses alone (`UartHistory.GuestReads`,
  `UartHistory.LineSeen`).
- "Overlap means equal" is no lawful order in general (`BusModel.NotLawful`) but is a strict total order on every set the
  bus can hold, so ordered lookup is a linear scan (`BusModel.Bus.Lookup`, `BusModel.Bus.Register`).
- After the whole boot sequence the page walk is the identity below 1 GiB and not present above (`Boot.BootGuest`); the
  loader loads an encoded ELF64 file exactly when it fits and puts its image in place (`ElfFile.FileLoads`), and the rest
  of the sequence leaves it there exactly when the initrd does not disagree with it (`Boot.ImageSurvivesBoot`);
  descriptors, command line, parameters, initrd and MP table are all found in memory afterwards
  (`BootState.GuestFinds`).
- For any number of vCPU threads each starts at most one more step after shutdown is requested, and a finished kick
  loop has reached every vCPU that is, or ever again will be, inside one (`Shutdown.AtMostOneMore`,
  `Shutdown.KicksReachAll`). Every interleaving then ends within a bound fixed at that moment, without deadlock, and all
  it can wait for is a guest (`Shutdown.ShutdownBounded`, `Shutdown.ShutdownCompletes`, `Shutdown.OnlyGuestsRemain`).
- From the driver's notification to the interrupt: every head made available is completed and published, and an interrupt
  is reported exactly when there was one and the transport can report it (`Transport.NotificationServes`).

## Limits

Where a promise has a limit the exact condition is proved, with an input on which it fails.

| promise | holds exactly when | fails on |
|---|---|---|
| a 16-bit index names the right ring slot | the queue size divides 2^16: `Rings.WrappedSlot` | the same lemma, every other size |
| a published index covers stored elements | their slots are in memory: `RingPublish.PublishedLast` | `RingPublish.PublishedWithoutElement`, `DeviceRuns.EntropyElementLost` |
| the reported length of a read is exact | fewer than 2^32 - 1 data bytes: `BlkProps.ReadLengthExact` | `BlkProps.LengthWraps` |
| a wanted interrupt is reported | MSI-X is off or the queue has a valid vector: `PciRuns.WantedIsReported` | the same lemma: no trace is left |
| the INTx line follows the ISR byte | no sink is installed while it is set: `PciRuns.StepLine` | `PciRuns.SwapLosesLevel` |
| the MSI-X size field matches the table | fewer than 2048 queues (modulo 2^16): `PciConfig.TableSizeMatches` | the same lemma, every other count |
| the pending-bit array is readable | at most 64 vectors: `PciDevice.PbaReports`, `PciConfig.TableAndPbaApart` | `PciDevice.PbaHidden` |
| the upper dword of that array is readable | it equals the lower: `PciDevice.PbaUpperHalf` | the same lemma |
| the kernel image is in place after boot | the initrd agrees where it covers it: `Boot.ImageSurvivesBoot` | `Boot.InitrdOverwrites` |
| a kick finds its vCPU inside the guest | it had not just passed the flag check: `Shutdown.MissedExactlyWhenPassed` | `Shutdown.KickBeforeEntry`, `Shutdown.PassedAtFlag` |
| the comparison is a strict total order on ranges | no two overlap: `BusModel.StrictTotalOrder` | the same lemma; not even transitive: `BusModel.NotLawful` |
| a qword access reaches a whole MSI-X table qword | the upper dword is zero, or already right: `PciDevice.QwordReadsBack`, `PciDevice.QwordWrite`, `PciDevice.QwordRead` | the same lemmas, every other value |

Some comments in the repository say something else than the code, and the model follows the code.

- src/virtio/blk.rs:23-26 takes a chain to hold at most as many descriptors as the queue; the walk admits one more
  (`Virtq.WalkTruncates`).
- src/virtio/pci.rs:300-301 promises INTx for a queue without a vector; with MSI-X enabled there is no such fallback
  (`PciRuns.WantedIsReported`).
- src/serial.rs:47-48 says the receive trigger level is not enforced; the interrupt logic enforces it
  (`UartRuns.HighestPriority`).
- src/boot.rs:29 gives 16 MB for the kernel load address 0x10_0000, which is 1 MiB (`Elf.LoaderStaysHigh`).
- docs/virtio-rng.md describes an MMIO transport that the repository no longer has.

## Model

| member | source | states |
|---|---|---|
| `Memory.Allocate` | src/memory.rs:13-53 | zeroed memory of at least the requested size, in whole pages, exactly when the size is not zero, does not round up past the address space, and the host grants the mapping |
| `Memory.GuestMemory.constructor` | src/memory.rs:18-52 | a new region is zero-filled, rounded up to whole pages, with an empty store log |
| `Memory.GuestMemory.ReadAt` | src/memory.rs:55-96 | the bytes at the address exactly when all of them lie in memory, otherwise an error |
| `Memory.GuestMemory.WriteAt` | src/memory.rs:98-107 | succeeds exactly when the store fits; then those bytes and no others change and the log grows by the store; a refused store changes nothing |
| `Memory.GuestMemory.Grown` | src/memory.rs:98-107 | contents always are the old contents with the newly logged stores replayed in order |
| `Memory.ReplayConcat` | src/memory.rs:98-107 | replaying two lists of stores one after the other is replaying their concatenation |
| `Memory.ReplayAvoids` | src/memory.rs:98-107 | stores that stay off a window leave every byte of it as it was |
| `Virtq.WalkWholeChain` | src/virtio/mod.rs:91-121 | on every chain of distinct in-table indices the loop collects exactly the descriptors reached by following `next` while NEXT is set; the cap never cuts one (pigeonhole) |
| `Virtq.WalkTruncates` | src/virtio/mod.rs:117-120 | a longer linked path, a cycle for instance, yields exactly its first num + 1 descriptors |
| `Virtq.WalkFollows` | src/virtio/mod.rs:96-121 | the collected chain is the descriptors along any linked path that ends without NEXT, at an unreadable descriptor, or at the cap |
| `Virtq.WalkHasPath` | src/virtio/mod.rs:96-121 | every walk from a readable head has such a path, so the previous row covers all of them |
| `Chains.DescReadsBack` | src/virtio/mod.rs:96-106 | a descriptor stored as 64-bit address, 32-bit length, 16-bit flags and 16-bit next, little-endian, at table + 16 * index is decoded as exactly that descriptor |
| `Chains.ListCollected` | src/virtio/mod.rs:91-121 | memory that holds any list of descriptors at distinct indices, linked by next with flag bit 0 clear on the last only, has exactly that list collected, in order |
| `Chains.StoredChainCollected` | src/virtio/mod.rs:91-121 | so whatever list a driver stores descriptor by descriptor is what the device callback is handed |
| `Virtq.DistinctBelow` | src/virtio/mod.rs:117-120 | distinct indices below n are at most n |
| `Virtq.Walk` | src/virtio/mod.rs:91-121 | never more than num + 1 descriptors |
| `Virtq.DrainCounts` | src/virtio/mod.rs:82-136 | the outer loop completes at most (avail - last) mod 2^16 chains and moves the index by exactly that many, mod 2^16 |
| `Virtq.ProcessCounts` | src/virtio/mod.rs:69-144 | a whole call completes fewer than 65536 chains whatever memory holds, and changes nothing in the queue but its index |
| `Device.Virtqueue.constructor` | src/virtio/mod.rs:56-65 | a new queue is all zero and not ready |
| `Device.Virtqueue.CollectChain` | src/virtio/mod.rs:91-121 | the inner loop returns the recursive walk of the descriptor table in guest memory |
| `Device.Virtqueue.CompleteHead` | src/virtio/mod.rs:91-132 | one turn: device callback on the collected chain, then one used element in slot last % num |
| `Device.Virtqueue.DrainRing` | src/virtio/mod.rs:82-136 | the outer loop leaves queue, device, memory and count as the recursive drain says, including an early stop at an unreadable ring entry |
| `Device.Virtqueue.Process` | src/virtio/mod.rs:69-144 | a call leaves queue, device and memory as `Process` says, its stores in order, and returns the number of chains |
| `Rings.WrappedSlot` | src/virtio/mod.rs:85 | a 16-bit index names the slot of its unbounded position at every position, past wrap-around too, if and only if the queue size divides 2^16 |
| `Rings.SlotsDiffer` | src/virtio/mod.rs:127-128 | positions less than a ring apart never share a slot |
| `Rings.StoreElsewhere` | src/virtio/mod.rs:124-141 | a store outside both rings changes neither ring as its readers see it |
| `Rings.StoreUsedSlot` | src/virtio/mod.rs:127-132 | storing a used element changes exactly that slot of the ring view |
| `Rings.StoreUsedIdx` | src/virtio/mod.rs:138-141 | storing the used index changes exactly the index of the ring view |
| `RingProtocol.DeviceSees` | src/virtio/mod.rs:77-89 | what the device loads is the index and the ring slot of its unbounded position |
| `RingProtocol.ElemGoes` | src/virtio/mod.rs:126-132 | the used element store lands inside memory, in the slot of the unbounded completion count |
| `RingProtocol.IdxGoes` | src/virtio/mod.rs:138-141 | the used index store lands inside memory and publishes the device index |
| `RingProtocol.TakeKeeps` | src/virtio/mod.rs:83-89 | loading a head keeps the protocol invariant |
| `RingProtocol.ServeKeeps` | src/virtio/mod.rs:91-124 | so does the descriptor walk and callback, whatever chain the walk saw that keeps off the rings and whatever memory contents the callback saw, while the driver went on storing |
| `RingProtocol.StoreKeeps` | src/virtio/mod.rs:123-124 | every single store of a callback keeps it |
| `RingProtocol.CompleteKeeps` | src/virtio/mod.rs:126-135 | storing the element and advancing the index keeps it |
| `RingProtocol.FinishKeeps` | src/virtio/mod.rs:138-141 | the publication step keeps it |
| `RingProtocol.StepKeeps` | src/virtio/mod.rs:69-144 | every step of driver or device, in any interleaving, keeps the protocol invariant |
| `RingRuns.ExactlyOnceInOrder` | src/virtio/mod.rs:69-144 | over every interleaved run of driver and device: heads come back exactly once and in order with the reported lengths, both 16-bit indices are the unbounded counts mod 2^16, and at every point, inside `process` too, each element the published index covers is in its slot |
| `RingRuns.ReclaimEnabled` | src/virtio/mod.rs:138-141 | the driver sees a new used index exactly when something published is not yet reclaimed |
| `RingRuns.ProcessIsRun` | src/virtio/mod.rs:69-144 | a whole `process` call is one such run: it completes and publishes everything that was available, leaving memory as its store list says |
| `RingRuns.EverythingComesBack` | src/virtio/mod.rs:69-144 | progress: from every protocol state with an idle, ready queue, one `process` call and the reclaiming it permits give back every head made available, in order |
| `RingRuns.ReclaimAll` | src/virtio/mod.rs:138-141 | everything published can be reclaimed, one element at a time |
| `RingRuns.ZeroedIsFresh` | src/virtio/mod.rs:56-65 | zeroed memory with the rings anywhere in it is a valid start of the protocol |
| `RingPublish.BatchStores` | src/virtio/mod.rs:83-136 | no store of a batch touches the used index; of its last num elements exactly those whose slot is in memory are in their slots at the end; other slots are unchanged |
| `RingPublish.PublishedLast` | src/virtio/mod.rs:82-141 | the index is stored once and last: at every earlier point of the call it still has its old value, and just before that store each element it will cover is in its slot if and only if the slot is in memory; also for a batch a failed ring read cut short |
| `RingPublish.AllPublishedInPlace` | src/virtio/mod.rs:126-141 | with the whole used ring in memory every published element is in place |
| `RingPublish.PublishedWithoutElement` | src/virtio/mod.rs:132-141 | with the next slot past the end of memory the refused element store is ignored and the index is published over an element that is nowhere |
| `DeviceRuns.EntropyElementLost` | src/virtio/mod.rs:132-141 | a concrete queue on one page of memory on which the entropy device does that |
| `DeviceRuns.HandleConfined` | src/virtio/blk.rs:165-187 | the block and entropy devices store only into buffers of the chain they were given |
| `DeviceRuns.DevicesCompleteInOrder` | src/virtio/mod.rs:69-144 | exactly-once, in-order completion for the two devices the repository has |
| `DeviceRuns.OnNotify` | src/virtio/blk.rs:203-209 | only queue 0 is served, and an interrupt is asked for exactly when at least one chain was completed |
| `Transport.NotificationServes` | src/virtio/pci.rs:445-454 | from every protocol state with an idle, ready queue a notification completes and publishes every head made available, and an interrupt is reported if and only if there was one and the transport can report it |
| `Transport.NotifyBackend` | src/virtio/pci.rs:445-454 | back end, queue, memory and transport after a notification; a number other than 0 does nothing |
| `Blk.VirtioBlk.constructor` | src/virtio/blk.rs:39-54 | the device holds the image |
| `Blk.VirtioBlk.TotalLen` | src/virtio/blk.rs:98 | the sum of the buffer lengths |
| `Blk.VirtioBlk.ReadLoop` | src/virtio/blk.rs:118-160 | the read loop leaves status, byte count and guest stores as the read specification says, stopping at the first failing buffer |
| `Blk.VirtioBlk.WriteLoop` | src/virtio/blk.rs:118-160 | the write loop leaves the image with the buffers before the first failing one laid consecutively from the start offset |
| `Blk.VirtioBlk.WriteAllAt` | src/virtio/blk.rs:153 | the bytes replace those at the offset and no others |
| `Blk.VirtioBlk.Execute` | src/virtio/blk.rs:56-163 | status, count, image and stores of every request type, out-of-bounds and unsupported ones included |
| `Blk.VirtioBlk.ReadHeader` | src/virtio/blk.rs:166-175 | type and sector from the first descriptor, or none for a short chain or an unreadable header |
| `Blk.VirtioBlk.ProcessChain` | src/virtio/blk.rs:165-187 | header, request, status byte: state, stores and reported length as `HandleChain` says |
| `BlkProps.ReadBackServed` | src/virtio/blk.rs:95-187 | what a write that the device served completely stored, a later such read of the same sectors and length returns, however both are segmented, with any requests elsewhere on the disk in between |
| `BlkStatus.StatusTells` | src/virtio/blk.rs:56-187 | which byte the guest finds at the status address, for every header it encoded: reads and writes 0 exactly when the request is inside the whole 512-byte sectors and no buffer fails, else 1; flush 0 unless the host fails; get-id 0 exactly when its buffer exists and fits; any other type 1 outside the disk, else 2, or 0 with no data to refuse |
| `BlkStatus.ReadBack` | src/virtio/blk.rs:95-187 | the guest view: after a write it found status 0 for, and requests that do not ask to write into those sectors, a read of the same sectors it finds status 0 for leaves the bytes written in its buffers |
| `BlkStatus.HeaderReads` | src/virtio/blk.rs:170-175 | a header holding type at byte 0 and sector at byte 8, little-endian, is read as those values |
| `BlkStatus.Unanswered` | src/virtio/blk.rs:165-173 | a chain of fewer than two descriptors or without a readable header is neither answered nor reported, and changes nothing |
| `BlkStatus.GetIdDelivers` | src/virtio/blk.rs:74-93 | get-id leaves "ferrvm-blk" and the device number in decimal, padded with zeros to 20 bytes and cut to the buffer, in the first data buffer |
| `BlkStatus.DecimalNotation` | src/virtio/blk.rs:83 | the digits are the decimal notation of the number, without leading zeros |
| `BlkProps.WriteLands` | src/virtio/blk.rs:140-156 | a successful write puts the guest bytes, buffers in order, on the flat disk from sector * 512 |
| `BlkProps.ReadDelivers` | src/virtio/blk.rs:122-139 | a successful read leaves the disk bytes in its disjoint buffers, in order |
| `BlkProps.GatherScatter` | src/virtio/blk.rs:120-160 | scattering disk bytes over disjoint buffers and gathering the buffers is the identity |
| `BlkProps.RequestOnDisk` | src/virtio/blk.rs:98-160 | the image changes only for an in-bounds write, and then by exactly the buffers before the first that is unreadable or faults, laid from sector * 512; the status is OK if and only if there is none; the length never changes |
| `BlkProps.DiskIsFlat` | src/virtio/blk.rs:56-163 | over any sequence of requests the disk is a flat byte array with at most one store per request replayed on it |
| `BlkProps.OutOfBoundsRefused` | src/virtio/blk.rs:95-116 | a request past the capacity, u64 overflow included, is refused without a store or a disk change; for one inside it no offset overflows u64 |
| `BlkProps.WrittenIsExact` | src/virtio/blk.rs:165-187 | below 2^32 - 1 data bytes the reported length is exactly the number of bytes stored in guest memory |
| `BlkProps.WrittenModulo` | src/virtio/blk.rs:165-187 | for every chain the reported length is the number of bytes stored modulo 2^32 |
| `BlkProps.ReadLengthExact` | src/virtio/blk.rs:120-186 | for a successful read with a delivered status the length is exact if and only if the data is below 2^32 - 1 bytes |
| `BlkProps.LengthWraps` | src/virtio/blk.rs:138-186 | a descriptor table in guest memory whose chain is a successful read that stores 2^32 + 1 bytes and reports one |
| `BlkProps.SparedByRun` | src/virtio/blk.rs:95-163 | requests outside a disk range leave the range and the disk length alone, over any sequence |
| `BlkProps.BlkConfined` | src/virtio/blk.rs:88-182 | every store of the block device lies inside a buffer of the chain |
| `Device.VirtioRng.constructor` | src/virtio/rng.rs:11-14 | nothing drawn yet from the entropy stream |
| `Device.VirtioRng.ReadExact` | src/virtio/rng.rs:24 | the next bytes of the stream, or nothing if the host fails the read |
| `Device.VirtioRng.ProcessChain` | src/virtio/rng.rs:17-33 | writable non-empty buffers are filled in order with successive entropy; read-only ones and those whose entropy read fails are skipped; only stores that fit are counted |
| `Device.RngConfined` | src/virtio/rng.rs:20-30 | every store lies inside a buffer of the chain |
| `RngProps.ChainFilled` | src/virtio/rng.rs:17-33 | for every chain: the writable non-empty buffers whose entropy read succeeds and that lie in memory are filled, in order, each with its own stretch of the stream; the reported length is their sum modulo 2^32; a failed read uses no entropy |
| `RngProps.StretchesFollow` | src/virtio/rng.rs:24 | no byte of the stream is handed out twice |
| `Device.ProcessChain` | src/virtio/mod.rs:123-124 | the callback of either device does what its specification says |
| `Le.GetLe` | src/virtio/pci.rs:202-208 | the little-endian value of at most the first eight bytes |
| `Le.PutLe` | src/virtio/pci.rs:194-199 | the value in little-endian order at any width, zero past the eighth byte |
| `Le.RoundTrip` | src/virtio/pci.rs:194-208 | what is packed into n bytes is read back modulo 256^n |
| `PciDevice.VirtioPciDevice.constructor` | src/virtio/pci.rs:236-273 | one vector per queue plus one, cut to 16 bits, all masked, none pending, advertised configuration space; for any number of queues |
| `PciDevice.VirtioPciDevice.SignalMsix` | src/virtio/pci.rs:317-328 | an out-of-range vector is ignored, a masked one becomes pending, any other is sent with the message of its entry |
| `PciDevice.VirtioPciDevice.RaiseQueueInterrupt` | src/virtio/pci.rs:302-314 | MSI-X with the queue's vector when enabled, otherwise ISR bit 0 and the line raised |
| `PciDevice.VirtioPciDevice.DeliverPending` | src/virtio/pci.rs:332-343 | the loop signals, in vector order, exactly the pending unmasked vectors and clears their bits, and only when MSI-X is on and not function-masked |
| `PciDevice.VirtioPciDevice.Reset` | src/virtio/pci.rs:346-360 | queues, selectors, features, ISR, vectors and pending bits as new, line lowered; configuration space and table kept |
| `PciDevice.VirtioPciDevice.ResetQueues` | src/virtio/pci.rs:347-350 | every queue becomes new with size 256 |
| `PciDevice.VirtioPciDevice.MsixTableWrite` | src/virtio/pci.rs:378-394 | one dword of one entry changes, and a control-word write then delivers |
| `PciDevice.VirtioPciDevice.CommonCfgWrite` | src/virtio/pci.rs:511-587 | the selected register changes; a status write of zero resets |
| `PciDevice.VirtioPciDevice.MmioWrite` | src/virtio/pci.rs:442-464 | BAR0 write dispatch: common configuration, notification, MSI-X table, everything else ignored |
| `PciDevice.VirtioPciDevice.ReadPending` | src/virtio/pci.rs:397-407 | the pending-bit qword |
| `PciDevice.VirtioPciDevice.MmioRead` | src/virtio/pci.rs:410-434 | BAR0 read dispatch and the bytes returned; only an ISR read changes state, clearing it and lowering the line |
| `PciDevice.VirtioPciDevice.ConfigWrite` | src/virtio/pci.rs:595-618 | byte by byte only writable bits change, BAR0 is re-aligned, then pending interrupts are delivered |
| `PciDevice.PbaReports` | src/virtio/pci.rs:397-431 | a qword read of the pending-bit array shows the pending bit of every vector, in every state a new device can reach, if and only if it has at most 64 vectors |
| `PciDevice.PbaHidden` | src/virtio/pci.rs:426-431 | for every device with more vectors a run of three accesses after which the read shows a message address instead |
| `PciDevice.PbaUpperHalf` | src/virtio/pci.rs:397-407 | a dword read of the upper half returns the lower half again, so it shows vectors 32 to 63 if and only if those agree with vectors 0 to 31 |
| `PciDevice.RegistersReadBack` | src/virtio/pci.rs:466-587 | with a queue selected, a value written to a common-configuration register is read back cut to its width, and every other register reads as before |
| `PciGuest.StatusReadClears` | src/virtio/pci.rs:413-432 | an interrupt-status read at 0x40 to 0x4f returns the status in its first byte and zeros after it, clears the status, lowers the line and changes nothing else; a read anywhere else changes nothing and drives nothing |
| `PciGuest.StatusIsHistory` | src/virtio/pci.rs:302-314 | over every run of a new device the status is 1 exactly when an INTx interrupt was wanted since the last status read or reset, and 0 otherwise |
| `PciGuest.StatusSeen` | src/virtio/pci.rs:413-421 | so that is what a status read returns, at any point of any run |
| `PciGuest.Regions` | src/virtio/pci.rs:410-463 | which region of BAR0 every offset belongs to, in numbers: what a read returns in each, zero between them; a write outside the writable ones leaves the function unchanged |
| `PciGuest.WireValues` | src/virtio/pci.rs:202-208 | a one-, two- or four-byte little-endian write is taken at its value |
| `PciGuest.WireReads` | src/virtio/pci.rs:194-200 | a register value is returned little-endian |
| `PciGuest.FreshRegisters` | src/virtio/pci.rs:466-509 | every common-configuration register of a new device, as a number |
| `PciGuest.FeaturesRead` | src/virtio/pci.rs:469-477 | the selector written at 0x00 is read back, and selects the low half, the high half or nothing of the device features at 0x04 |
| `PciGuest.FeaturesWritten` | src/virtio/pci.rs:516-530 | the selector written at 0x08 is read back, and a write at 0x0c replaces the selected half of the driver features, the other half kept |
| `PciGuest.QueueSelected` | src/virtio/pci.rs:495-537 | a queue number written at 0x16 is read back and changes the selection alone |
| `PciGuest.QueueProgrammed` | src/virtio/pci.rs:538-577 | size, the halves of the three ring addresses and ready, as a driver writes them, leave the selected queue with exactly that size and those addresses, ready, its index kept, and nothing else changed |
| `PciGuest.VectorAssigned` | src/virtio/pci.rs:579-583 | the vector written at 0x1a is that of the selected queue |
| `PciGuest.EntryWritten` | src/virtio/pci.rs:378-395 | a dword written at 0x800 + 16 * v + field goes to that field of table entry v and to no other entry |
| `PciGuest.EntryProgrammed` | src/virtio/pci.rs:384-391 | address halves at 0 and 4, data at 8 and control at 12 make up the entry |
| `PciGuest.ConfigRead` | src/pci.rs:75-84 | the loop returns configuration bytes, all ones past byte 255 |
| `PciGuest.ConfigWord` | src/pci.rs:75-84 | a word read inside configuration space is the number stored there |
| `PciGuest.AlwaysIdentifies` | src/virtio/pci.rs:123-140 | under every sequence of accesses: vendor 0x1af4, device 0x1040 + id, capabilities bit, revision, class, subsystem and interrupt pin |
| `PciGuest.BuiltIdentifies` | src/virtio/pci.rs:123-140 | a new function also has its interrupt line, a zero command register and no BAR0 base |
| `PciGuest.CommandTakes` | src/virtio/pci.rs:595-601 | a word written to the command register is read back, and its bit 1 switches memory decoding |
| `PciGuest.AnswersWhereAssigned` | src/virtio/pci.rs:643-655 | after command and BAR0 base are written the function answers in the 4 KiB from the aligned base exactly when bit 1 is set and the base is not zero |
| `PciGuest.MessageControlTakes` | src/virtio/pci.rs:602-608 | of a word written to message control bits 15 and 14 enable MSI-X and mask the function, and the other bits are kept |
| `PciGuest.InterruptLineTakes` | src/virtio/pci.rs:599-601 | the interrupt line register holds what is written |
| `PciDevice.TableReadsBack` | src/virtio/pci.rs:363-394 | an aligned dword written to the table is read back and every other aligned dword of the table reads as before |
| `PciDevice.QwordReadsBack` | src/virtio/pci.rs:363-394 | a qword write to the table followed by a qword read returns the low dword, and so the same bytes if and only if the value is below 2^32 |
| `PciDevice.QwordWrite` | src/virtio/pci.rs:378-394 | a qword write sets the whole address if and only if the upper dword was already right, and of data and control together only the data |
| `PciDevice.QwordRead` | src/virtio/pci.rs:363-374 | a qword read of an address returns it if and only if it is below 2^32 |
| `PciRuns.NoneLostNoneInvented` | src/virtio/pci.rs:302-394 | over every run, per vector: signals plus the pending bit never exceed raises; a raise no reset follows is pending or was signalled after it; a pending bit stands for an unsignalled raise; when delivery is possible every pending vector is masked |
| `PciRuns.RaisedWhen` | src/virtio/pci.rs:302-328 | a vector is raised exactly by a notification whose back end asks for an interrupt while MSI-X is enabled and the queue has that vector |
| `PciRuns.SignalsAllowed` | src/virtio/pci.rs:317-343 | a message is only sent with MSI-X enabled, not function-masked and the vector unmasked, and carries the address and data of its entry |
| `PciRuns.DeliverToKeeps` | src/virtio/pci.rs:336-342 | after n rounds of the delivery loop none of the first n vectors is owed, and the ledger balances |
| `PciRuns.DeliverQuiet` | src/virtio/pci.rs:332-343 | after delivery every pending vector that could be sent is masked |
| `PciRuns.SignalMsixKeeps` | src/virtio/pci.rs:317-328 | raising a vector keeps the ledger |
| `PciRuns.TableKeeps` | src/virtio/pci.rs:378-394 | table writes, unmasking ones included, keep it |
| `PciRuns.ConfigKeeps` | src/virtio/pci.rs:595-618 | configuration writes, enabling and unmasking ones included, keep it |
| `PciRuns.NotifyKeeps` | src/virtio/pci.rs:445-454 | notifications keep it |
| `PciRuns.CommonKeeps` | src/virtio/pci.rs:511-587 | common-configuration writes, reset included, keep it |
| `PciRuns.StepKeeps` | src/virtio/pci.rs:410-464 | every access keeps it |
| `PciRuns.LineFollowsIsr` | src/virtio/pci.rs:310-313 | in every state of every run the INTx line is high if and only if the ISR byte is non-zero, given sinks are installed while it is zero |
| `PciRuns.StepLine` | src/virtio/pci.rs:276-278 | one access keeps that, except exactly a sink installed while the ISR byte is non-zero |
| `PciRuns.InterruptReported` | src/virtio/pci.rs:302-314 | with MSI-X off a wanted interrupt sets ISR bit 0 and leaves the line high; with it on neither the ISR byte nor the line moves |
| `PciRuns.WantedIsReported` | src/virtio/pci.rs:300-328 | a wanted interrupt raises a vector or the line if and only if MSI-X is off or the queue has a valid vector; otherwise it leaves no trace at all |
| `PciRuns.SwapLosesLevel` | src/virtio/pci.rs:276-278 | a two-step run that ends with the ISR byte set and the line of the new sink low |
| `PciRuns.ResetIsFresh` | src/virtio/pci.rs:531-536 | a status write with low byte zero leaves a new device around the old configuration space and MSI-X table |
| `PciRuns.AfterReset` | src/virtio/pci.rs:346-360 | everything after a reset, events included, happens as on that new device, whatever came before |
| `PciConfig.ConfigStaysSound` | src/virtio/pci.rs:595-618 | under every sequence of accesses read-only bytes keep their built values, the capability walk from 0x34 ends after the same five disjoint structures, and BAR0 stays 4 KiB aligned |
| `PciConfig.TableSizeMatches` | src/virtio/pci.rs:184-188 | the advertised table size equals the number of table entries throughout, if and only if the number of queues is below 2048 modulo 2^16; MSI-X then starts off and unmasked; every queue has a vector if and only if the count fits 16 bits |
| `PciConfig.TableAndPbaApart` | src/virtio/pci.rs:61-64 | the advertised table and pending-bit regions are disjoint and inside the 4 KiB BAR if and only if there are at most 64 vectors |
| `PciConfig.BuiltLinked` | src/virtio/pci.rs:123-191 | the built configuration space has the five capabilities, linked, with the stated BAR0 regions and the table size |
| `PciConfig.CapReads` | src/virtio/pci.rs:100-119 | a written capability is read back field by field and no byte outside it changes |
| `PciConfig.WalkIs` | src/virtio/pci.rs:143-190 | a reader following the links finds those five structures for any link budget of at least five |
| `PciConfig.WriteBytesKeeps` | src/virtio/pci.rs:596-611 | a write of any width and offset changes writable bits only |
| `PciConfig.AlignKeeps` | src/virtio/pci.rs:612-614 | re-imposing the BAR encoding aligns BAR0 and touches nothing else |
| `PciConfig.BaseReadsBack` | src/virtio/pci.rs:281-283 | an assigned BAR0 base is read back with the low twelve bits zero, and is the base the router uses |
| `PciConfig.OneAnswers` | src/virtio/pci.rs:643-655 | functions with different BAR bases never both answer at an address |
| `PciBus.VirtioPciMmio.constructor` | src/virtio/pci.rs:630-635 | no devices at first |
| `PciBus.VirtioPciMmio.AddDevice` | src/virtio/pci.rs:637-639 | devices are kept in registration order |
| `PciBus.VirtioPciMmio.Route` | src/virtio/pci.rs:643-655 | the loop finds the first device that is enabled, has a non-zero base and covers the address |
| `PciBus.TargetIsOnly` | src/virtio/pci.rs:643-655 | with distinct bases a device that answers is the one routed to, whatever the registration order |
| `PciBus.VirtioPciMmio.Write` | src/virtio/pci.rs:671-679 | only the routed device sees the write, at its BAR-relative offset; no other device changes |
| `PciBus.VirtioPciMmio.Read` | src/virtio/pci.rs:659-669 | likewise for reads; an unclaimed read is all ones |
| `PciBus.EverySlotReachable` | src/pci.rs:130-147 | every register of every slot on bus 0 has an address that selects exactly it |
| `PciBus.SelectionIs` | src/pci.rs:130-147 | every 32-bit address selects by its enable bit, bus, slot and register alone: the slot and register when enabled on bus 0, otherwise nothing |
| `PciBus.KeysDiffer` | src/pci.rs:145-147 | no two slots share a key |
| `PciBus.PciRootBus.constructor` | src/pci.rs:116-118 | the latch starts at zero |
| `PciBus.PciRootBus.WriteAddress` | src/pci.rs:176-187 | a partial write replaces exactly the bytes of the latch it covers |
| `PciBus.PciRootBus.ReadAddress` | src/pci.rs:152-160 | reads return the latch bytes, zero past its end |
| `UartRuns.HighestPriority` | src/serial.rs:274-305 | the source reported is the raised one of highest priority, and none exactly when none is raised |
| `UartRuns.IirNames` | src/serial.rs:322-335 | IIR bits 3..0 identify that source, or say none |
| `UartRuns.LevelStaysRight` | src/serial.rs:308-319 | after every operation, also those that do not recompute it, the cached level equals the recomputed one |
| `UartRuns.LineIsRight` | src/serial.rs:223-335 | over every sequence of accesses, injections, ticks and sink swaps the last level sent to the current sink is "OUT2 set and some enabled source raised", and the calls to each sink alternate starting with assert |
| `UartRuns.ReceiveConserves` | src/serial.rs:196-269 | over every sequence: delivered bytes followed by the FIFO are the accepted bytes in order since the last clear, occupancy stays at most 4096, a pending timeout implies data, and the overrun latch says whether a byte was rejected since the last LSR read |
| `UartRuns.FifoStep` | src/serial.rs:338-374 | one operation of any kind moves bytes between accepted, FIFO and delivered without loss |
| `UartRuns.LsrReports` | src/serial.rs:255-269 | LSR bit 1 is set exactly when a byte was rejected since the previous LSR read, bit 0 exactly when data waits |
| `UartRuns.ModemStatusIsRight` | src/serial.rs:376-428 | in every reachable state the MSR line bits are the permuted MCR bits in loopback and the connected default otherwise, and each delta bit is set exactly when a write that left the UART in loopback changed that line since the last MSR read |
| `UartHistory.GuestReads` | src/serial.rs:255-481 | in every reachable state every register reads as a number computed from the history of accesses alone: RBR, IER, IIR with its code and FIFO bits, LCR, MCR, LSR with bits 5 and 6, MSR, SCR, DLL, DLM |
| `UartHistory.LineSeen` | src/serial.rs:308-319 | the line last driven is high exactly when the last MCR value has OUT2 set and some enabled source has something to report, both from the history |
| `UartHistory.TransmitLatched` | src/serial.rs:322-356 | the transmit-empty event is latched exactly when THR was written, DLAB clear, since the last IIR read that reported it |
| `UartHistory.TimeoutLatched` | src/serial.rs:223-238 | the receive timeout is latched exactly when a tick with the time elapsed found bytes waiting below the trigger level of an enabled FIFO and since then nothing was received, the last byte was not read and the FIFO was not emptied |
| `UartHistory.RegistersHold` | src/serial.rs:467-489 | each plain register holds what was last written to it, bit for bit, by the offset and DLAB of the write |
| `UartHistory.OutputIsSent` | src/serial.rs:338-356 | the host output stream is the bytes written to THR outside loopback with DLAB clear, in order |
| `UartHistory.IirIs` | src/serial.rs:322-335 | IIR is the code 6, 4, 12, 2 or 0 of the first asking source in priority order, or 1, with bits 6 and 7 for the FIFO |
| `UartHistory.MsrIs` | src/serial.rs:422-428 | MSR is the four line states over the four changed bits, each from the history |
| `UartModel.RegisterImages` | src/serial.rs:439-481 | IER and MCR read back their written value masked with 0x0f and 0x1f |
| `UartModel.MsrImage` | src/serial.rs:422-428 | each MSR bit appears at its position in the byte read |
| `SerialDevice.Serial.constructor` | src/serial.rs:172-193 | power-on state, no sink calls |
| `SerialDevice.Serial.PendingInterrupt` | src/serial.rs:274-305 | the pending source of the state |
| `SerialDevice.Serial.UpdateIrq` | src/serial.rs:308-319 | the cached level becomes the recomputed one; the sink is called only on a change |
| `SerialDevice.Serial.FillFifo` | src/serial.rs:202-208 | bytes are appended until 4096 are held; one that does not fit is an overrun and ends the loop |
| `SerialDevice.Serial.InjectRx` | src/serial.rs:196-218 | ignored in loopback; otherwise FIFO, overrun, timeout and line as specified |
| `SerialDevice.Serial.TickCti` | src/serial.rs:223-238 | the timeout becomes pending exactly under the stated conditions; returns whether it changed |
| `SerialDevice.Serial.ReplaceIrqSink` | src/serial.rs:241-247 | the new sink is brought up to the right level from low |
| `SerialDevice.Serial.ReadLsr` | src/serial.rs:255-269 | value, then overrun cleared and line recomputed |
| `SerialDevice.Serial.ReadIir` | src/serial.rs:322-335 | value; a transmit-empty indication is cleared by the read |
| `SerialDevice.Serial.WriteThr` | src/serial.rs:338-356 | looped back into the FIFO or sent to the host, transmit-empty raised |
| `SerialDevice.Serial.WriteFcr` | src/serial.rs:359-374 | FIFO control effect followed by the line |
| `SerialDevice.Serial.SetFcr` | src/serial.rs:359-373 | enable, trigger level, clear on request or on enabling |
| `SerialDevice.Serial.WriteMcr` | src/serial.rs:376-419 | modem control effect followed by the line |
| `SerialDevice.Serial.SetMcr` | src/serial.rs:376-418 | loopback lines, accumulated deltas, FIFO cleared on entering loopback, defaults restored on leaving |
| `SerialDevice.Serial.ReadMsr` | src/serial.rs:422-428 | value, then deltas cleared |
| `SerialDevice.Serial.ReadRbr` | src/serial.rs:440-450 | the oldest byte is removed; an emptied FIFO drops the timeout |
| `SerialDevice.Serial.ReadRegister` | src/serial.rs:432-465 | register dispatch: value returned, state and sink calls as specified |
| `SerialDevice.Serial.Read` | src/serial.rs:432-465 | the first byte from the register, further bytes 0xff; an empty read does nothing |
| `SerialDevice.Serial.WriteRegister` | src/serial.rs:467-489 | register dispatch: state, sink calls and host bytes as specified |
| `SerialDevice.Serial.Write` | src/serial.rs:467-489 | only the first byte counts; an empty write does nothing |
| `BusModel.OverlapsMeansShares` | src/bus.rs:79-82 | for ranges that can be registered, overlapping is sharing an address |
| `BusModel.PointProbe` | src/bus.rs:58-62 | a one-byte probe equals a range exactly when the range contains the address, u64::MAX included |
| `BusModel.NotLawful` | src/bus.rs:98-109 | "equal" is not transitive on ranges at large |
| `BusModel.StrictTotalOrder` | src/bus.rs:84-109 | a set of registrable ranges is strictly totally ordered by the comparison if and only if no two of them overlap |
| `BusModel.SortedIsApart` | src/bus.rs:113-120 | every set of ranges the map can hold is non-overlapping |
| `BusModel.ProbeSplits` | src/bus.rs:98-109 | every probe cuts the map monotonically into less, equal and greater |
| `BusModel.OneHolder` | src/bus.rs:187-194 | at most one entry holds an address |
| `BusModel.ScanIs` | src/bus.rs:187-194 | the linear scan finds exactly the holder |
| `BusModel.InsertKeepsSorted` | src/bus.rs:129-147 | inserting at the position found keeps the order |
| `BusModel.CoveringCovers` | src/bus.rs:149-185 | the claimed entry contains every byte of the access; without one no registered range contains them all |
| `BusModel.Bus.constructor` | src/bus.rs:123-127 | no devices |
| `BusModel.Bus.Search` | src/bus.rs:187-194 | binary search finds an equal key, or the place that splits the keys into less and greater |
| `BusModel.Bus.Register` | src/bus.rs:129-147 | ZeroLength, Overflow and Overlap each exactly under their conditions, Overlap exactly when a registered range intersects; a failure changes nothing, a success adds exactly the entry |
| `BusModel.Bus.Lookup` | src/bus.rs:187-194 | ordered lookup equals a linear scan for every u64 address |
| `BusModel.Bus.Read` | src/bus.rs:149-170 | one device covering the whole access answers at the offset from its base and no other device changes; otherwise all ones, unclaimed, and nothing changes; an empty read is claimed |
| `BusModel.Bus.Write` | src/bus.rs:172-185 | the device covering all of it receives the bytes at the offset from its base, and no other device changes; otherwise nothing does |
| `Elf.LoaderStaysHigh` | src/boot.rs:211-273 | whatever the file holds and whether or not loading succeeds, nothing below 1 MiB or past guest RAM is written |
| `Elf.SegmentLoads` | src/boot.rs:241-269 | a loaded segment holds its file bytes then zeros to p_memsz, and nothing outside it changes |
| `Elf.ImageInPlace` | src/boot.rs:211-273 | on success with disjoint clamped ranges each PT_LOAD range holds its file bytes followed by zeros to p_memsz, and every other byte is unchanged |
| `Elf.StoreSegment` | src/boot.rs:237-269 | the stores of one segment, or the error, as specified |
| `Elf.LoadElfKernel` | src/boot.rs:211-273 | the entry point exactly when every segment loads; the stores, also those before a failure, as specified |
| `Elf.LoadFailed` | src/boot.rs:232-270 | the first failure ends the loading |
| `ElfFile.FileLoads` | src/boot.rs:211-273 | for every file that encodes a header and program headers at their ELF64 offsets with p_filesz at most p_memsz: loading succeeds if and only if every loadable segment is in the file and fits in memory, the header is read as encoded, entry point included, and non-overlapping segments are in place, every other byte as before |
| `ElfFile.HeaderIsRead` | src/boot.rs:217-229 | entry, program header offset, entry size and count are read as the file encodes them at 24, 32, 54 and 56; a file is refused exactly when it is short or has another magic number or class |
| `ElfFile.SegmentIsRead` | src/boot.rs:232-235 | type, offset, physical address, file size and memory size are read as the file encodes them at 0, 8, 24, 32 and 40 of the program header |
| `ElfFile.LoadsIff` | src/boot.rs:232-270 | the loading loop succeeds exactly when every segment fits |
| `Paging.IdentityMap` | src/boot.rs:487-518 | with the tables installed a 4-level walk maps every address below 1 GiB to itself, writable, and finds every other below 2^48 not present |
| `Paging.PdInstalled` | src/boot.rs:501-510 | after k directory stores the first k entries are right and nothing else changed |
| `Paging.StoresInstall` | src/boot.rs:487-510 | the stores install the tables on a zeroed area |
| `Paging.TablesSurvive` | src/boot.rs:487-510 | stores before and after that avoid the table area do not disturb them |
| `Boot.LoadInitrd` | src/boot.rs:84-113 | stored at 128 MiB exactly when it has a 32-bit size and fits |
| `Boot.SetupCmdline` | src/boot.rs:276-298 | stored with its terminator exactly when that is at most 2048 bytes and fits |
| `Boot.WriteGdt` | src/boot.rs:422-479 | null, code and data descriptors at 0x500 |
| `Boot.DescriptorReadsBack` | src/boot.rs:422-439 | a packed segment descriptor reads back field by field, for every base, limit, access byte and flags |
| `Boot.GdtMeans` | src/boot.rs:405-468 | null, then flat 64-bit code and data segments, present, ring 0 |
| `Boot.WritePd` | src/boot.rs:501-510 | the loop stores the 512 directory entries in order, exactly when they fit |
| `Boot.WritePageTables` | src/boot.rs:487-510 | all three tables, exactly when they fit |
| `Boot.LoadKernel` | src/boot.rs:115-199 | the ELF path succeeds exactly when every part fits, returns the entry point, and writes kernel, initrd, boot parameters, command line, GDT and page tables in that order; a failure leaves a prefix of those stores |
| `Boot.EarlyAvoidsTables` | src/boot.rs:115-199 | nothing written before the page tables touches their area |
| `Boot.BootMapsIdentity` | src/boot.rs:464-518 | after the whole sequence, MP table included, on zeroed memory: identity map below 1 GiB, present and writable; not present from there to 2^48 |
| `Boot.HighMemory` | src/boot.rs:115-199 | after the whole sequence every byte above 1 MiB is the initrd where that lies and what the kernel loader left elsewhere |
| `Boot.ImageSurvivesBoot` | src/boot.rs:115-199 | after the whole sequence, MP table included, every PT_LOAD range still holds its image if and only if the initrd agrees with it wherever it covers it, as when it covers none of it |
| `Boot.InitrdOverwrites` | src/boot.rs:84-113 | a kernel and an initrd, both at 128 MiB, for which the boot succeeds and the image is overwritten |
| `Boot.BootGuest` | src/main.rs:315-320 | the same of the memory the boot code leaves; success exactly when everything fits, the MP table written only for more than one CPU; a failure leaves a prefix of the stores |
| `BootState.GuestFinds` | src/boot.rs:115-199 | after a successful boot of any number of CPUs memory holds the boot parameters at 0x7000, the command line and its terminator at 0x2_0000, descriptors at 0x500, 0x508 and 0x510 that the CPU reads as null, code and data, the initrd at 128 MiB and, for more than one CPU, an MP table found from 0xf_0000 |
| `BootState.LowRead` | src/boot.rs:422-481 | the three descriptors read back from memory field by field after everything stored later |
| `BootState.InitrdStays` | src/boot.rs:84-113 | the initrd is at 128 MiB, whole, after everything stored later |
| `MpTable.TableReadsBack` | src/mptable.rs:74-190 | for every CPU count, signature and timer wiring an independent parser walking by entry size lands on the stored length after the stored count and recovers the entries; the bytes sum to 0 mod 256 |
| `MpTable.EntriesMean` | src/mptable.rs:95-166 | CPU ids 0..n-1 in order with the given signature and features, enabled, CPU 0 the only boot processor; one ISA bus; one usable I/O APIC at 0xfec0_0000 with an id no CPU has; sixteen conforming pins routed to it; ExtINT and NMI on the local inputs of all CPUs |
| `MpTable.PinsMean` | src/mptable.rs:128-138 | the timer arrives on pin 0 or, with ExtINT on pin 0, on pin 2; every other interrupt on its own pin |
| `MpTable.PointerIsSound` | src/mptable.rs:175-182 | the floating pointer sums to 0 mod 256 and points at the table |
| `MpTable.ChecksumBalances` | src/mptable.rs:61-64 | storing the checksum in a zero byte makes the structure sum to 0 mod 256 |
| `MpTable.FilledHeader` | src/mptable.rs:168-173 | the backfilled length, count and checksum, and nothing else changed |
| `MpTable.ParseFrom` | src/mptable.rs:95-166 | from any entry on the parser finds the remaining entries and ends at the end of the encodings |
| `MpWriter.ComputeChecksum` | src/mptable.rs:61-64 | the loop computes the negated byte sum |
| `MpWriter.PushCpus` | src/mptable.rs:97-112 | one entry per CPU, counted |
| `MpWriter.PushPins` | src/mptable.rs:128-147 | sixteen pin entries, counted |
| `MpWriter.BuildTable` | src/mptable.rs:74-173 | the pushes and backfills build the specified table |
| `MpWriter.BuildPointer` | src/mptable.rs:175-182 | the floating pointer structure |
| `MpWriter.WriteMptable` | src/mptable.rs:74-190 | table, then pointer, stored exactly when the table fits |
| `MpWriter.GuestReadsTable` | src/mptable.rs:184-187 | afterwards a guest that follows the address in the floating structure parses the intended entries |
| `MpGuest.GuestReadsMp` | src/mptable.rs:74-190 | whatever memory held, a guest that checks the "_MP_" signature, length and sum at 0xf_0000 and follows the address reads revision 1.4, the OEM and product strings, the local APIC address 0xfee0_0000 and the intended entries |
| `MpGuest.ConfigReads` | src/mptable.rs:77-173 | the configuration table alone reads so, its bytes summing to 0 mod 256 and its entries filling its stored length |
| `Shutdown.StepKeeps` | src/input.rs:27-58 | every atomic step of any thread keeps the invariant |
| `Shutdown.AtMostOneMore` | src/vcpu.rs:24-49 | for any number of threads and any interleaving each vCPU starts at most one step_run once the flag is set, and a finished thread implies the flag is set |
| `Shutdown.NoNewEntries` | src/vcpu.rs:24-27 | the flag stays set and no thread passes the check any more |
| `Shutdown.KicksReachAll` | src/input.rs:38-53 | when a kick loop is done it has kicked every vCPU that is in step_run or ever enters it again; late registrants see the flag first |
| `Shutdown.FoundInside` | src/input.rs:38-53 | a finished kick loop has found inside step_run every vCPU that is there and entered before the flag was set |
| `Shutdown.MissedExactlyWhenPassed` | src/vcpu.rs:24-30 | from the state in which the flag is first set, some continuation leaves a vCPU running with a kick loop finished and no kick having found it inside, if and only if it had passed the check there |
| `Shutdown.ShutdownBounded` | src/vcpu.rs:24-49 | once the flag is set every interleaving ends: at most a number of steps fixed at that moment is taken |
| `Shutdown.NobodyStuck` | src/input.rs:38-53 | for every unfinished thread a step of it, or of the holder of the lock it waits for, is possible |
| `Shutdown.ShutdownCompletes` | src/vcpu.rs:24-49 | a run that cannot go on has finished every thread |
| `Shutdown.OnlyGuestsRemain` | src/vcpu.rs:24-49 | when the program has done all it can after the flag was set, every thread is finished, has made no request, or is a vCPU in step_run that the kick of the first request found there or that had passed the check |
| `Shutdown.PassedAtFlag` | src/vcpu.rs:24-30 | such a state is reached |
| `Shutdown.KickBeforeEntry` | src/input.rs:39-43 | from every state in which a request has set the flag and a vCPU has passed the check, a continuation kicks the vCPU before it enters step_run and leaves it running, unfound by any kick |

## Left out

- KVM and bhyve back ends, exit decoding, register setup and copying: foreign calls and field-by-field copies.
- Terminal mode, signal handling and the stdin loop: host I/O.
- Control registers and segment registers set next to the page tables and the GDT.
- Statistics, debug output, command-line configuration.
- Device-specific configuration reads of the back ends; the transport returns what they produce.
- Forwarding of CONFIG_DATA accesses from the root bus to a device, and the host bridge: the decoded slot and register
  are modelled, the map from slots to devices is not.
- Panics of a debug build: an unguarded integer sum that overflows wraps here, as it does in a release build.
- Tearing of multi-byte stores: a store to guest memory is one step, also when the driver runs concurrently.
- Memory ordering: stores become visible in program order, although the source has no fence between the used elements
  and the used index (src/memory.rs:98-107).
- `RingProtocol.ServeKeeps`: a byte that one callback loads twice is seen the same both times; otherwise the walk and the
  callback may have seen anything.
- `Device.Virtqueue.Process`: guest memory does not change under the call; the interleaved case is the state machine of
  `RingProtocol`, whose device steps are the loads and stores of this method.
- `PciDevice.VirtioPciDevice.MmioWrite`: the back end's handling of a notification is an argument; `DeviceRuns.OnNotify`
  says what it is for the two devices, and `Transport.NotifyBackend` puts them together.
- `Blk.VirtioBlk.WriteAllAt`: a host write either happens entirely or not at all; a fault in the middle of one buffer is not
  modelled.
- `BusModel.Bus`: the ordered map is a sorted sequence with binary search, not a B-tree; devices are states with a given
  behaviour, held by number.
- `Boot.LoadKernel`: the 4 KiB of boot parameters are a given block, the bzImage branch and the processor registers are not
  part of it.
- `Shutdown`: flag, lock and threads are values stepped by a transition function, because the threads run concurrently;
  lock poisoning and the delivery of the signal itself are not modelled. That a kicked guest does leave `step_run` is up
  to the host: `Return` is always possible and never forced.
- `UartModel`: the bit-field registers IER, MCR and MSR are kept decoded, one boolean per implemented bit;
  `UartModel.RegisterImages` and `UartModel.MsrImage` tie them to their bytes. Failures of the host output
  stream are ignored, as in the source.
