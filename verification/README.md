# hmCUDA in Dafny

A model of hmCUDA's data path and bookkeeping, with proofs: a guest program's CUDA calls
go through an intercept library, an ioctl, a guest kernel driver and a virtqueue to a
vhost-user handler that calls CUDA.

- `Api`: constants, widths and result types that the layers share.
- `Memory`, `ScatterList`, `Batches`: byte memories, address lists, the cutting of a user
  range into batches of at most 512 pinned pages, and greedy merging of adjacent pages.
- `Resources`, `Contexts`, `Patching`, `Chunks`: the host's resource table, context life cycle
  and handles, the translation of guest pointers embedded in pinned buffers, and what chunk by
  chunk translation leaves of a list of chunks.
- `Vhost`: the host's chunk loops and the placement of the response.
- `Driver`, `Copy`, `EndToEnd`: the driver's copy loop against those host loops, and what a
  caller gets: exact copies in each direction, the round trip, the pull and push of a pinned
  buffer, pinned allocation.
- `Interference`: the copy loop with other threads' commands between its batches.
- `Coherence`: guest and backend copy of every pinned buffer as one logical buffer;
  `Transfers`: its pushes, pulls, fills and allocations as copies that the driver runs.
- `ShadowState`: the guest's indices against the host's table.
- `Virtqueue`: any number of ioctl threads sharing the queue.
- `Framing`: variable-length requests; `Responses`: what comes back; `Requests`: copy requests
  as bytes, rewritten in place for every batch; `ParamCount`: the kernel parameter counter.
- `MatMul`: the tiled sample kernel against the naive one, under its barriers.

`dafny verify dfyconfig.toml` checks everything.

## How the code is modelled

- C linked lists are sequences, head first; list heads, tables and registries are fields
  that methods reassign. Pointers are addresses into two byte memories: guest-physical
  memory, and one for device memory and pinned host buffers.
- 64-bit wrap-around is written out where handles, ranges and addresses are added; copies
  are over user ranges that do not wrap, and whose page count does not (`Batches.PagesLeftIff`).
- CUDA's answers, page-pinning results, `virtqueue_add_sgs` and allocation failures are
  oracle functions of the call number; the theorems hold for all of them. `malloc`,
  `cuMemAlloc` and the like return ranges apart from the live ones.
- A copy is complete when it is submitted; every chain pushed raises one interrupt, and the
  callback runs once for it.
- The loops of `handle_memcpy` and `handle_cu_memcpy` are the same up to the lookups they
  use; one model serves both, with a flag. Each command's way through `hmcuda_process_vq`
  is one `Serve` method.
- The mutex is free between the batches of a copy, and other threads' commands do run there
  (`Virtqueue`). `EndToEnd` is about copies that none of them interferes with; `Interference`
  lets them run and asks only that they leave alone what the copy uses. The context that
  `hmcuda_ctx_get` finds is fixed during a copy.
- `Coherence` takes a transfer as its outcome: how many bytes got across, and whether it
  failed; `Transfers` runs it. Buffers from `malloc` are word-aligned.
- An entry of a failed allocation, or of a free that never reached the host, stays in the
  host's table, and `malloc` may give its block out again: a live buffer is asked to be apart
  from newer entries only.
- `sync_host_mem_arg` does not clear the dirty bit, although a comment at its call says so
  (`guest/intercept/hmcuda_runtime.cpp:170-171`); the model follows the code.
- A kernel reaches pinned buffers through base pointers among its argument words.

## Model

| member | source | states |
|---|---|---|
| `EndToEnd.CopyToDevice` | driver/virtio_hmcuda_main.c:191-340 | A kind-1 copy into one live device allocation leaves the device memory equal to the old one with exactly the first k user bytes spliced in at the translated address, all of them if it reports no error; guest memory differs at most inside the response buffer; pins are balanced and the mutex free on every exit; it does succeed when nothing fails |
| `EndToEnd.CopyFromDevice` | driver/virtio_hmcuda_main.c:279-302 | A kind-2 copy changes no backend byte and fills the first k bytes of the user range (distinct frames), all of it on success, with exactly the device bytes; outside them only the response buffer changes, so the response never lands on a data byte |
| `EndToEnd.CopyToPinned` | host/vhost/cmd_driver.c:84-101 | A kind-1 driver-API copy to a pinned buffer that no newer entry overlaps, from any user address, stores the first k user bytes patched chunk by chunk, all of them on success, and the chunks end on page boundaries of the user range; from a word-aligned address, as malloc gives out, that is the patched prefix as a whole |
| `EndToEnd.CopyFromPinned` | host/vhost/cmd_driver.c:106-128 | A kind-2 driver-API copy out of a pinned buffer, to any user address, patches nothing: the first k bytes of the user range, all of it on success, get exactly the backend bytes, the backend and both tables stay, and nothing but range and response buffer changes |
| `EndToEnd.PullThenPush` | guest/intercept/hmcuda_driver.cpp:369-384 | A pull of pinned bytes to the user followed by the push of the same bytes back patches them; from a word-aligned address they arrive patched as a whole, and, when backend ranges look like no guest range, the backend is unchanged exactly when no whole word of them lies in a pinned range; so bytes once pushed come back as they are |
| `EndToEnd.RoundTrip` | host/vhost/cmd_runtime.c:66-127 | Kind 1 then kind 2, with independent page tables, addresses and lengths, returns the original bytes if no two pages of the receiving range share a frame; and both succeed when nothing fails |
| `Transfers.PushBuffer` | guest/transport/hmcuda_transport.cpp:264-283 | sync_host_mem_arg of a clean buffer, run as a copy: the k bytes that get across, all of them when nothing fails, make exactly the registry protocol's push of k bytes out of guest and backend memory |
| `Transfers.PullBuffer` | guest/intercept/hmcuda_driver.cpp:369-384 | The pull of a dirty buffer, run as a copy: whatever fails, guest and backend memory are as the protocol's pull of the k bytes that arrived leaves them, with the bit cleared exactly on success |
| `Transfers.FillBuffer` | host/vhost/cmd_runtime.c:106-127 | A copy from a device to any place in a buffer, run by the driver: what arrives makes exactly the protocol's fill of the guest copy, of a dirty buffer too, and the backing copy stays |
| `Transfers.AllocBuffer` | guest/intercept/hmcuda_driver.cpp:311-339 | cuMemHostAlloc run by the driver: success makes the protocol's allocation, with the malloc'ed bytes in both copies whatever was allocated before; a failure leaves no trace or the failed allocation's entry, as the host's table says |
| `Interference.CopyAmongOthers` | driver/virtio_hmcuda_main.c:223-332 | With other threads' commands in every pause between batches, commands that leave the job's backend range, the user's frames, the response buffer and the entries of its addresses alone, the copy ends as one that nobody interferes with, from a state with the same bytes to copy to the same place; it still succeeds when nothing fails |
| `Interference.LoopRebased` | driver/virtio_hmcuda_main.c:292-318 | What such commands do between two batches is as if they had done it before the copy |
| `Interference.StillArrives` | driver/virtio_hmcuda_main.c:223-332 | So the destination holds the user's first k bytes, patched in word-aligned pinned memory, or the user range the first k bytes of the backend range |
| `Interference.OtherCopy` | driver/virtio_hmcuda_main.c:223-332 | Another copy, finished or failed, is a command of that kind when its user range, response and written backend range are apart from the job's |
| `EndToEnd.AllocPinned` | host/vhost/cmd_driver.c:148-172 | A pinned allocation makes one backend allocation when a byte was moved and none otherwise; the buffer holds exactly the bytes moved, and no byte is stored twice; success means all of them; a failure leaves a table entry exactly when some bytes were moved |
| `EndToEnd.Delivered` | host/vhost/vhost_user_hmcuda.c:161-177 | Data delivered over many batches survives every response, and nothing outside data and response buffer changes |
| `EndToEnd.DistinctFramesInjective` | driver/virtio_hmcuda_main.c:228-230 | If the pages of a range lie in distinct frames, every user byte of it has its own physical address |
| `Copy.GuestDriver.DoMemcpyGup` | driver/virtio_hmcuda_main.c:191-340 | The whole loop, for ranges whose page count does not wrap: on every exit pins equal unpins and the mutex is free, exactly the first k bytes of the job are committed, a kernel error leaves whole page-aligned batches, no error and k short means a CUDA error in the response, and the batches number what the page count says |
| `Copy.GuestDriver.Turn` | driver/virtio_hmcuda_main.c:210-332 | One turn commits its batch and starts the next on a page boundary, or ends the copy with its result |
| `Copy.GuestDriver.Batch` | driver/virtio_hmcuda_main.c:228-332 | Pins all pages of the batch or none and returns every pin; the batch is served as a whole up to the failing chunk; the kernel error is that of the pin, a fault when it falls short, or that of the queue |
| `Copy.GuestDriver.PinUserPages` | driver/virtio_hmcuda_main.c:228-229 | A prefix of the pages is pinned, each to its frame, all of them exactly when the kernel allows that many and all are present, or nothing with the kernel's negative result |
| `Copy.GuestDriver.PinBatch` | driver/virtio_hmcuda_main.c:228-235 | All pages exactly when the kernel pins all; a partial pin is undone and becomes a fault, a negative result is passed on |
| `Copy.GuestDriver.Submit` | driver/virtio_hmcuda_main.c:292-318 | Under the mutex, a refused chain moves nothing, an accepted one is served once; the mutex is released either way |
| `Copy.GuestDriver.KickIn` | driver/virtio_hmcuda_main.c:299-302 | Host-to-device layout: request alone in the first readable descriptor, data behind it, response alone writable; the host's answer is what the driver reads back |
| `Copy.GuestDriver.KickOut` | driver/virtio_hmcuda_main.c:303-304 | Device-to-host layout: data descriptors before the response among the writable ones; the answer is intact behind the data |
| `Copy.GuestDriver.KickAlloc` | driver/virtio_hmcuda_main.c:271-274 | Allocation batches carry their byte offset; only the one at offset 0 allocates |
| `Requests.Rewrite` | driver/virtio_hmcuda_main.c:268-290 | The per-batch update, byte by byte in place: the host then reads exactly the request of this batch, with no user address in it, and command, flags and stream stay as the caller gave them |
| `Requests.ReadBack` | common/include/hmcuda_cmd_runtime.h:29-37 | A copy or allocation request is read from its bytes, at the offsets of the structure and by its command word, as it was written, and is as long as both sides take it to be |
| `Copy.Continue` | driver/virtio_hmcuda_main.c:231-332 | After a batch without error the next one is page-aligned and one batch fewer is left |
| `Copy.Pinned` | driver/virtio_hmcuda_main.c:247-263 | The coalesced list of a pinned batch denotes exactly the user's bytes of that batch, and every entry but the last ends on a page boundary |
| `Copy.InServed` | host/vhost/cmd_driver.c:84-101 | A batch of which some chunks were sent extends the committed prefix by exactly their bytes, still cut on page boundaries only, and its error reads back |
| `Copy.OutDone` | host/vhost/cmd_driver.c:106-128 | A batch of which d bytes were delivered extends the delivered prefix by exactly those bytes, and its error reads back |
| `Driver.ResponseRoundTrip` | driver/virtio_hmcuda_main.c:323-330 | The error field that the driver reads is the one the host wrote, for every 32-bit error |
| `Batches.BatchShape` | driver/virtio_hmcuda_main.c:210-217 | Where the page count does not wrap, a batch is never empty, fills its pages with none idle, and all but the last end on a page boundary |
| `Batches.BatchTotals` | driver/virtio_hmcuda_main.c:196-230 | Where the page count does not wrap, pages over all batches sum to the pages of the range, and the batches number that total divided by 512, rounded up |
| `Batches.PagesLeftIff` | driver/virtio_hmcuda_main.c:198-227 | The 64-bit page count of a range is the number of its pages exactly if offset and length sum to at most 2^64 - 4096 |
| `Batches.NoPagesIff` | driver/virtio_hmcuda_main.c:227-229 | Of the ranges that do not themselves wrap, exactly the others get no page at all |
| `Batches.LoopIsStuck` | driver/virtio_hmcuda_main.c:223-333 | A page-aligned range of more than 2^64 - 4096 bytes pins nothing and advances by nothing in every turn |
| `Batches.LoopEndsIff` | driver/virtio_hmcuda_main.c:223-333 | Without errors the loop over a range that does not itself wrap ends exactly if the page count does not wrap or the range starts inside a page |
| `ScatterList.BatchDenotesUserBytes` | driver/virtio_hmcuda_main.c:247-263 | The coalesced list denotes exactly the user bytes of the batch in order, with no empty entry and no two entries that could be one, and every entry but the last ends on a page boundary |
| `ScatterList.Coalesce` | driver/virtio_hmcuda_main.c:247-263 | The loop fills the table with that list and leaves no byte over |
| `ScatterList.PlacePage` | driver/virtio_hmcuda_main.c:251-262 | Comparing frame numbers merges exactly the pages whose bytes are adjacent |
| `ScatterList.MergeKeeps` | driver/virtio_hmcuda_main.c:254-261 | Greedy merging keeps the bytes denoted and their order |
| `ScatterList.GreedyIsMinimal` | driver/virtio_hmcuda_main.c:247-263 | No list of physically contiguous pieces with the same bytes, wherever it cuts, has fewer entries |
| `Vhost.Host.CopyIn` | host/vhost/cmd_driver.c:84-101 | The host-to-device loop sends the descriptors one chunk each, in order, to consecutive backend addresses, each patched on its own for a pinned destination, and all requested bytes without error; the error is that of the first CUDA call to fail, after which none is made, or that of the missing context, target or patch buffer; too little data is refused untouched |
| `Vhost.Host.SendChunk` | host/vhost/cmd_driver.c:91-97 | The chunk at an offset, resolved afresh, lands at that offset of the same backend range, or fails with no change |
| `Vhost.Host.CopyOut` | host/vhost/cmd_runtime.c:106-127 | The device-to-host loop scatters exactly the first k source bytes over the data descriptors, all of them without error; the error is that of the first CUDA call to fail; too small a buffer is refused untouched |
| `Vhost.Host.HtodVq` | host/vhost/core_driver.c:406-456 | One chunk: the missing context, the unknown destination, the pinned destination patched through a private buffer when the scan asks for it, failing exactly when that buffer cannot be had, and the device destination with the answer of its one CUDA call, each with its outcome |
| `Vhost.Host.DtohVq` | host/vhost/core_driver.c:514-543 | One chunk from device memory with the answer of its one CUDA call, or from pinned memory with none, unpatched; or an error and no change |
| `Vhost.Host.Translate` | host/vhost/core_driver.c:431-454 | The bytes stored are the patched ones whether or not the scan takes the short way |
| `Vhost.Host.HostAllocVq` | host/vhost/core_driver.c:316-352 | Only the chunk at offset 0 allocates and registers; every chunk lands at its own offset of the one buffer |
| `Vhost.Host.AllocPinned` | host/vhost/core_driver.c:316-345 | One CUDA call allocates and its answer is the result; the buffer is registered under the guest address with its size, its device view exactly when CUDA gives one, and no other list changes |
| `Vhost.Host.FillPinned` | host/vhost/cmd_driver.c:148-172 | All chunks of a batch fill consecutive stretches of the buffer; the table has its entry exactly when a byte was copied |
| `Vhost.Host.ServeIn` | host/vhost/vhost_user_hmcuda.c:94-182 | A popped host-to-device chain is pushed with its response at the start of the writable part; the descriptors' bytes are at the destination, one chunk a descriptor, up to the failing chunk |
| `Vhost.Host.ServeOut` | host/vhost/vhost_user_hmcuda.c:161-177 | A popped device-to-host chain has its response in the last writable descriptor, over the scattered data nowhere |
| `Vhost.Host.ServeAlloc` | host/vhost/vhost_user_hmcuda.c:94-182 | A popped allocation chain fills the buffer and is answered |
| `Vhost.Host.BufToIov` | host/vhost/vhost_user_hmcuda.c:54-67 | Fills the descriptors in order until the buffer or the room runs out |
| `Vhost.Host.PlaceResponse` | host/vhost/vhost_user_hmcuda.c:161-171 | The response is whole, in the last writable descriptor of a device-to-host chain and in the first otherwise |
| `Vhost.InsideOneAllocation` | host/vhost/resource.c:127-145 | A range inside one device allocation that no newer entry overlaps resolves to consecutive real addresses |
| `Vhost.InsideOnePinnedBuffer` | host/vhost/core_driver.c:419-429 | A range inside one pinned buffer that no newer entry overlaps, apart from device memory, resolves to consecutive real addresses through the fallback |
| `Vhost.LookupChecksStartOnly` | host/vhost/resource.c:134-136 | From any address inside an allocation with no live range right behind it, a copy of any length resolves, but its bytes are backed exactly when it ends inside the allocation |
| `Vhost.RuntimeKnowsDeviceOnly` | host/vhost/core_runtime.c:163-179 | A runtime copy finds nothing at an address outside device memory, pinned or not |
| `Vhost.NextEntry` | host/vhost/cmd_driver.c:91-97 | The loop takes descriptors in order, clamps only the last chunk, and never takes an empty one |
| `Resources.LookupIsIntervalMap` | host/vhost/resource.c:127-145 | Over disjoint live ranges, lookup of handle+k is real+k exactly for k below the size, and NULL exactly outside all ranges |
| `Resources.RangeTestExact` | host/vhost/resource.c:134 | The wrapping range test is the interval test for every handle exactly when the range is empty or ends below 2^64 |
| `Resources.RulerResolves` | host/vhost/resource.c:127-145 | An entry apart from all newer ones resolves, whatever older entries, left behind by failed calls, its range overlaps |
| `Resources.ExactLookup` | host/vhost/resource.c:127-145 | For every type but device and pinned memory, a handle leads to the object of the newest entry with exactly that handle |
| `Resources.UnknownLookup` | host/vhost/resource.c:127-145 | ... and to nothing when there is none |
| `Resources.OrderIrrelevant` | host/vhost/resource.c:116-145 | Lists with the same entries resolve alike in any order |
| `Resources.RemovalIsLocal` | host/vhost/resource.c:147-160 | Removing a live range takes away exactly that range |
| `Resources.RemovedOnce` | host/vhost/resource.c:147-160 | A removed non-empty range is gone |
| `Resources.RemovedNewest` | host/vhost/resource.c:147-160 | Removal takes out exactly the newest entry with the handle, from its place in the list |
| `Resources.Context.AddWithHandle` | host/vhost/resource.c:116-125 | The new entry heads its list; other lists keep theirs |
| `Resources.Context.Get` | host/vhost/resource.c:127-145 | The list walk returns the first match, by range or by handle according to the type |
| `Resources.Context.Remove` | host/vhost/resource.c:147-160 | The splice drops the first entry with the handle and says whether there was one |
| `Resources.Context.GetHandle` | host/vhost/resource.c:162-174 | The reverse walk returns the first entry with the real pointer, 0 for NULL |
| `Resources.HandleOfNewest` | host/vhost/resource.c:162-174 | The reverse walk gives the handle of the newest entry with the object |
| `Contexts.Registry.Init` | host/vhost/core_runtime.c:34-42 | A first or repeated init leaves exactly one, empty context under the key and everybody else's as they were; a repeated one releases every owning entry of the old context and frees every node, each exactly once |
| `Contexts.Registry.PrimaryCtxRetain` | host/vhost/core_driver.c:60-96 | Retain keeps contexts unique; a failed first attempt empties the table and releases all it held exactly once, a failed retry reports, a success puts the context, under the next handle, before what its list kept, and releases nothing |
| `Contexts.Registry.CtxDestroy` | host/vhost/resource.c:78-94 | Unlinks the context alone, then, over its whole table, makes cudaFree for device memory, cudaStreamDestroy for streams, cudaEventDestroy for events, cuMemFreeHost for pinned memory and cuMemRelease for generic allocations, once per occurrence and never for NULL, makes no other call, and frees each node once |
| `Contexts.Registry.FreeResourceList` | host/vhost/resource.c:47-76 | Every entry that owns an object is released, in list order, and every node freed |
| `Contexts.WholeTableOnce` | host/vhost/resource.c:78-94 | Walking a whole table makes each of the five release calls, for every pointer, as often as the pointer occurs in the list of that call's type, and frees every node of every list as often as it is there |
| `Contexts.ReleasedOnce` | host/vhost/resource.c:47-76 | In one list each owning entry is released by the call of its type as often as it occurs, and nothing else is |
| `Contexts.WithoutIsLocal` | host/vhost/resource.c:78-88 | Unlinking from a unique list frees the key and leaves the other contexts in place |
| `Contexts.OthersAppend` | host/vhost/resource.c:25-35 | Everybody else is those whose session or machine differs, in list order |
| `Contexts.Registry.CtxGet` | host/vhost/resource.c:25-35 | Finds the first context of the key |
| `Contexts.Registry.Add` | host/vhost/resource.c:96-114 | A device entry reserves a handle range as wide as its allocation, every other one a single handle |
| `Contexts.HandlesNeverClash` | host/vhost/resource.c:96-114 | Over every run of additions of any type in any context that does not wrap the counter, handles strictly increase, device ranges clear every later handle, and each handle is 0x10000001 plus what was consumed before it, so none is 0, 1 or 2 |
| `Contexts.PushPopStream` | host/vhost/core_runtime.c:383-420 | After every run of stream creations, destructions, other handles issued and context resets, pushing and popping a launch configuration returns the stream handle exactly for sentinels and live streams, and 0 for any other |
| `Contexts.PopAfterOthers` | host/vhost/core_runtime.c:383-420 | With any stream operations between push and pop: a sentinel and a stream that lives on report their handle, a handle dead at the push reports 0, and that of a stream destroyed since reports 0 or, if the real stream was given out again, its new, larger handle |
| `Contexts.StreamRunKeepsOk` | host/vhost/core_runtime.c:277-292 | Over every such run stream handles and real streams stay distinct and apart from the sentinels |
| `Contexts.StreamsOkRemoved` | host/vhost/core_driver.c:150-163 | Removing a stream, known or not, keeps the others distinct |
| `Contexts.StepLives` | host/vhost/core_driver.c:150-163 | Which handles are live, and which was issued last, after each step of those runs |
| `Contexts.Registry.StreamCreate` | host/vhost/core_runtime.c:277-292 | Adds one stream under the next counter handle when CUDA succeeds, and changes nothing otherwise: a step of those runs |
| `Contexts.Registry.StreamDestroy` | host/vhost/core_driver.c:150-163 | Refuses an unknown handle; otherwise the entry goes, whatever CUDA answers: a step of those runs |
| `Patching.PatchEmbedded` | host/vhost/resource.c:192-210 | The in-place loop rewrites every whole word that lies in a pinned range and leaves a short tail alone |
| `Patching.BufferNeedsPatch` | host/vhost/resource.c:176-190 | The scan finds a hit exactly when some whole word lies in a range |
| `Patching.NeedsPatchIff` | host/vhost/resource.c:176-190 | The scan is true exactly when some whole word of the buffer, by position, points into some entry's range |
| `Patching.PatchWordIs` | host/vhost/resource.c:199-206 | A word inside the range of an entry that no newer one overlaps becomes the entry's real pointer plus its offset into the range; a word inside none stays |
| `Patching.PatchIsWordwise` | host/vhost/resource.c:192-210 | Every whole word is translated on its own, and the tail shorter than a word is left alone |
| `Patching.PointerIsTranslated` | host/vhost/resource.c:204 | A pointer k bytes into a pinned buffer arrives as the pointer k bytes into the backend buffer, for every k below the size |
| `Patching.OtherWordsStay` | host/vhost/resource.c:199-206 | A word that points into no range arrives as it is |
| `Patching.PatchSkippable` | host/vhost/core_driver.c:431-454 | Skipping the patch when the scan finds nothing changes no result |
| `Patching.ChunksPatchAlike` | host/vhost/cmd_driver.c:91-97 | Patching chunk by chunk equals patching the whole buffer when only the last chunk may end inside a word |
| `Chunks.PageChunksAreWords` | host/vhost/cmd_driver.c:91-97 | From a word-aligned user address, chunks cut on page boundaries are whole words but for the last |
| `Chunks.PageChunksAppend` | driver/virtio_hmcuda_main.c:210-217 | The chunks of a batch that starts on a page continue those before it with no cut inside a page |
| `Patching.CutIsHarmlessIff` | host/vhost/resource.c:192-210 | A cut is harmless for every table that can arise and every content exactly when it falls on a word boundary or in the short tail |
| `Patching.SplitPointerIsMissed` | host/vhost/resource.c:196 | A pointer to any pinned buffer whose two addresses differ in the low byte is not translated when a chunk boundary cuts it |
| `Patching.PatchIdempotent` | host/vhost/resource.c:192-210 | Patching patched bytes again changes nothing when backend ranges look like no guest range |
| `Patching.PatchFixpointIff` | host/vhost/resource.c:176-210 | Under the same condition patching leaves a buffer as it is exactly when the scan finds no hit in it |
| `Memory.LittleEndian8` | common/include/hmcuda_types.h:144-147 | A word of eight bytes is read with its low byte first |
| `Coherence.RunRefines` | guest/transport/hmcuda_transport.cpp:222-283 | Over every run of allocation, CPU reads and writes, launches, copies by each of their routes, and frees, failing and partial ones and allocations that leave an entry behind included, in which each step meets its condition (`Coherence.Intact`), the two copies are one logical buffer, and every kernel, every copy and the CPU see its contents (kernels translated after CPU use) |
| `Coherence.StepRefines` | guest/intercept/hmcuda_driver.cpp:369-478 | Each such operation does to the two copies what it does to the one buffer and shows kernels, copies and the CPU the same bytes |
| `Coherence.LaunchSees` | guest/intercept/hmcuda_runtime.cpp:170-178 | Pre-launch pushes that get all across give a kernel the logical contents of every buffer it is passed |
| `Coherence.LaunchRefines` | guest/intercept/hmcuda_runtime.cpp:150-192 | Push, run, mark: each passed buffer becomes the kernel's result, all others stay |
| `Coherence.ResultReachesNextKernelIff` | guest/transport/hmcuda_transport.cpp:264-283 | Over every run that does not rewrite the buffer: a kernel's result reaches the next kernel given it exactly if no checked copy to a device pulled it in between, or no whole word of it lies in a range of the host's table |
| `Coherence.ResultLost` | guest/intercept/hmcuda_driver.cpp:381-382 | A run in which it does not: the pull before a copy to a device clears the bit, and the next push translates the pointer the kernel stored |
| `Coherence.ResultsSurvivePushes` | guest/transport/hmcuda_transport.cpp:269-271 | While the bit is set, no push overwrites a kernel's result |
| `Coherence.ViewIsContentsIff` | host/vhost/core_driver.c:431-454 | A kernel sees the logical contents untranslated exactly when a kernel had the buffer last or no whole word of it lies in a pinned range |
| `Coherence.CpuReadIff` | guest/transport/hmcuda_transport.cpp:222-225 | Over reachable states, a CPU read sees the logical contents of a non-empty buffer, whatever they are, exactly when its bit is clear |
| `Coherence.CpuWriteIff` | guest/transport/hmcuda_transport.cpp:269-271 | A CPU write becomes the logical contents exactly when the bit is clear; otherwise no push sends it |
| `Coherence.ToDeviceIff` | guest/intercept/hmcuda_driver.cpp:386-409 | A copy from anywhere in a buffer to a device sends and keeps its contents, over reachable states and whatever they are: past the guest copy (device address not in the index) exactly for dirty buffers or no bytes; through it exactly for clean buffers, or whole dirty ones whose base the registry finds, or no bytes |
| `Coherence.DirectCopyMissesWrite` | guest/intercept/hmcuda_driver.cpp:427-435 | A run in which cuMemcpyAsync to a device address outside the index sends zeros although the CPU wrote ones |
| `Coherence.DirectCopyIsMissed` | guest/intercept/hmcuda_driver.cpp:427-435 | A run in which what cuMemcpyAsync brings from such an address is never read by the CPU, and the next push overwrites it |
| `Coherence.FromDeviceIff` | guest/intercept/hmcuda_driver.cpp:410-435 | A copy from a device to anywhere in a buffer fills it and keeps the rest, over reachable states and whatever it holds: past the guest copy exactly for dirty buffers or no bytes; through it exactly for clean buffers, or dirty ones filled whole from a base that the registry finds, or no bytes |
| `Coherence.LaunchIff` | guest/transport/hmcuda_transport.cpp:282 | A launch keeps what the CPU wrote, over reachable states and whatever it is, exactly when the buffer was dirty or its push got all across |
| `Coherence.FillIs` | guest/intercept/hmcuda_driver.cpp:465-478 | In every state, byte by byte: a copy from a device past the guest copy changes these bytes of the backing copy, any other these of the guest copy, dirty or not; only one to a base that looks at the registry clears the bit; other buffers keep everything |
| `Coherence.ToDeviceIs` | guest/intercept/hmcuda_driver.cpp:369-384 | In every state: only a registry-checked copy of a dirty base changes anything, namely the first pulled bytes of the guest copy, and its bit survives a failed pull |
| `Coherence.LaunchIs` | guest/intercept/hmcuda_runtime.cpp:150-192 | In every state, failed or not, a launch leaves every passed buffer dirty and no CPU copy changed; buffers not passed keep both copies and the bit |
| `Coherence.AllocIs` | guest/intercept/hmcuda_driver.cpp:311-339 | A new buffer, the first or a later one, is clean with the same bytes in both copies, and its entry comes before all others |
| `Coherence.FreeIs` | guest/intercept/hmcuda_driver.cpp:341-353 | A freed buffer is gone from the registry, its newest entry from the host's table if the host was told, and nothing else |
| `Coherence.ReachedIsHeld` | guest/transport/hmcuda_transport.cpp:228-242 | In every state some allowed run leads to, failed operations and allocations and lost frees included, the registered buffers lie apart, and each non-empty one has an entry that no newer one overlaps |
| `Coherence.BufferResolves` | host/vhost/core_driver.c:37-42 | So whatever was left behind in the table, every address inside a registered buffer resolves to its place in one backend range |
| `Coherence.GuestLibrary.LaunchKernel` | guest/intercept/hmcuda_runtime.cpp:170-192 | The argument loops push, run and mark as one protocol step, with pushes that fall short and a dispatch that fails: the marks are set all the same |
| `Coherence.GuestLibrary.SyncHostMemArg` | guest/transport/hmcuda_transport.cpp:264-283 | Pushes as much of a known clean buffer as gets across and leaves its bit alone, whatever the dispatch returns; a dirty or unknown one is left |
| `Coherence.GuestLibrary.MemcpyHtoD` | guest/intercept/hmcuda_driver.cpp:438-458 | From any address in a pinned buffer: a dirty base is pulled first, a failed pull, short or not, keeps the bit and ends the copy, a successful one clears it; any other address is sent as the guest copy has it |
| `Coherence.GuestLibrary.MemcpyAsyncToDevice` | guest/intercept/hmcuda_driver.cpp:386-435 | Through the guest copy exactly if the index holds the device address, otherwise from the backend copy, whatever the bit says |
| `Coherence.GuestLibrary.MemcpyAsyncFromDevice` | guest/intercept/hmcuda_driver.cpp:386-435 | The same for the other direction: outside the index the data goes to the backend copy and guest copy and bit stay |
| `Coherence.GuestLibrary.RuntimeMemcpyToDevice` | guest/intercept/hmcuda_runtime.cpp:115-124 | Sends the guest copy and asks neither registry nor index |
| `Coherence.GuestLibrary.RuntimeMemcpyFromDevice` | guest/intercept/hmcuda_runtime.cpp:115-124 | Fills the guest copy and leaves the bit |
| `Coherence.GuestLibrary.MemcpyDtoH` | guest/intercept/hmcuda_driver.cpp:465-478 | Fills the guest copy from any address in the buffer with what arrived; a base becomes the copy that counts, after a failure too, any other address leaves the bit |
| `Coherence.GuestLibrary.MemHostAlloc` | guest/intercept/hmcuda_driver.cpp:311-339 | Registers a clean buffer on success; a failure registers nothing here and leaves an entry at the host exactly if bytes had moved: a step of the runs either way |
| `Coherence.GuestLibrary.MemFreeHost` | guest/intercept/hmcuda_driver.cpp:341-353 | Refuses unknown and empty buffers; otherwise the guest forgets the buffer, and the host does exactly if the dispatch reached it |
| `Coherence.TranslateArgs` | host/vhost/core_runtime.c:218-236 | The in-place loop leaves, at every position: the address of the same byte in the device allocation the word pointed into, whatever is pinned; else in the backend copy of the pinned buffer; else the word itself |
| `Coherence.ArgReachesBacking` | host/vhost/core_runtime.c:222-235 | A word inside a pinned buffer that no newer entry overlaps, and in no device allocation, becomes the address of the same byte of the backend copy |
| `Coherence.ArgReachesDevice` | host/vhost/core_runtime.c:222-225 | A word inside a device allocation becomes the real address of the same byte, whatever the pinned table holds; under the identity of device handles it stays |
| `ShadowState.Session.Allocate` | guest/intercept/hmcuda_driver.cpp:292-302 | Driver-API allocation and reservation add one handle on both sides, or none; exactly the addresses of its size become live, each as itself |
| `ShadowState.Session.Free` | guest/intercept/hmcuda_driver.cpp:304-309 | A driver-API free keeps both sides equal for base, interior, foreign and unknown addresses: the base leaves index and table, exactly its range stops resolving, and an address in no live range is refused |
| `ShadowState.Session.HostFree` | host/vhost/core_driver.c:302-314 | Any live address is accepted, only a base takes an entry out, and then exactly that entry's range stops resolving; others are refused as invalid |
| `ShadowState.Session.RuntimeFree` | host/vhost/core_runtime.c:92-106 | A runtime free takes a base out of the table and of the runtime's handles, and exactly its range stops resolving; an address in no live range is refused as invalid; the index stays right exactly when the address is no driver-API handle |
| `ShadowState.Session.RuntimeMalloc` | host/vhost/core_runtime.c:72-90 | A runtime allocation is its own handle over exactly its size and leaves the index alone; one of no bytes adds an entry at NULL, and no lookup changes |
| `ShadowState.Session.IndexIs` | guest/intercept/hmcuda_driver.cpp:386-392 | The index holds exactly the bases of live driver-API allocations, so neither an address inside one nor a runtime allocation |
| `ShadowState.Session.HostAlloc` | guest/intercept/hmcuda_driver.cpp:311-339 | A pinned allocation run through the copy loop: the bytes moved are in the new backend buffer, and two sides that knew the same buffers still do exactly when the call succeeded or moved nothing; every buffer the guest knows is served either way, also from a block that malloc gave out before; it succeeds when nothing fails, and a NULL malloc asks nobody |
| `ShadowState.Session.FreeHost` | guest/intercept/hmcuda_driver.cpp:341-353 | A pinned free refuses unknown and empty buffers, keeps every other buffer served, takes the entry out of the host's table exactly if it reached the host, and keeps both sides equal exactly if it refused or reached the host |
| `ShadowState.LookupIdentity` | host/vhost/core_driver.c:293-295 | Device lookup is the identity on live addresses and NULL elsewhere |
| `ShadowState.RemovedBases` | host/vhost/resource.c:147-160 | Removal takes exactly one base out of the index view of a list |
| `ShadowState.RemovedSizes` | host/vhost/resource.c:147-160 | ... with its size |
| `ShadowState.RemovedLookups` | host/vhost/resource.c:147-160 | Removal ends exactly the lookups inside the removed range |
| `ShadowState.AllocFree` | host/vhost/core_runtime.c:72-106 | An allocation and its free leave the table as it was |
| `Virtqueue.Safety` | driver/virtio_hmcuda_main.c:292-318 | For any number of threads and any interleaving: at most one chain is outstanding, the waiter holds the mutex, chains are pushed once each in order; and read off the steps of the run alone, the i-th chain on the way or collected carries the i-th request submitted, header and length, by the thread that submitted it, and the i-th submission to finish collected the response to its own request |
| `Virtqueue.RunKeepsInv` | driver/virtio_hmcuda_main.c:345-374 | The invariant holds after every run |
| `Virtqueue.RunRecorded` | driver/virtio_hmcuda_main.c:295-314 | After every run the queue, the host and the threads agree with the record of what was submitted and who returned |
| `Virtqueue.NobodyIntervenes` | driver/virtio_hmcuda_main.c:292-318 | From lock to unlock only the holder moves: other threads intervene between batches |
| `Virtqueue.SomebodyCanMove` | driver/virtio_hmcuda_main.c:68-72 | While the mutex is held some step is possible: no wake-up is lost |
| `Virtqueue.SubmissionsAreShort` | driver/virtio_hmcuda_main.c:345-374 | A submission ends within nine steps of driver, host and callback |
| `Framing.Forward` | driver/virtio_hmcuda_main.c:80-148 | From the guest library through both size passes and the copy to the host's dispatch on the command word and its decoding: the message decoded is the message sent exactly when its count fits the field that carries it |
| `Framing.CommandBytes` | common/include/hmcuda_types.h:34-135 | The bytes of the command word of each request on the wire |
| `Framing.CommandRoundTrip` | host/vhost/cmd_runtime.c:190-320 | The host's dispatch takes a word for a command exactly when it is that command's |
| `Framing.LaunchOnWire` | common/include/hmcuda_cmd_runtime.h:39-55 | Every field of a launch request and every argument word at its byte offset, little-endian |
| `Framing.AccessOnWire` | common/include/hmcuda_cmd_driver.h:339-352 | Every field of an access request and of each descriptor at its byte offset |
| `Framing.ImageOnWire` | common/include/hmcuda_cmd_runtime.h:108-123 | The fields of fat binary and function registration at their byte offsets, the image or name behind them |
| `Framing.SecondPassExact` | driver/virtio_hmcuda_main.c:92-109 | The second size pass never exceeds what was serialized and equals it exactly when the count fits |
| `Framing.GetReqSizes` | driver/virtio_hmcuda_main.c:80-110 | The request length is refreshed by the second pass, the response length stays that of the first; a short user buffer is a fault |
| `Framing.GetSizes` | driver/cmd_runtime.c:39-114 | Fixed length plus what the structure claims, per command |
| `Framing.BuildReqBuf` | driver/virtio_hmcuda_main.c:115-148 | Header and request, or a fault |
| `Framing.DecodeReceived` | host/vhost/cmd_runtime.c:190-195 | The host decodes exactly the message with its tail cut to the count field |
| `Framing.ReceivedAccess` | host/vhost/cmd_driver.c:505-518 | The access descriptors come back in order with all fields |
| `Framing.ReceivedLaunch` | host/vhost/cmd_runtime.c:190-195 | Launch geometry, stream and all argument words come back |
| `Framing.ReceivedImage` | host/vhost/cmd_runtime.c:298-315 | Fat binary bytes and the function name up to its terminator come back |
| `Framing.UnpackPack` | common/include/hmcuda_cmd_runtime.h:48-55 | Any structure is read back as it was written, whatever follows |
| `Framing.MarshalDescs` | guest/intercept/hmcuda_driver.cpp:641-645 | The guest loop writes the descriptors in order, twelve bytes each |
| `Framing.DecodeDescs` | host/vhost/cmd_driver.c:511-515 | The host loop reads as many descriptors as the count says |
| `Responses.Dispatch` | guest/transport/hmcuda_transport.cpp:151-208 | The library gets the error the host answered; without one, the first bytes of the response as far as the first pass made room, zeros where the host gave fewer, and behind them what its own buffer still held |
| `Responses.Returned` | host/vhost/cmd_runtime.c:298-315 | The fat binary handle and the function's parameter counts come back field by field |
| `Responses.RoomForResponse` | driver/cmd_runtime.c:99-109 | The driver makes room for exactly the response structure |
| `Responses.DeviceName` | guest/intercept/hmcuda_driver.cpp:117-135 | cuDeviceGetName loses the name: whatever the device is called, the caller gets the bytes of its own length field, then the end of the request buffer, up to the length of the name; the first character is the low byte of the length asked for |
| `ParamCount.CountInvertsPrinting` | guest/intercept/hmcuda_runtime.cpp:43-82 | Printing n balanced parameters and counting gives n, except that a sole parameter beginning with void, and an empty list, count as none |
| `ParamCount.CountParams` | guest/intercept/hmcuda_runtime.cpp:52-77 | The scanning loops compute that count for every text, malformed ones included |
| `ParamCount.CountIs` | guest/intercept/hmcuda_runtime.cpp:52-77 | For every text with both brackets: one more than the commas, between its first opening and its last closing bracket, before which as many brackets were closed as opened, except void as the sole one; nothing between them is none |
| `ParamCount.CommasAreSeparators` | guest/intercept/hmcuda_runtime.cpp:64-72 | The loop counts exactly the commas at balance 0, also after the depth went below 0 |
| `ParamCount.VoidIsAfterSpaces` | guest/intercept/hmcuda_runtime.cpp:74-77 | The void test looks behind any number of spaces |
| `ParamCount.BracketedName` | guest/intercept/hmcuda_runtime.cpp:52-72 | With a name like (anonymous namespace)::k, where the depth goes below 0 and back, two parameters or more are counted right, but none or a sole void counts as 1 |
| `ParamCount.VoidPointerIsLost` | guest/intercept/hmcuda_runtime.cpp:74-77 | A sole void pointer is counted as no parameter |
| `ParamCount.CommasOfJoin` | guest/intercept/hmcuda_runtime.cpp:64-72 | Commas at depth 0 of a printed list are its separators |
| `MatMul.SameProduct` | sample/matrixMul.cu:29-78 | Every interleaving of the tiled grid that ends and every order of the naive grid leave the same C, for all M, K, N, using only x + 0*0 = x; and over the source's own indices, C[row*N+col] is the left fold over k of A[row*K+k] * B[k*N+col], all read inside the arrays |
| `MatMul.TiledEqualsNaive` | sample/matrixMul.cu:43-78 | Each element of the tiled result is that fold of products, stored at row*N+col, and was written exactly once |
| `MatMul.StepKeepsInv` | sample/matrixMul.cu:55-73 | Every step of every thread keeps partial sums, loaded tiles and barrier distance right |
| `MatMul.SameTile` | sample/matrixMul.cu:66-72 | While a thread computes, its whole block is between the two barriers of the same tile |
| `MatMul.SomeThreadCanStep` | sample/matrixMul.cu:66-72 | The barriers never block for good |
| `MatMul.EveryInterleavingEnds` | sample/matrixMul.cu:43-78 | Every interleaving ends: no run is longer than 36 steps a tile and one store for each thread, a run of that length has every thread done, and exactly the shorter ones can go on |
| `MatMul.OneOwner` | sample/matrixMul.cu:215-216 | No two threads of the grid own the same element |
| `MatMul.NaiveThread` | sample/matrixMul.cu:29-40 | The naive loop leaves the fold of A[row*K+k] * B[k*N+col] at row*N+col, touches no other element, and does nothing outside the matrix |
| `MatMul.NaiveElement` | sample/matrixMul.cu:192-193 | In any order, each naive thread that has run has left its fold of products in place |
| `MatMul.DotIsProduct` | sample/matrixMul.cu:33-39 | The running sum over the padded tiles' view of the matrices is the fold over the arrays themselves, read in bounds |
| `MatMul.PaddingAddsNothing` | sample/matrixMul.cu:55-64 | Terms beyond K leave the sum as it is |

## Left out

- Copies that run past the end of one allocation: a lookup checks the first address only, so the theorems ask for one allocation (`Vhost.LookupChecksStartOnly` shows why).
- Kinds other than 1 and 2 through the pinned path, and the legacy paths that take guest-physical addresses, which the driver never uses for those kinds.
- Stream ordering and asynchronous completion of DMA.
- Interior pinned pointers as kernel arguments, and buffers a kernel reaches only through embedded pointers: the dirty bit does not follow them.
- Copies that start in one pinned buffer and run past its end, and copies between two pinned buffers.
- Numeric collisions between guest and device addresses: device and pinned ranges are taken to be apart, in the index and in the tables.
- Interference: pinned allocations, whose batches other threads must not disturb at all; a changed pinned table during a copy to a pinned buffer.
- Failure of the driver's own `kvmalloc_array`, `kzalloc` and `copy_to_user`, and log output.
- The descriptor ring's memory layout and notification suppression (section 2.6 of OASIS VIRTIO 1.1); the order of readable before writable descriptors is kept.
- Gathering of the request header from the first descriptor in the copy loop: there the request is a value with its length, and `Requests` ties values to bytes.
- Context reset or a second init between guest index updates, after which the guest's indices are stale.
- Variable-length responses other than the device name, device properties and function attributes.
- Outcomes of the release calls at context destroy; a reserved address range shares the type of device memory and gets that type's call.
- The 32-bit width of the parameter counter, and name demangling itself.
- `int` overflow of row and column indices in the sample kernels, and NaN: elements are numbers under any two operations.
- Simple forwarding wrappers, NVML, module probe and removal, socket set-up, scripts.
