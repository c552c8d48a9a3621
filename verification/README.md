# Verified model of the kernel services layer

The project models five stateful parts of the PowerVR kernel services and proves what their
callers rely on. Each part is written in the form of the C code: classes whose methods update
fields, arrays and linked buckets step by step, with their loops and failure exits. Each method
is proved against a specification, and the specification against properties over all inputs and
runs.

- **Handle table** (`Forest`, `HandleState`, `HandleInvariant`, `HandleFree`, `HandleGrow`,
  `HandleAlloc`, `HandleContents`, `HandleShrink`, `HandleConfig`, `HandleLookup`,
  `HandleResize`, `HandlePick`, `HandleShare`, `HandleRelease`, `HandleBatch`, `HandlePurge`,
  `HandleTable`, `HandleFault`): the slot array with its lazy free list, block counts, hash
  index and child rings. One invariant ties the four views together; it holds between any two
  calls, and a weaker form of it in the middle of the recursive release.
- **Hash table** (`Hash`, `HandleIndex`): buckets linked on the heap, moved between bucket
  arrays on growing and shrinking, refine a map. `HandleIndex` does to such a table what the
  handle table does to its index, over whole runs.
- **32-on-64 marshaller** (`CompatCopy`, `CompatLayout`, `CompatWalk`, `CompatTables`), with the
  sync-operation protocol (`SyncOps`) and the init-server gate (`InitGate`). A move of fields is
  specified out of place, byte by byte; the in-place loops are proved equal to it. The alignment
  rule is that of the System V ABI, AMD64 Processor Supplement, section 3.1.2.
- **Flip rings** (`FlipSpec`, `FlipRing`): a state machine of submit, vsync, flush, create and
  destroy steps, and the rings that carry it out. Flips and completions are logs.
- **Shared memory** (`LifeSpec`, `LifeObjects`, `Lifetime`, `ShareTable`): reference and export
  counts of mem-infos, buffers and sync objects, and the cross-process share table. Every
  allocated object is tracked, so that freeing twice, using after freeing and leaking would each
  break a proof.

`Machine` holds the width of a machine word. Unless a word is said to wrap, numbers are
unbounded. Allocation, hash inserts, copies from and to user space and the results of hardware
calls are parameters, so every contract holds whichever of them fails.

## Model

| member | source | states |
|---|---|---|
| HandleTable.AllocHandleBase | src/services4/srvkm/common/handle.c:1776-1809 | the error for each failing allocation; otherwise a new base that satisfies the invariant, holds no handle, and has the largest handle limit |
| HandleTable.HandleBase.LookupHandle | src/services4/srvkm/common/handle.c:443-490 | the lookup succeeds exactly when the table holds a handle of that number and type, and gives its data; the null handle is out of range |
| HandleTable.HandleBase.FindHandle | src/services4/srvkm/common/handle.c:924-940 | the handle found has the data, type and (if private) parent asked for and is not a multi handle; nothing is found exactly when no such handle exists |
| HandleLookup.FindHandleCorrect | src/services4/srvkm/common/handle.c:502-516 | hash index and slots agree both ways, read as a statement about one key |
| HandleLookup.KeysUnique | src/services4/srvkm/common/handle.c:502-516 | no two non-multi handles share a key |
| HandleTable.HandleBase.LookupSubHandle | src/services4/srvkm/common/handle.c:1420-1456 | succeeds exactly when the handle has that type and some handle above it in the forest is the ancestor asked for; the null handle is out of range |
| HandleTable.HandleBase.ReallocHandleArray | src/services4/srvkm/common/handle.c:519-738 | for every new size it succeeds exactly when the sizes are right and every allocation it makes succeeds; a failure, also half way through the blocks, leaves table and memory as they were; success gives the table grown or cut |
| HandleResize.NewTotalFits | src/services4/srvkm/common/handle.c:942-976 | for every 32-bit delta, though rounding and adding may wrap, the new total is a whole number of blocks, within the limit, and makes room for delta; it is 0 exactly when the limit leaves no room |
| HandleTable.HandleBase.IncreaseHandleArraySize | src/services4/srvkm/common/handle.c:942-976 | at least delta new slots within the limit, or the table as it was; with memory at hand it succeeds exactly when the limit leaves room |
| HandleTable.HandleBase.EnsureFreeHandles | src/services4/srvkm/common/handle.c:978-996 | afterwards n handles are free, or the table is as it was; it succeeds whenever there are n already or memory and room for them |
| HandleGrow.FreeListExact | src/services4/srvkm/common/handle.c:653-698 | without purging, following stored link or next index from the first free slot meets every free slot once and nothing else, in as many steps as the free count, and ends at the recorded last one |
| HandleGrow.GrowKeeps | src/services4/srvkm/common/handle.c:653-698 | growing keeps the whole invariant whenever the assertion at line 664 holds |
| HandleGrow.GrowExactIff | src/services4/srvkm/common/handle.c:653-698 | without purging, the free list after growing is exact if and only if slot 0 was not the head of a non-empty free list |
| HandleGrow.GrowTwiceLosesSlots | src/services4/srvkm/common/handle.c:653-698 | an empty base grown twice has a free list that is not exact |
| HandleFault.OpenTwice | src/services4/srvkm/common/handle.c:1531-1566 | opening a batch of 256 on a new base and committing it leaves a base on which every later growth loses free slots |
| HandleFault.CommitAfterFailure | src/services4/srvkm/common/handle.c:1568-1653 | a batch with one new handle and one failed allocation: the commit reports success and the handle given out is gone |
| HandleTable.HandleBase.AllocHandle | src/services4/srvkm/common/handle.c:998-1159 | either nothing a client sees changes, or one handle has arrived that the index knows under its key, the youngest of all and without parent; it succeeds whenever a slot is free, or memory and room for one are there, and the hash insert succeeds |
| HandleTable.HandleBase.AdoptChild | src/services4/srvkm/common/handle.c:334-366 | the parent's ring holds the child as its last member and the child names its parent; all else is unchanged |
| HandleTable.HandleBase.AllocRootHandle | src/services4/srvkm/common/handle.c:1164-1234 | a handle with the same key is shared or refused, otherwise there is exactly one new handle without parent; failures of an open batch are counted |
| HandleTable.HandleBase.AllocSubHandle | src/services4/srvkm/common/handle.c:1237-1333 | without a live parent nothing happens; otherwise a shared handle must have that parent, and a new one is the last child of it |
| HandleTable.HandleBase.FreeHandle | src/services4/srvkm/common/handle.c:745-836 | what is freed is exactly the subtree, in post-order; every other slot, the index and the rings keep what is not in it; the recursion ends; slots of the open batch wait for its end |
| HandleTable.HandleBase.FreeChildren | src/services4/srvkm/common/handle.c:400-431 | the children are freed one by one though the ring changes under the iteration, and the ring ends empty |
| HandleTable.HandleBase.UnlinkFromParent | src/services4/srvkm/common/handle.c:369-398 | the ring without the entry, and the forest without the edge |
| HandleTable.HandleBase.ReleaseHandle | src/services4/srvkm/common/handle.c:1509-1528 | the handle and all below it are gone from slots and index, each freed once; every other handle keeps data, type, flags, parent and the order of its remaining children |
| HandleTable.HandleBase.LookupAndReleaseHandle | src/services4/srvkm/common/handle.c:1481-1506 | as a release, with the data the handle had |
| Forests.PostOrderIsSubtree | src/services4/srvkm/common/handle.c:770-781 | the nodes the recursion visits are exactly the descendants |
| Forests.PostOrderDistinct | src/services4/srvkm/common/handle.c:770-781 | the recursion visits no node twice |
| HandleTable.HandleBase.NewHandleBatch | src/services4/srvkm/common/handle.c:1531-1566 | opens an empty batch with n free handles reserved, or changes nothing |
| HandleTable.HandleBase.EndHandleBatch | src/services4/srvkm/common/handle.c:1568-1653 | a release, or a commit after a recorded failure, leaves none of the handles of the batch and every other handle as it was; a commit without failure keeps exactly those not freed meanwhile; every slot that ends up free joins the free list once |
| HandleTable.HandleBase.FreeAllHandles | src/services4/srvkm/common/handle.c:838-872 | every slot ends up free |
| HandleTable.HandleBase.FreeHandleBase | src/services4/srvkm/common/handle.c:874-921 | no handle, no index entry and no block of handle structures is left |
| HandleTable.HandleBase.PurgeHandles | src/services4/srvkm/common/handle.c:1731-1774 | every handle and index entry stays; the blocks dropped are the free ones at the end, dropped exactly when they are at least half of the array; the free count falls by exactly their slots |
| HandleTable.HandleBase.EnableHandlePurging | src/services4/srvkm/common/handle.c:1711-1729 | succeeds exactly when purging is on already or no slot was ever allocated |
| HandleTable.HandleBase.SetMaxHandle | src/services4/srvkm/common/handle.c:1665-1704 | succeeds exactly before the first slot and outside a batch, for a limit in range, and the limit never rises |
| HandleIndex.Index.Find | src/services4/srvkm/common/handle.c:924-940 | the table finds exactly what the map of the handle base holds |
| HandleIndex.Index.Enter | src/services4/srvkm/common/handle.c:1081-1093 | entering a key in the table is the update of the map, and a failed insert changes nothing |
| HandleIndex.Index.Leave | src/services4/srvkm/common/handle.c:745-768 | removing a key from the table is the removal from the map, and gives the handle that was there |
| HandleIndex.Replay | src/services4/srvkm/common/handle.c:745-1093 | over every run of index operations the table gives the answers of the map and holds what the map holds, whichever of its allocations fail |
| Hash.CreateExtended | src/services4/srvkm/common/hash.c:214-250 | there is a table exactly when both allocations succeed; it is empty, and with a size of at least 2 it obeys the size law |
| Hash.ChainInsert | src/services4/srvkm/common/hash.c:130-149 | the bucket is at the head of the chain of its index and no other chain changes; it fails only for a table without chains |
| Hash.Rehash | src/services4/srvkm/common/hash.c:152-175 | every bucket ends up in the chain of its new index, in acyclic and disjoint chains |
| Hash.HashTable.Resize | src/services4/srvkm/common/hash.c:178-211 | the buckets and the count stay, whether or not the new table can be had; the size changes exactly when it can |
| Hash.HashTable.Insert | src/services4/srvkm/common/hash.c:280-327 | the table has exactly one bucket more; with distinct keys it is the old map with the new entry; the size law survives |
| Hash.HashTable.Find | src/services4/srvkm/common/hash.c:340-393 | the walk finds a bucket with the key, and the one before it, or there is none |
| Hash.HashTable.Unlink | src/services4/srvkm/common/hash.c:355-366 | the chain without the bucket, every other chain as it was |
| Hash.HashTable.Remove | src/services4/srvkm/common/hash.c:340-393 | the bucket found is gone and its value returned, 0 for none; with distinct keys the map loses exactly that key; the size law survives |
| Hash.HashTable.Retrieve | src/services4/srvkm/common/hash.c:405-441 | the value of the key in the map, 0 for none |
| Hash.LawfulInsert | src/services4/srvkm/common/hash.c:315-323 | an insert keeps the size the minimum times a power of two with twice the count between nothing and the size, and the size at most the minimum or four times the count |
| Hash.LawfulRemove | src/services4/srvkm/common/hash.c:370-381 | so does a removal |
| CompatCopy.ApplyIsMoved | src/services4/srvkm/bridged/bridged_pvr_bridge.c:4827-4864 | a result of moving fields out of place is one thing: each byte is either carried from its field or as it was |
| CompatCopy.StepDown | src/services4/srvkm/bridged/bridged_pvr_bridge.c:5205-5232 | moving fields up in place, last field first, gives the out-of-place result although source and destination overlap |
| CompatCopy.StepUp | src/services4/srvkm/bridged/bridged_pvr_bridge.c:5266-5308 | moving fields down in place, first field first, gives the out-of-place result |
| CompatLayout.OffsetsAreLayout | src/services4/srvkm/bridged/bridged_pvr_bridge.c:4751-4790 | the kernel offsets are naturally aligned and do not overlap, for every layout string |
| CompatLayout.OffsetsAreLeast | src/services4/srvkm/bridged/bridged_pvr_bridge.c:4751-4790 | no aligned layout of the same fields in the same order has any field lower |
| CompatLayout.KernelAbove | src/services4/srvkm/bridged/bridged_pvr_bridge.c:4751-4790 | no field has a kernel offset below its i686 offset |
| CompatLayout.LayoutFields | src/services4/srvkm/bridged/bridged_pvr_bridge.c:4751-4790 | the walk over a layout string, digits and the limit of 160 fields included, gives those offsets, kinds and sizes |
| CompatLayout.LayoutSizes | src/services4/srvkm/bridged/bridged_pvr_bridge.c:4792-4822 | for any table the first row of the bridge decides; a missing string leaves the size given, an explicit input size wins over the packed one |
| CompatLayout.LayoutRepack | src/services4/srvkm/bridged/bridged_pvr_bridge.c:4792-4864 | for any table the first row of the bridge decides; a missing row or string leaves the buffer alone; otherwise reading all fields and then writing them gives exactly the moved buffer, with bytes outside the fields unchanged |
| CompatLayout.ExpandThenCompact | src/services4/srvkm/bridged/bridged_pvr_bridge.c:4827-4864 | every i686 word is back after expanding and compacting |
| CompatLayout.CompactThenExpand | src/services4/srvkm/bridged/bridged_pvr_bridge.c:4827-4864 | a kernel field is back after compacting and expanding if and only if it is a scalar or its upper half is zero |
| CompatWalk.PlanExpands | src/services4/srvkm/bridged/bridged_pvr_bridge.c:5205-5232 | every list of U, H, B and S runs describes fields that only move up, in order |
| CompatWalk.ExpandInPlace | src/services4/srvkm/bridged/bridged_pvr_bridge.c:5205-5232 | the backward walk over any descriptor list gives the bytes of an out-of-place expansion of the original buffer |
| CompatWalk.WalkIsRepack | src/services4/srvkm/bridged/bridged_pvr_bridge.c:5335-5373 | a list of U and H runs describes the very moves of the layout string with the same fields |
| CompatWalk.WalkAndRepackAgree | src/services4/srvkm/bridged/bridged_pvr_bridge.c:5407-5432 | so the walk and the repack give the same bytes |
| CompatTables.DevInitPart2Size | src/services4/srvkm/bridged/bridged_pvr_bridge.c:5182-5204 | the list describes 2068 bytes expanded to 2192 |
| CompatTables.DoKickSize | src/services4/srvkm/bridged/bridged_pvr_bridge.c:5310-5334 | the list describes 564 bytes expanded to 784 |
| CompatTables.SubmitTransferSize | src/services4/srvkm/bridged/bridged_pvr_bridge.c:5386-5406 | the list describes 88 bytes expanded to 160 |
| CompatTables.XlateMiscInfo | src/services4/srvkm/bridged/bridged_pvr_bridge.c:5266-5308 | both directions give the out-of-place result though the two structures overlap in one buffer |
| CompatTables.MiscRoundTrip | src/services4/srvkm/bridged/bridged_pvr_bridge.c:5266-5308 | every byte of every i686 field is back after growing and shrinking |
| CompatTables.PackContext | src/services4/srvkm/bridged/bridged_pvr_bridge.c:5877-5898 | header words read first and written last around the heap array packed down in place: the header of the original, and behind it the out-of-place move of all heaps |
| CompatTables.PackHeapReply | src/services4/srvkm/bridged/bridged_pvr_bridge.c:5899-5915 | the same for the reply with a header of two words |
| SyncOps.PassedIff | src/services4/srvkm/bridged/bridged_pvr_bridge.c:3727-3791 | while snapshot and complete are at most pending and less than 2^32 behind, the wrapped comparison holds exactly when the true count has reached the snapshot |
| SyncOps.PassedStays | src/services4/srvkm/bridged/bridged_pvr_bridge.c:3727-3791 | once true it stays true within that window |
| SyncOps.FlushQueryExact | src/services4/srvkm/bridged/bridged_pvr_bridge.c:3727-3791 | for a snapshot of any age the wrapped comparison is right if and only if the snapshot is less than 2^32 operations old, or old by so much more than a multiple of 2^32 that the excess is at least what is outstanding |
| SyncOps.PassedSound | src/services4/srvkm/bridged/bridged_pvr_bridge.c:3727-3791 | for a snapshot of any age it never takes outstanding operations for completed ones |
| SyncOps.OldSnapshotFails | src/services4/srvkm/bridged/bridged_pvr_bridge.c:3727-3791 | a snapshot 2^32 operations old, all completed, that it takes for outstanding |
| SyncOps.SyncInfo.FlushToToken | src/services4/srvkm/bridged/bridged_pvr_bridge.c:4125-4161 | for a snapshot of any age, success means that the true counts have reached it; and the answer is right if and only if both counts are in the window or one has not reached its snapshot |
| SyncOps.OnlyOldestCompletes | src/services4/srvkm/bridged/bridged_pvr_bridge.c:3794-3825 | of the outstanding objects with an increment flag the oldest can complete and no other |
| SyncOps.QueryFindsOldest | src/services4/srvkm/bridged/bridged_pvr_bridge.c:3828-3882 | for such an object the query of the callback succeeds exactly when the object can complete |
| SyncOps.NoFlagsHidesError | src/services4/srvkm/bridged/bridged_pvr_bridge.c:3828-3882 | for an attached object without flags the callback hides an error if and only if a counter has gone past its snapshot |
| SyncOps.CallbackHidesError | src/services4/srvkm/bridged/bridged_pvr_bridge.c:3828-3882 | a state two operations from the start in which it does |
| SyncOps.SyncInfo.ModifyPending | src/services4/srvkm/bridged/bridged_pvr_bridge.c:3978-4050 | one more operation is outstanding, last in the queue, and pending minus complete is the number of outstanding increments; also when the resource item cannot be dissociated |
| SyncOps.SyncInfo.DoComplete | src/services4/srvkm/bridged/bridged_pvr_bridge.c:3794-3825 | refused for an empty object; otherwise the counters rise exactly when both equal the snapshot |
| SyncOps.SyncInfo.ModifyComplete | src/services4/srvkm/bridged/bridged_pvr_bridge.c:4053-4093 | an object with a flag completes exactly when it is the oldest outstanding one |
| SyncOps.SyncInfo.ReleaseCallback | src/services4/srvkm/bridged/bridged_pvr_bridge.c:3828-3882 | an outstanding object with a flag is freed exactly when it is the oldest and polled at least once, and then its operation completes |
| FlipRing.SwapChain.constructor | src/services4/3rdparty/linux_framebuffer_mrst/mrstlfb_displayclass.c:640-700 | an empty ring with one item more than there are buffers |
| FlipRing.SwapChain.Flush | src/services4/3rdparty/linux_framebuffer_mrst/mrstlfb_displayclass.c:140-193 | every frame left is completed, or was, and the ring is empty; with the flag the frames not yet flipped are |
| FlipRing.SwapChain.HandleVSync | src/services4/3rdparty/linux_framebuffer_mrst/mrstlfb_displayclass.c:915-991 | the loop does to the ring what the queue step does to the queue: only the head is flipped or completed |
| FlipRing.SwapChain.Enqueue | src/services4/3rdparty/linux_framebuffer_mrst/mrstlfb_displayclass.c:1051-1095 | the valid items stay one circular segment from the remove index, one frame longer |
| FlipRing.Device.ProcessFlip | src/services4/3rdparty/linux_framebuffer_mrst/mrstlfb_displayclass.c:1014-1104 | on the rings of every chain it is the submit step, and it is refused exactly when the ring is full |
| FlipRing.Device.HandleVSync | src/services4/3rdparty/linux_framebuffer_mrst/mrstlfb_displayclass.c:904-997 | on the rings it is the vsync step, and at most one flip is made |
| FlipRing.Device.SetFlushState | src/services4/3rdparty/linux_framebuffer_mrst/mrstlfb_displayclass.c:212-240 | on the rings it is the flush step: the flag is set exactly while the reference count is positive, and the current ring is then empty |
| FlipRing.Device.CreateSwapChain | src/services4/3rdparty/linux_framebuffer_mrst/mrstlfb_displayclass.c:554-728 | the error for each check and each failing allocation, and for a full chain table, with nothing changed; otherwise a chain joins in the first vacant place with an empty ring and becomes current if there is none |
| FlipRing.Device.DestroyChain | src/services4/3rdparty/linux_framebuffer_mrst/mrstlfb_displayclass.c:730-786 | the frames of the chain are all completed, it is current no more, and the last chain gives way to the system buffer |
| FlipSpec.StepKeeps | src/services4/3rdparty/linux_framebuffer_mrst/mrstlfb_displayclass.c:904-1104 | every step keeps: only the current chain has frames, none while flushing; each accepted cookie is completed or waits in the queue, never both; retired frames stayed for their interval |
| FlipSpec.RunKeeps | src/services4/3rdparty/linux_framebuffer_mrst/mrstlfb_displayclass.c:904-1104 | over every run of submit, vsync, flush, create and destroy steps that invariant holds, and without interval-0 commands flips and completions are in submission order |
| FlipSpec.ExactlyOnce | src/services4/3rdparty/linux_framebuffer_mrst/mrstlfb_displayclass.c:140-193 | over every run, as often as a cookie was submitted and accepted it has been completed or still waits |
| FlipSpec.FlushCompletesAll | src/services4/3rdparty/linux_framebuffer_mrst/mrstlfb_displayclass.c:212-240 | flushing, or destroying the current chain, completes every command still queued |
| FlipSpec.VSyncQueueKeeps | src/services4/3rdparty/linux_framebuffer_mrst/mrstlfb_displayclass.c:922-991 | one vsync flips at most one frame, completes and flips in queue order, and lets a frame go only when its interval is used up |
| FlipSpec.HeadStays | src/services4/3rdparty/linux_framebuffer_mrst/mrstlfb_displayclass.c:922-991 | the frame on screen stays for exactly the vsyncs its interval still gives it |
| FlipSpec.DirectInOrder | src/services4/3rdparty/linux_framebuffer_mrst/mrstlfb_displayclass.c:1030-1050 | a command with interval 0 keeps the order if and only if nothing waits before it that is not completed |
| FlipSpec.DirectOvertakes | src/services4/3rdparty/linux_framebuffer_mrst/mrstlfb_displayclass.c:1030-1050 | a run of three operations in which the later cookie is completed first |
| Lifetime.DeviceMemory.AllocDeviceMemory | src/services4/srvkm/common/devicemem.c:838-935 | success gives one source with counts 1 and everything it needs allocated; every failure frees what was made, except that a refused registration loses the sync object; the error for every combination |
| Lifetime.LoseSync | src/services4/srvkm/common/devicemem.c:838-935 | a run from the start after which nothing has a holder and objects are still allocated |
| Lifetime.DeviceMemory.WrapExtMemory | src/services4/srvkm/common/devicemem.c:1005-1232 | success gives one wrapped source, every failure exit leaves what was allocated before |
| Lifetime.DeviceMemory.MapDeviceMemory | src/services4/srvkm/common/devicemem.c:1295-1480 | a mapping raises mem-info, export and sync counts of its source by one; a failure leaves everything as it was |
| Lifetime.DeviceMemory.UnmapCallBack | src/services4/srvkm/common/devicemem.c:1247-1291 | the mapping is freed with its buffer and pages, and its source is left with one hold less, or freed |
| Lifetime.DeviceMemory.FreeCallBack | src/services4/srvkm/common/devicemem.c:798-808 | the allocator's hold goes, and with the last hold everything that belongs to the source |
| Lifetime.DeviceMemory.FreeMemCallBackCommon | src/services4/srvkm/common/devicemem.c:696-796 | one hold goes; with the last one the exported handle, the pages, the sync object, the buffer and the mem-info are freed, each once |
| Lifetime.DeviceMemory.FreeDeviceMem2 | src/services4/srvkm/common/devicemem.c:408-438 | the buffer loses a reference or an export, and the mem-info goes when its own count is zero |
| Lifetime.DeviceMemory.FreeSyncInfo | src/services4/srvkm/common/devicemem.c:554-569 | refused while the count is positive, otherwise the object and the memory of its counters are freed |
| Lifetime.DeviceMemory.FreeBuf | src/services4/srvkm/common/buffer_manager.c:525-635 | region or mapping and buffer go exactly when both counts are zero, the device range exactly when the allocator frees |
| Lifetime.DeviceMemory.BufferFree | src/services4/srvkm/common/buffer_manager.c:1480-1511 | one reference goes, and the buffer is freed by the last one unless exports remain |
| Lifetime.DeviceMemory.BufferFreeExport | src/services4/srvkm/common/buffer_manager.c:1470-1478 | one export goes, and the buffer is freed by the last one unless references remain |
| Lifetime.DeviceMemory.ExportDeviceMem | src/services4/srvkm/bridged/bridged_pvr_bridge.c:792-819 | one handle for all processes, at most, and none that outlives its mem-info |
| Lifetime.DeviceMemory.SourceHeld | src/services4/srvkm/common/devicemem.c:696-796 | a source is allocated exactly as long as its allocator or a mapping holds it |
| Lifetime.DeviceMemory.NothingLeft | src/services4/srvkm/common/devicemem.c:696-796 | when no allocator and no mapping is left, nothing stays allocated but what was lost |
| LifeSpec.FreedOnceInAnyOrder | src/services4/srvkm/common/devicemem.c:696-796 | over every order of maps, unmaps and the free: mem-info, buffer and sync object are each freed once, at the step after which no holder is left, and the mem-info count is the number of holders |
| ShareTable.Table.ShareCheck | src/services4/srvkm/common/buffer_manager.c:1783-1806 | growth keeps every entry and adds empty ones |
| ShareTable.Table.SetShareIndex | src/services4/srvkm/common/buffer_manager.c:1808-1822 | succeeds exactly when no index is set |
| ShareTable.Table.UnsetShareIndex | src/services4/srvkm/common/buffer_manager.c:1824-1843 | succeeds exactly for the index that is set |
| ShareTable.Table.FindNewBuffer | src/services4/srvkm/common/buffer_manager.c:1845-1866 | finds the first entry not in use, and there is one exactly when the count is below the size |
| ShareTable.Table.AllocShareable | src/services4/srvkm/common/buffer_manager.c:1873-1996 | the entry is shared or filled, the error for every combination; a failure leaves counts and memory as they were and at most writes the two address fields of the unused entry; the count is the number of entries in use and, when growth does not fail, a new allocation leaves one free; a failed OSReservePhys loses its region |
| ShareTable.Table.HandleToIndex | src/services4/srvkm/common/buffer_manager.c:1998-2030 | finds the one entry in use with that memory, or there is none |
| ShareTable.Table.FreeShareable | src/services4/srvkm/common/buffer_manager.c:2032-2077 | one reference goes, and the memory is released exactly with the last one |
| ShareTable.LoseRegion | src/services4/srvkm/common/buffer_manager.c:1938-1955 | a run from the start that loses a region |
| ShareTable.SharedAgain | src/services4/srvkm/common/buffer_manager.c:1889-1925 | an entry just filled can be shared with the same request if and only if it came from the OS or was single-process already |
| ShareTable.ShareTwice | src/services4/srvkm/common/buffer_manager.c:1889-1925 | a run from the start in which the second of two equal requests is refused |
| InitGate.RunSound | src/services4/srvkm/bridged/bridged_pvr_bridge.c:3512-3567 | over every run: running excludes having run, and at most one process is the init process |
| InitGate.PhaseOnlyRises | src/services4/srvkm/bridged/bridged_pvr_bridge.c:3512-3567 | the init server never goes back from running or ran |
| InitGate.ConnectsOnce | src/services4/srvkm/bridged/bridged_pvr_bridge.c:3512-3567 | the step to running happens at most once in a run |
| InitGate.OrphanedIff | src/services4/srvkm/bridged/bridged_pvr_bridge.c:3512-3567 | running without an init process happens if and only if the init process exited without disconnecting; otherwise there is exactly one while running |
| InitGate.OrphanedRun | src/services4/srvkm/bridged/bridged_pvr_bridge.c:3512-3567 | connecting and exiting is such a run, and no call of any process gets through after it |
| InitGate.OrphanedForever | src/services4/srvkm/bridged/bridged_pvr_bridge.c:6116-6152 | and nothing ever changes that |
| InitGate.OnlyInitProcessBefore | src/services4/srvkm/bridged/bridged_pvr_bridge.c:6116-6152 | before successful initialisation an ordinary call gets through only from the init process |
| InitGate.AdmittedWhen | src/services4/srvkm/bridged/bridged_pvr_bridge.c:6116-6152 | over every run, told from the calls alone: an ordinary call gets through exactly from the first process that connected with privilege, as long as it has neither exited nor disconnected, and from everybody once it has disconnected with success; other calls also before anybody connected |
| InitGate.Driver.BridgedDispatch | src/services4/srvkm/bridged/bridged_pvr_bridge.c:6215-6263 | whichever early return is taken no handle batch stays open, a handler is called exactly when every check passed, and the init state takes the step of the state machine |
| InitGate.PerProc.ReleaseBatch | src/services4/srvkm/bridged/bridged_pvr_bridge.h:128-138 | an open batch is released, and without one nothing changes |

## Findings

Each of these is a property the code does not have, with an input or a state that shows it and
the exact condition under which it does.

- Growing the handle array loses free slots if and only if slot 0 heads a non-empty free list
  (`HandleGrow.GrowExactIff`). The assertion at handle.c:664 excludes this only where assertions
  are compiled in. `HandleFault.OpenTwice` gets there with public calls: open a batch of 256,
  commit it, open a larger one.
- A handle batch that is released because allocations failed is still reported as committed:
  `HandleTable.HandleBase.EndHandleBatch` gives `Ok` for every open batch, since the failure
  counter is cleared (handle.c:1643) before it is tested (handle.c:1645). The handles of the
  batch stay if and only if the counter was zero. `HandleFault.CommitAfterFailure` is a run in
  which a handle that was given out is gone after a commit that reports success.
- When the init process exits without disconnecting, the driver stays in the running state and
  refuses every call of every process for ever (`InitGate.OrphanedIff`, `InitGate.OrphanedRun`,
  `InitGate.OrphanedForever`).
- The release callback of a sync-op object ignores the result of the completion. For objects
  with a flag it never hides an error; for an object without flags it does if and only if a
  counter has passed the snapshot (`SyncOps.NoFlagsHidesError`, `SyncOps.CallbackHidesError`).
- The flush query can take completed operations for outstanding ones, though never the other way
  round (`SyncOps.PassedSound`). It is right if and only if the snapshot is less than 2^32
  operations old, or old by so much more than a multiple of 2^32 that the excess is at least what
  is outstanding (`SyncOps.FlushQueryExact`); `SyncOps.OldSnapshotFails` is a case outside.
- A flip command with interval 0 overtakes queued commands unless at most a completed frame is
  queued before it (`FlipSpec.DirectInOrder`). `FlipSpec.DirectOvertakes` is a run in which it does.
- When the resource manager refuses a new allocation, its sync object is never freed
  (`Lifetime.DeviceMemory.AllocDeviceMemory`, devicemem.c:909-935; `Lifetime.LoseSync` is such a
  run). It happens if and only if the memory and the sync object were there before the refusal.
- When OSReservePhys fails, the region taken from the arena is never given back
  (`ShareTable.Table.AllocShareable`, buffer_manager.c:1946-1955; `ShareTable.LoseRegion` is such
  a run). It happens if and only if RA_Alloc succeeded before.
- An entry filled from an arena keeps its flags as they came, so the same request cannot share it
  unless it was single-process already (`ShareTable.SharedAgain`). `ShareTable.ShareTwice` is a
  run in which the second of two equal requests is refused.

## Left out

- Forests.PostOrderIsSubtree: speaks of the forest value only; that the cited lines free exactly these nodes through the rings is in HandleTable.HandleBase.FreeHandle.
- Forests.PostOrderDistinct: speaks of the forest value only; the slots are tied to it in HandleTable.HandleBase.FreeHandle.
- HandleTable.HandleBase.NewHandleBatch: carries the assertion at handle.c:664 as a precondition, as do the growth lemmas; what follows such a growth where assertions are compiled out is not modelled beyond HandleGrow.GrowExactIff. The four assertions on list links are not modelled either. A batch on a base that purges is not modelled: only the kernel's own base purges, and no batch is opened on it.
- HandleTable.HandleBase.EndHandleBatch: the return code for a commit that fails is the one the code gives, which is never the failure code.
- HandleTable.HandleBase.AllocHandle: the failure counter of a batch does not wrap, and handles are numbers, not addresses; the hash index is a map here; HandleIndex.Replay shows that the table gives the same answers over every run, but the two are not fields of one object.
- HandleTable.HandleBase.FreeHandleBase: the release of the base structure and of the hash table is not modelled.
- Hash.HashTable.Insert: the byte size of a bucket array is not computed, so its overflow on 32-bit machines is not modelled; with duplicate keys only the set of buckets is stated. HASH_Delete and HASH_Iterate are not modelled.
- CompatLayout.LayoutRepack: the table is a parameter; its rows, the calls with a fixed word-by-word branch, and the entry whose string disagrees with its structure (bridged_pvr_bridge.c:4738) carry no claim.
- SyncOps.SyncInfo.ModifyPending: modification objects are the only source of operations on a sync object, and fewer than 2^32 are outstanding.
- FlipRing.Device.ProcessFlip: buffers are numbers; matching dimensions, registers and the saved last flip are not modelled. The chain table has room for one chain as in the code, but the steps are proved for any number of chains.
- FlipSpec.HeadStays: time is counted in handled vsyncs; a dark or flushing device handles none.
- Lifetime.DeviceMemory.MapDeviceMemory: the source is an allocated or wrapped mem-info, not itself a mapping, and not under the cross-process workaround; counters do not wrap.
- Lifetime.DeviceMemory.WrapExtMemory: a wrap always gets a new buffer; the reuse of buffers by physical address is not modelled.
- Lifetime.DeviceMemory.AllocDeviceMemory: an allocation inside the buffer manager succeeds or fails as a whole, and the dangling reference left in the caller's variable after a refused registration is not modelled.
- Lifetime.DeviceMemory.FreeBuf: sub-handles of the OS and the release of physical pages go together with the buffer and with the page list; caller-managed device addresses cannot be reached from these calls.
- Lifetime.DeviceMemory.BufferFree: the hash of wrapped buffers is not modelled.
- Lifetime.DeviceMemory.FreeDeviceMem2: the system backup buffer is not modelled; every assignment in devicemem.c sets it to null.
- Lifetime.DeviceMemory.FreeMemCallBackCommon: waiting for outstanding operations before freeing is not modelled; it changes no count.
- ShareTable.Table.AllocShareable: sizes and counts do not wrap; the table starts with all counts at zero.
- InitGate.Driver.BridgedDispatch: a handler is any sequence of batch, allocation and release calls on the handle base of its process, ended by any early return; a handler that runs into the assertion at handle.c:664 halts.
- The resource manager, the arena allocator and per-process setup: a callback of the resource manager runs at most once, and the arena is an allocator that succeeds or fails.
- Device-class memory, device registration, power, notifiers, framebuffer and DRM glue, and page-buffer allocation: easy forwarding, no new invariant.
- Tracing, timing, parameter dumps, and the variants for secure identifiers.
- Locking: operations that hold the swap-chain lock or the bridge lock are single steps.
