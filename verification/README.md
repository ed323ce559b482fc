# DCE process environment: a Dafny model

Direct Code Execution runs the code of many simulated POSIX processes inside one address space. This
project models the parts that make each process believe it is alone, and proves that they do.

- **Memory.dfy, KingsleyHeap.dfy** The power-of-two allocator on raw bytes. Free lists are threaded through
  the memory they manage; the invariant says that blocks tile what has been handed out of every chunk and
  that each list is exactly the chain its head starts.
- **PrivateHeaps.dfy, KingsleyMachine.dfy, KingsleyAlloc.dfy** Cloned allocators share one live buffer per
  chunk and swap their bytes in and out of it. An allocator's private heap is what it would see if it ran.
  Every operation of any allocator leaves everybody else's private heap as it was.
- **DceAlloc.dfy** malloc, free, realloc and calloc, with the size header in front of each block.
- **CountedRefs.dfy, SharedModules.dfy, PrivateGlobals.dfy, CoojaLoader.dfy** The Cooja loader: one live data
  section per library, one saved buffer per process, recursive reference counts on shared modules.
- **DependencyGraph.dfy, ElfLdd.dfy, ElfCache.dfy, LoadOrder.dfy** The dependency scan, the cache of edited
  libraries, and the chain from one through the other to the loader.
- **ProcessTable.dfy, DceManager.dfy, ProcessRuns.dfy** fork, exit, stop, threads, zombies, re-parenting
  and waitpid.
- **FileDescriptors.dfy, DescriptorCalls.dfy, DescriptorRuns.dfy** Descriptor tables, shared files and close.
- **MutexProtocol.dfy, PthreadMutex.dfy** pthread mutexes under cooperative threads.
- **CanonizePath.dfy** Canonical paths. **FifoBuffer.dfy** The growing byte queue.
- **Options.dfy, FiniteSets.dfy** An optional value; unused numbers and sizes of finite sets.

Objects the source updates in place are classes whose methods are proved against functions and predicates on
values. `Machine`, `Valid` and `Ready` are the invariants that every method keeps. Where several objects share
state, a ghost parameter names the others: `all` is the set of all allocators, `others` the module lists of all
other loaders. What comes from outside is a parameter: the address mmap returns (`base`), the files on disk,
the data section of a library, the result of a file's own Close, the order in which threads run. Handles and
buffer addresses are any unused number.

Places where the code does something other than its comments or its purpose suggest are results here, each with
the exact condition and a concrete case:

- A file can be closed twice, or never, when a descriptor is closed while a thread is inside a call on it
  (`ClosedTwice`, `NeverClosed`), though it need not be (`ClosedOnceInside`). Each kind of step has the exact
  condition under which every file is closed once (`ClosedOnceMore`, `LeftOnce`, `ForkedOnce`, `ExitedOnce`,
  `StoppedOnce`, `AddedOnce`), and so have whole runs (`RunOnce`).
- Mutex waiters need not be served in FIFO order, as the comment at model/dce-pthread-mutex.cc:290-291 says
  they are: one that is overtaken goes to the end of the queue (`OvertakenGoesLast`, `OvertakingRun`). The order
  of asking is the order of service exactly in the runs of polite steps (`StepOrder`, `RunOrder`).
- The names linux-gate.so.1 and linux-vdso.so.1 are dropped from the dependency list
  (model/elf-dependencies.cc:67-73) but looked up when a file is edited (model/elf-cache.cc:219-222)
  (`ScanOrderAddable`, `KernelNameStops`).
- Freeing a large block unmaps its chunk even when a clone uses it (model/kingsley-alloc.cc:254-264): the machine
  stays sound exactly when nobody does (`ForgetExactly`, `FreeAfterFork`), and after a fork no large block may be
  freed while both processes hold it (`BothHold`).
- fork copies the free list of bucket 0 only (model/kingsley-alloc.cc:88): the child loses the other free blocks
  unless there are none (`ChildLosesNothing`, `ForkLosesBlock`).
- A cloned loader copies module counts and counts the dependencies again (model/cooja-loader-factory.cc:168-183):
  the counts are exact only without dependencies, and a library can stay that nobody refers to (`CloneDone`,
  `CloneKeepsLibrary`).
- The last running thread of a process can end without ending the process, when an earlier one was not joined
  (model/dce-pthread.cc:155-158): `StrandedWhen`, `StrandedStays`, `StrandingRun`, `AbandonedStays`.
- A canonical path need not be the shortest one of its meaning (`ShortestWhen`, `TwoForms`).

## Model

| member | source | states |
|---|---|---|
| KingsleyHeap.SizeToBucket | model/kingsley-alloc.cc:185-201 | for every size of at least 1 the shift loop returns the least bucket whose blocks hold the size |
| KingsleyHeap.SmallFitsChunk | model/kingsley-alloc.cc:212-220 | every request below the mmap threshold falls in bucket 12 or lower and fits one default chunk |
| Memory.LoadAfterStore | model/kingsley-alloc.cc:217-218 | a link word or size header read back from raw bytes is the word that was stored |
| Memory.EncodeRoundTrip | model/kingsley-alloc.cc:246-249 | eight little-endian bytes decode to the word they encode |
| KingsleyHeap.EveryByteAccounted | model/kingsley-alloc.cc:165-269 | every byte below the brk of a chunk lies in exactly one block, and that block is held by the client, on exactly one bucket list, or lost |
| KingsleyHeap.LiveOrFree | model/kingsley-alloc.cc:165-269 | in an allocator that is not a clone nothing is lost: live blocks and bucket lists tile [0, brk) of every chunk, each listed block having the size of its bucket |
| KingsleyHeap.ClientWriteKeeps | model/kingsley-alloc.cc:209-269 | no write inside a block the client holds can break the free lists, although their links live in the same memory |
| KingsleyHeap.BumpKeeps | model/kingsley-alloc.cc:165-179 | raising brk cuts a block disjoint from all others and keeps the tiling, the sizes and the lists |
| KingsleyHeap.PushKeeps | model/kingsley-alloc.cc:243-249 | threading a block onto its bucket list through its own first word keeps the heap sound |
| KingsleyHeap.PopKeeps | model/kingsley-alloc.cc:224-228 | taking the head of a bucket list leaves the list its next pointer starts |
| KingsleyHeap.MapKeeps | model/kingsley-alloc.cc:144-163 | a freshly mapped chunk joins the heap without touching any block |
| KingsleyHeap.UnmapKeeps | model/kingsley-alloc.cc:254-265 | unmapping a large block removes that block and no other |
| KingsleyHeap.HeapInvFrame | model/kingsley-alloc.cc:209-269 | the invariant depends on memory inside free blocks only |
| PrivateHeaps.SharedHaveCopies | model/kingsley-alloc.cc:83-109 | two allocators that share a chunk each have a saved copy of their own; a chunk without a copy has one user |
| PrivateHeaps.WritesArePrivate | model/kingsley-alloc.cc:111-134 | whatever the running allocator writes into its chunks, every other allocator's private heap is unchanged |
| PrivateHeaps.OwnedByOne | model/kingsley-alloc.cc:111-134 | a live byte that one allocator sees is in no chunk of another that is running |
| PrivateHeaps.SwitchChunkKeeps | model/kingsley-alloc.cc:116-132 | one round of SwitchTo changes no private heap, keeps refcounts and current exact, and leaves the chunk owning the live buffer |
| PrivateHeaps.CloneChunkKeeps | model/kingsley-alloc.cc:90-107 | one round of Clone changes no existing private heap and gives the child its parent's bytes at the same address |
| PrivateHeaps.MapChunkKeeps | model/kingsley-alloc.cc:144-163 | a new chunk has one user and disturbs nobody |
| PrivateHeaps.ReleaseKeeps | model/kingsley-alloc.cc:37-65 | the destructor's step on one chunk lowers its refcount, frees its saved copy, unmaps the buffer exactly with the last user, and changes nobody else's private heap |
| PrivateHeaps.ForgetExact | model/kingsley-alloc.cc:254-265 | unmapping a chunk and forgetting it keeps the sharing records if and only if its refcount is 1 |
| PrivateHeaps.DisownKeeps | model/kingsley-alloc.cc:69-82 | clearing current when it is the dying allocator's copy changes nobody else's private heap |
| PrivateHeaps.RunningHeap | model/kingsley-alloc.cc:111-134 | an allocator that owns its live buffers may be judged on live memory: a heap sound privately is sound there |
| PrivateHeaps.RunningPrivate | model/kingsley-alloc.cc:111-134 | and the other way round, a heap sound on live memory is a sound private heap |
| PrivateHeaps.ChildHeapInv | model/kingsley-alloc.cc:83-89 | a child that takes over only bucket 0's list has a sound heap: blocks stay disjoint, other free blocks are lost to it |
| PrivateHeaps.ChildLosesNothing | model/kingsley-alloc.cc:83-89 | the child has lost no block if and only if its parent had lost none and every free list but that of bucket 0 was empty |
| KingsleyMachine.SwitchStep | model/kingsley-alloc.cc:111-134 | switching one chunk keeps every allocator sound and every private heap |
| KingsleyMachine.CloneStep | model/kingsley-alloc.cc:90-107 | cloning one chunk keeps every allocator sound and every private heap, parent and child agreeing on the chunk |
| KingsleyMachine.CloneContinues | model/kingsley-alloc.cc:83-109 | the loop of Clone: after each chunk the child's private heap is as much of the parent's |
| KingsleyMachine.CloneEnds | model/kingsley-alloc.cc:83-109 | after the loop the child is a sound allocator whose private heap equals its parent's |
| KingsleyMachine.MemoryStep | model/kingsley-alloc.cc:209-269 | a change confined to the running allocator's chunks that keeps its heap sound is invisible to all others |
| KingsleyMachine.ForgetStep | model/kingsley-alloc.cc:254-265 | freeing a large block with one user removes its chunk and keeps everybody's heap |
| KingsleyMachine.ForgetExactly | model/kingsley-alloc.cc:254-265 | freeing a large block leaves a sound machine if and only if nobody shares its chunk: the source unmaps it whatever the refcount, and a second user is left with a buffer that is not mapped |
| KingsleyMachine.BothHold | model/kingsley-alloc.cc:83-109 | a large block that two allocators hold is one chunk whose refcount is not 1 |
| KingsleyMachine.ReleaseStep | model/kingsley-alloc.cc:37-65 | destruction of one chunk keeps all other allocators sound with unchanged private heaps |
| KingsleyAllocator.KingsleyAlloc.constructor | model/kingsley-alloc.cc:29-34 | an empty allocator joins the machine without disturbing it |
| KingsleyAllocator.KingsleyAlloc.MmapAlloc | model/kingsley-alloc.cc:144-163 | maps a chunk with one user in front of the list, everybody else's heap unchanged |
| KingsleyAllocator.KingsleyAlloc.Brk | model/kingsley-alloc.cc:165-184 | cuts the bytes from the first chunk with room, or from a new default chunk; the recursion happens at most once and its assertion holds |
| KingsleyAllocator.KingsleyAlloc.Refill | model/kingsley-alloc.cc:216-222 | an empty bucket gets one new block of its size, all existing blocks keeping their bytes; a chunk is mapped only if no chunk has room |
| KingsleyAllocator.KingsleyAlloc.MallocLarge | model/kingsley-alloc.cc:231-237 | a request above the threshold gets offset 0 of a chunk of exactly its size |
| KingsleyAllocator.KingsleyAlloc.Malloc | model/kingsley-alloc.cc:209-239 | returns a block of the right bucket that was free or is new, disjoint from all live blocks, whose bytes do not change; a chunk is mapped exactly for a large block, or when the bucket is empty and no chunk has room; no other allocator notices |
| KingsleyAllocator.KingsleyAlloc.Free | model/kingsley-alloc.cc:240-268 | a small block returns to the front of the list of the bucket it came from; a large block's chunk is found and unmapped; an unknown large address changes nothing |
| KingsleyAllocator.KingsleyAlloc.Release | model/kingsley-alloc.cc:257-264 | munmap and erase of exactly the block's own chunk |
| KingsleyAllocator.KingsleyAlloc.WriteBytes | model/kingsley-alloc.cc:209-269 | a process writing inside its own block keeps its heap sound and is invisible to all other processes |
| KingsleyAllocator.KingsleyAlloc.Realloc | model/kingsley-alloc.cc:270-282 | a shrinking request returns the same block; otherwise the new block starts with the old contents, the old one is freed, and no other block changes |
| KingsleyAllocator.KingsleyAlloc.SwitchTo | model/kingsley-alloc.cc:111-134 | afterwards the allocator owns all its live buffers and every private heap, its own included, is what it was |
| KingsleyAllocator.KingsleyAlloc.Clone | model/kingsley-alloc.cc:83-109 | the child starts with its parent's private heap, and no existing private heap changes; the child has lost no block exactly if its parent had not and only bucket 0 has free blocks; no large block may be freed while both hold it |
| KingsleyAllocator.KingsleyAlloc.CloneOne | model/kingsley-alloc.cc:92-106 | the parent gets a copy when it becomes the second user's sharer, the child a copy of the live bytes |
| KingsleyAllocator.KingsleyAlloc.Dispose | model/kingsley-alloc.cc:69-82 | after Dispose no current names a copy of the dying allocator |
| KingsleyAllocator.KingsleyAlloc.Destroy | model/kingsley-alloc.cc:35-68 | each chunk loses one reference, its buffer is unmapped exactly when that was the last, all saved copies of the dying allocator and no others are freed, and the remaining allocators keep their heaps |
| KingsleyAllocator.FreeAfterFork | model/kingsley-alloc.cc:254-265 | a process allocates a large block and forks: the parent's free would leave the machine unsound |
| KingsleyAllocator.ForkLosesBlock | model/kingsley-alloc.cc:83-89 | a process frees a small block and forks: the child has lost it |
| DceAlloc.DceMalloc | model/dce-alloc.cc:20-29 | one block more, held, with the header in front of it that holds the size passed to the allocator; live blocks of this process and heaps of others are untouched |
| DceAlloc.DceMallocUsableSize | model/dce-alloc.cc:30-35 | reads back the size the process asked for |
| DceAlloc.DceFree | model/dce-alloc.cc:36-48 | free without a size: the header sends the block, and no other, back to the bucket it came from; null is ignored |
| DceAlloc.DceRealloc | model/dce-alloc.cc:49-73 | returns null exactly for null and size zero; otherwise realloc of null is malloc, a request that is not larger returns the same block unchanged, size zero too, and a grown block starts with the old contents under a header of the new size; no other block changes |
| DceAlloc.GrowBlock | model/dce-alloc.cc:66-72 | the growing branch: the old block goes and one block comes, with the old contents and its own header |
| DceAlloc.DceCalloc | model/dce-alloc.cc:13-19 | one block more, which reads as zero; no other live block changes |
| DceAlloc.PutHeader | model/dce-alloc.cc:25-28 | writing the header changes the first word of its own block only |
| DceAlloc.HeadersKept | model/dce-alloc.cc:20-73 | headers of blocks that are not touched stay right |
| DceAlloc.HeadersArePrivate | model/dce-alloc.cc:20-73 | of a running allocator, headers judged on the private heap are those in live memory |
| DceAlloc.HeadersStay | model/dce-alloc.cc:20-73 | headers stay right through everything that keeps the private heap, whoever does it |
| DceAlloc.DceFork | model/kingsley-alloc.cc:83-109 | after a fork parent and child have the right headers, the child before it ever runs, and everybody else keeps theirs |
| DceAlloc.DceSwitch | model/kingsley-alloc.cc:111-134 | a process whose headers are right goes on after a switch with the same blocks and the right headers, and everybody else keeps theirs |
| SharedModules.UnrefKeeps | model/cooja-loader-factory.cc:319-348 | UnrefSharedModule keeps every refcount equal to the references from loaders and from other modules, and frees exactly the modules whose count reaches zero |
| SharedModules.StartDying | model/cooja-loader-factory.cc:327-337 | the references of a dying module become references to give up one by one |
| SharedModules.FinishDying | model/cooja-loader-factory.cc:338-346 | a module with count zero can be deleted: nobody depends on it |
| SharedModules.TableIsUse | model/cooja-loader-factory.cc:319-348 | with exact counts the table holds exactly the modules in use: none freed early, none leaked |
| PrivateGlobals.SwitchKeeps | model/cooja-loader-factory.cc:129-153 | taking over one live data section changes no process's globals |
| PrivateGlobals.NewModuleKeeps | model/cooja-loader-factory.cc:282-306 | a new module starts at the library's template while whoever owned the live bytes keeps theirs |
| PrivateGlobals.CloneModuleKeeps | model/cooja-loader-factory.cc:159-187 | a cloned module starts with its parent's globals |
| PrivateGlobals.AddSharedRefs | model/cooja-loader-factory.cc:248-280 | a new shared module takes one reference on each dependency and the counts stay exact |
| PrivateGlobals.EnterKeeps | model/cooja-loader-factory.cc:248-306 | loading one file keeps all other loaders' globals and exact counts |
| PrivateGlobals.DropKeeps | model/cooja-loader-factory.cc:387-396 | giving up one module changes no other module's globals and leaves current pointing at a buffer in use or nowhere |
| PrivateGlobals.WriteKeeps | model/cooja-loader-factory.cc:129-153 | what the started process writes to its globals nobody else sees |
| PrivateGlobals.CurrentIsBuffer | model/cooja-loader-factory.cc:140-146 | current is never dangling and never another module's buffer |
| PrivateGlobals.TableIsLoaded | model/cooja-loader-factory.cc:319-348 | a shared module is in the table exactly when some loader uses it |
| CoojaLoading.CoojaLoader.SearchModule | model/cooja-loader-factory.cc:203-216 | finds the loader's module with the id, or none |
| CoojaLoading.CoojaLoader.NotifyStartExecute | model/cooja-loader-factory.cc:129-153 | all of the loader's globals become live and every process's globals stay what they were |
| CoojaLoading.CoojaLoader.UnrefSharedModule | model/cooja-loader-factory.cc:319-348 | the recursion over dependencies ends, never lowers a zero count, and does what Unref says |
| CoojaLoading.CoojaLoader.LoadModule | model/cooja-loader-factory.cc:236-318 | the loader gains exactly the modules it lacked, each at its template and each with one buffer of its own, in an order that puts dependencies first, module counts staying exact in a loader that is not a clone; nobody else's globals or buffers change |
| CoojaLoading.CoojaLoader.Load | model/cooja-loader-factory.cc:189-201 | the requested module gets one client reference, and where no module was left over none is, exactly if each new file is the one asked for or needed by another of the list; a load without files changes nothing |
| CoojaLoading.CoojaLoader.Clone | model/cooja-loader-factory.cc:159-187 | the child has the parent's modules with the parent's globals, refcounts of shared modules are exact, and its own module counts are those of a loader whose client also holds every dependency once: exact if and only if no module has any; the buffers are those there were and one for each module of the child |
| CoojaLoading.CloneDone | model/cooja-loader-factory.cc:168-183 | the child counts each dependency once more than it is referred to |
| CoojaLoading.CloneKeepsLibrary | model/cooja-loader-factory.cc:159-187 | a process loads a program and its library and forks, and both unload the program: the parent has no module left, the child keeps the library |
| CoojaLoading.NobodyLeft | model/cooja-loader-factory.cc:367-399 | a loader with no module left over is empty once the client refers to nothing |
| CoojaLoading.CoojaLoader.Unload | model/cooja-loader-factory.cc:367-399 | one client reference goes; a module goes with its last reference, after those it holds, and modules still referred to stay with their globals, counts staying exact in a loader that is not a clone and none of its modules left over; the running loader still owns its live sections; buffers are freed with their modules, and no others; an unknown handle is ignored |
| CoojaLoading.ModulesAreUse | model/cooja-loader-factory.cc:367-399 | all modules that the client's references lead to are there, and no other exactly when every module is needed, that is, in a loader that is not a clone, when every count is positive |
| CoojaLoading.LoadNeeded | model/cooja-loader-factory.cc:236-318 | a load leaves no module over if and only if it brings in no file for nothing |
| CoojaLoading.CoojaLoader.Disown | model/cooja-loader-factory.cc:356-363 | disown, unref and free one module |
| CoojaLoading.CoojaLoader.UnloadAll | model/cooja-loader-factory.cc:349-366 | the loader is empty, all its buffers are freed and nobody else's, and every other process keeps its globals |
| CoojaLoading.CoojaLoader.WriteGlobals | model/cooja-loader-factory.cc:129-153 | a write to live globals changes the writer's view of that module and no other view |
| CoojaLoading.CoojaLoader.Enter | model/cooja-loader-factory.cc:248-306 | creation of the shared module if needed, save of the previous owner, reset to the template |
| CoojaLoading.EraseModule | model/cooja-loader-factory.cc:376-384 | erasing a module whose count is zero turns its dependencies into references to unload, all of them still present |
| CoojaLoading.AppendModule | model/cooja-loader-factory.cc:307-315 | a module added at the end with its dependencies counted keeps counts high enough and dependencies first |
| CoojaLoading.CloneCountStep | model/cooja-loader-factory.cc:168-183 | the copied and again incremented count of a cloned module is never too small |
| DependencyGraph.Pigeonhole | model/elf-ldd.cc:437 | a sequence longer than the set it draws from repeats a node |
| DependencyGraph.LongChainRepeats | model/elf-ldd.cc:228-258 | a dependency chain longer than the number of libraries means a cycle can be reached |
| DependencyGraph.Pump | model/elf-ldd.cc:228-258 | a reachable cycle gives chains of any length |
| DependencyGraph.DepthMeansNoCycle | model/elf-ldd.cc:228-258 | where a longest chain exists no cycle can be reached |
| DependencyGraph.DepthOfNode | model/elf-ldd.cc:242-256 | one more than the deepest dependency is the longest chain |
| DependencyGraph.DepthOfReached | model/elf-ldd.cc:442-473 | everything reachable is strictly less deep than the root |
| LibraryScan.FirstHit | model/elf-ldd.cc:201-217 | the first directory of the search path that holds the name, no earlier one holding it, or none when no directory does |
| LibraryScan.SharedLibrary.SearchLibs | model/elf-ldd.cc:191-227 | succeeds exactly when every needed name is found, and then records the first file found for each; otherwise nothing changes |
| LibraryScan.SharedLibrary.CalcDepth | model/elf-ldd.cc:228-258 | every depth set is the longest dependency chain, also when the call fails; failure exhibits a chain longer than the bound |
| LibraryScan.SharedLibrary.VisitLibs | model/elf-ldd.cc:242-255 | the loop of CalcDepth: one more than the greatest depth among the libraries needed |
| LibraryScan.CalcAllDepths | model/elf-ldd.cc:437-441 | started at the root with the number of scanned libraries, CalcDepth succeeds exactly when no cycle can be reached, and then every library's depth is its longest chain |
| LibraryScan.ScanFile | model/elf-ldd.cc:280-377 | a file is scanned exactly when it and all libraries it names are found |
| LibraryScan.Scan | model/elf-ldd.cc:380-429 | the worklist terminates with exactly the files reachable from the root that can be scanned; every library of every scanned file has then been scanned if and only if no file reached could not be |
| LibraryScan.TookOne | model/elf-ldd.cc:410-424 | one round of the worklist: dependencies of scanned files are scanned or still to do |
| LibraryScan.ListByDepth | model/elf-ldd.cc:442-470 | bucketing by depth lists every library once in order of depth |
| LibraryScan.DepthOrder | model/elf-ldd.cc:458-470 | depth order is dependency order with the root last |
| LibraryScan.ElfLdd.Loop | model/elf-ldd.cc:380-475 | if the root can be scanned and reaches no cycle, each reachable library is listed once, after all it needs, the root last; otherwise the list is empty |
| LibraryScan.ElfLdd.constructor | model/elf-ldd.cc:477-480 | the same for the object |
| LibraryCache.BasenameIs | model/elf-cache.cc:41-50 | the file name is a directory part ending in a slash followed by the base name |
| LibraryCache.ReplaceIs | model/elf-cache.cc:299-307 | the rewriting loop replaces an overridden name once and leaves other names alone |
| LibraryCache.DepsAreEarlier | model/elf-cache.cc:338-388 | a file added with the ids of cached files keeps names distinct, ids increasing and dependencies earlier |
| LibraryCache.IdSource.AllocateId | model/elf-cache.cc:288-294 | ids are handed out once, increasing |
| LibraryCache.ElfCache.GetDepId | model/elf-cache.cc:296-318 | the id of the cached file with the (replaced) name, or none where the source stops with "did not find" |
| LibraryCache.WantedIs | model/elf-cache.cc:214-222 | the names looked up are the needed ones, each as often, but for the dynamic linker's |
| LibraryCache.DepIdsMean | model/elf-cache.cc:214-226 | the k-th recorded id is that of a cached file with the k-th wanted name after replacement, and there are as many as names |
| LibraryCache.DepsForUnique | model/elf-cache.cc:296-318 | in a cache of distinct names there is one such list of ids |
| LibraryCache.CoherentMeans | model/elf-cache.cc:214-226 | every file in a cache that agrees with what files need carries that list |
| LibraryCache.ElfCache.EditBuffer | model/elf-cache.cc:214-226 | the ids of the cached files that bear the needed names after replacement, one for each name but the dynamic linker's, in order; none exactly when such a name is not cached |
| LibraryCache.ElfCache.Add | model/elf-cache.cc:338-388 | succeeds exactly when the replacement, the file itself, or all it needs is cached; an added file carries the ids of the libraries it needs, in order; names stay distinct and dependency ids belong to earlier entries |
| LibraryCache.ElfCache.AddAll | model/cooja-loader-factory.cc:240-247 | adding a list succeeds exactly when each file can be added after those before it; a cache that agrees with what files need goes on to agree |
| LoadOrder.Gather | model/elf-dependencies.cc:31-83 | the filtered list followed by the executable itself |
| LoadOrder.NeededEntry | model/elf-ldd.cc:460-470 | the file found for a needed name is an earlier entry of the list, asked for by that very name |
| LoadOrder.ScanOrderAddable | model/elf-cache.cc:296-388 | with replacements cached and slash-free names, the scan's order never reaches "did not find", if and only if no file to be edited needs an uncached kernel name |
| LoadOrder.KernelNameStops | model/elf-dependencies.cc:63-80 | a program needing linux-gate.so.1 or linux-vdso.so.1, found on disk, stops with the very list its scan gives, whatever the cache and the replacement rules, as long as they know neither the name nor the program: the name is dropped from the list but still looked up |
| LoadOrder.OneLibraryScan | model/elf-ldd.cc:380-475 | the scan of a program and its one library lists the library and then the program |
| LoadOrder.KernelNameExample | model/elf-dependencies.cc:63-80 | a concrete disk and its scan, and a cache with the five replacements, where the program stops so |
| LoadOrder.ListIsLoadable | model/cooja-loader-factory.cc:240-315 | the cached files in scan order meet everything LoadModule relies on: each dependency has a smaller id and comes earlier |
| ProcessTable.StartedKeeps | model/dce-manager.cc:320-392 | a started process keeps families, zombies, waiters and serials in order |
| ProcessTable.ForkedKeeps | model/dce-manager.cc:606-681 | so does a fork: the child is its parent's, the parent alive and older |
| ProcessTable.DeletedKeeps | model/dce-manager.cc:795-964 | so does the end of any process, a zombie stopped again included |
| ProcessTable.DeletedFamily | model/dce-manager.cc:908-929 | children and parents still agree, and every process with a father has it, alive |
| ProcessTable.DeletedWaiters | model/dce-manager.cc:1136-1152 | only the father's waiters are concerned, and they wake |
| ProcessTable.ReapedKeeps | model/dce-wait.cc:52-72 | collecting a zombie keeps everything in order, no other waiter losing what it waits for |
| ProcessManager.DceManager.AllocatePid | model/dce-manager.cc:496-514 | the pid handed out is the first free one counting up from nextPid and round, in 2..65535 and nobody's, zombies included; it fails exactly when every other pid but the one before nextPid is taken |
| ProcessManager.DceManager.Start | model/dce-manager.cc:320-392 | a fatherless process under the first free pid, or none exactly when there is none |
| ProcessManager.DceManager.Clone | model/dce-manager.cc:606-681 | the child is in the table and in its parent's children, under the first free pid; it fails exactly when there is none |
| ProcessManager.DceManager.Exit | model/dce-pthread.cc:70-95 | the process is deleted with the exit status in its wait status; `StatusReturned` says what a wait makes of it |
| ProcessManager.DceManager.Stop | model/dce-manager.cc:718-731 | deletes a process in any state, or does nothing |
| ProcessManager.DceManager.DeleteProcess | model/dce-manager.cc:795-964 | children go to init, which collects its zombies at once; the process becomes a zombie and its father's waiters wake, or it disappears |
| ProcessManager.DceManager.Reparent | model/dce-manager.cc:912-930 | the loop over the children |
| ProcessManager.DceManager.ChildFinished | model/dce-manager.cc:1116-1135 | both assertions hold and the father's waiters wake |
| ProcessManager.DceManager.WakeupChildWaiters | model/dce-manager.cc:1136-1152 | wakes every thread asleep in waitpid and no other |
| ProcessManager.DceManager.FinishChild | model/dce-manager.cc:1153-1163 | the collected child leaves the table |
| ProcessManager.DceManager.TryWait | model/dce-wait.cc:37-103 | collects the lowest ended matching child; ECHILD exactly when no child matches; sleeps only when a matching child is running |
| ProcessManager.DceManager.Waitpid | model/dce-wait.cc:21-109 | EINVAL for unsupported options and process groups, otherwise one round of the loop |
| ProcessManager.DceManager.ResumeWait | model/dce-wait.cc:82-98 | a woken waiter was interrupted or tries again |
| ProcessManager.DceManager.CreateThread | model/dce-manager.cc:515-572 | a thread gets the least unused tid |
| ProcessManager.DceManager.ThreadExit | model/dce-pthread.cc:149-180 | the only thread takes its process with it; otherwise a detached thread goes and another stays to be joined |
| ProcessManager.DceManager.Join | model/dce-pthread.cc:181-221 | a thread that has ended goes, or the call answers EINVAL if it was detached |
| ProcessManager.DceManager.Detach | model/dce-pthread.cc:222-246 | a thread that has ended is marked, unless it was or somebody is about to join it |
| ProcessTable.StrandedWhen | model/dce-pthread.cc:149-180 | the end of a thread leaves a process alive with no thread that can run if and only if threads that were not joined are left and no others |
| ProcessTable.ThreadGoes | model/dce-pthread.cc:155-176 | the end of one thread among several: a detached one is gone, another stays as ended, the rest are as they were |
| ProcessManager.DeletedInSteps | model/dce-manager.cc:795-964 | threads, children and the process itself, one after the other, amount to one deletion |
| ProcessRuns.RunKeeps | model/dce-manager.cc:606-1163 | over every run of start, fork, exit, stop and waitpid, of threads created, ended, joined and detached, the whole invariant holds |
| ProcessRuns.BirthIs | model/dce-manager.cc:320-392 | a start or fork in a run adds one running process with one thread, no children and its father, and changes nobody but the father, who gains a child |
| ProcessRuns.DeathIs | model/dce-manager.cc:795-964 | the end of a process in a run, whoever brings it about: what becomes of it, of its children, of its father's sleepers, and that nobody else is touched |
| ProcessRuns.OneThread | model/dce-pthread.cc:149-246 | creating, ending, joining, detaching or interrupting a thread in a run changes that thread as told and nothing else |
| ProcessRuns.WaitAnswers | model/dce-wait.cc:37-103 | every answer of waitpid in a run: a status only for the lowest ended matching child, which goes; ECHILD exactly without matching children; nothing or sleep exactly when all that match are running |
| ProcessRuns.StatusReturned | model/dce-wait.cc:57-68 | over every run, the status a wait hands out for a process that ended by exit has the exit status in its high part and no signal, and is 0 when the end of its only thread or the simulator ended it |
| ProcessRuns.RunningHaveNoValue | model/dce-pthread.cc:78-82 | over every run a process that has not ended has wait status 0 |
| ProcessRuns.SleepersHaveRunningChildren | model/dce-wait.cc:76-98 | in every state of every run a thread asleep in waitpid has a matching child and all its matching children are running |
| ProcessRuns.DeathWakes | model/dce-manager.cc:1116-1152 | the death of a matching child wakes the sleeper and leaves the child to collect |
| ProcessRuns.ExitValueKept | model/dce-wait.cc:52-72 | an ended process never runs again and keeps its exit value, which waitpid hands out at most once |
| ProcessRuns.StrandedStays | model/dce-pthread.cc:149-180 | over every run a process with only ended threads stays in the table until the simulator stops it |
| ProcessRuns.StrandingRun | model/dce-pthread.cc:149-180 | a run that leaves a process so |
| ProcessRuns.AbandonedStays | model/dce-pthread.cc:181-246 | over every run a thread detached after it has ended never goes, and its process ends only by exit or the simulator |
| ProcessRuns.PidKept | model/dce-manager.cc:496-514 | no pid in the table changes hands in one step |
| FileDescriptors.AddedKeeps | model/dce-fd.cc:654-660 | a new entry for an open file is counted once |
| FileDescriptors.AddedOnce | model/dce-fd.cc:654-660 | a new entry leaves the closes right if and only if the file has not been closed |
| FileDescriptors.RemovedKeeps | model/file-usage.cc:36-42 | a removed entry is counted down once |
| FileDescriptors.LastEntry | model/dce-fd.cc:284-289 | the count is 1 exactly for the last entry in any process |
| FileDescriptors.UsableNotClosed | model/dce-fd.cc:284-296 | a file with an entry that is not being closed is open |
| FileDescriptors.ClosedOnceMore | model/dce-fd.cc:268-300 | close leaves the closes of every file right, with a thread inside or not, if and only if the file has not been closed yet |
| FileDescriptors.LeftOnce | model/utils.h:76-98 | a thread leaving does so if and only if it does not remove the last entry of a file nobody has closed |
| FileDescriptors.ForkedOnce | model/dce-manager.cc:631-644 | fork does so if and only if the parent has no entry of a file already closed |
| FileDescriptors.ExitedOnce | model/dce-manager.cc:813-874 | a normal exit does so under the same condition |
| FileDescriptors.StoppedOnce | model/dce-manager.cc:861-874 | a stop by the simulator does so if and only if each file of the process is open elsewhere or has been closed |
| FileDescriptors.ClosedTwice | model/dce-fd.cc:284-296 | closing twice while a thread is inside closes the file twice |
| FileDescriptors.NeverClosed | model/dce-fd.cc:284-296 | two entries, a thread inside the first: closing both, the file is never closed |
| FileDescriptors.ClosedOnceInside | model/dce-fd.cc:284-296 | closing once while a thread is inside closes the file once |
| DescriptorCalls.DescriptorTables.AllocateFd | model/utils.cc:296-314 | the least free descriptor below MAX_FDS, or -1 when there is none |
| DescriptorCalls.DescriptorTables.Open | model/dce-fd.cc:79-140 | a new file with one entry, or ENOENT for the empty path, EMFILE, or the host's error |
| DescriptorCalls.DescriptorTables.Dup | model/dce-fd.cc:639-663 | EBADF, EMFILE or a second entry under the least free number |
| DescriptorCalls.DescriptorTables.Dup2 | model/dce-fd.cc:664-699 | every branch: succeeds exactly if the old descriptor is open, the new one in range, and either both are the same or the new one is free or can be closed; then the new one is another entry for the old one's file; the closes stay right |
| DescriptorCalls.DescriptorTables.Close | model/dce-fd.cc:268-300 | EBADF, or Close of the file exactly for the last entry, and the entry removed unless in use; the closes stay right exactly if the file was not closed before |
| DescriptorCalls.DescriptorTables.BeginUse | model/utils.h:76-90 | a call on an open descriptor counts its thread in; `EntryHistory` says what the count is |
| DescriptorCalls.DescriptorTables.EndUse | model/utils.h:90-98 | and out, removing an entry closed meanwhile |
| DescriptorCalls.DescriptorTables.Fork | model/dce-manager.cc:631-644 | the child gets every descriptor of its parent, each file counted once more for each |
| DescriptorCalls.DescriptorTables.Exit | model/dce-manager.cc:813-874 | every entry of the process goes, each file counted down by as many, and closed once more exactly if nobody else has it open |
| DescriptorCalls.DescriptorTables.StopProcess | model/dce-manager.cc:861-874 | the entries go and are counted down without any Close |
| DescriptorRuns.RunCounts | model/file-usage.cc:28-82 | over every run a file's count is the number of table entries for it across all processes |
| DescriptorRuns.EntryHistory | model/utils.h:76-98 | over every run an entry is for the file it was opened for, its count is the number of threads that entered less those that left since it was made, and it is closing exactly if close was called on it since |
| DescriptorRuns.EntryGoes | model/dce-fd.cc:291-299 | an entry goes exactly by exit or stop of its process, by a close with nobody inside, or when the last thread inside leaves it after a close |
| DescriptorRuns.EntryComes | model/dce-fd.cc:654-660 | and comes exactly by open, dup or a fork of a process that has it |
| DescriptorRuns.InsideKeepsEntry | model/file-usage.cc:28-46 | an entry with a thread still inside goes by exit or stop only, and a thread that leaves was inside |
| DescriptorRuns.RunOnce | model/dce-fd.cc:268-300 | over a whole run every file without entries has been closed once, and none with a usable entry, if and only if every step meets its condition |
| DescriptorRuns.RunCloses | model/dce-fd.cc:268-300 | in a caller's words: no close is pending and a file is closed once, with its last entry, throughout a run if and only if no descriptor is closed with a thread inside and nobody is stopped who alone has a file open |
| DescriptorRuns.TidyMeans | model/dce-fd.cc:284-289 | in such a state a file has been closed once if it has no entry and not at all if it has one |
| MutexProtocol.TakenKeeps | model/dce-pthread-mutex.cc:203-207 | taking a free mutex, or a recursive one again, keeps the invariant |
| MutexProtocol.ResumedKeeps | model/dce-pthread-mutex.cc:197-202 | a woken thread leaves the queue once and takes the mutex or queues again |
| MutexProtocol.UnlockedKeeps | model/dce-pthread-mutex.cc:272-298 | the last unlock frees the mutex and wakes the first in the queue |
| MutexProtocol.DestroyedKeeps | model/dce-pthread-mutex.cc:147-171 | a mutex that is free and unqueued can go |
| PthreadMutexCalls.PthreadMutex.Lock | model/dce-pthread-mutex.cc:173-210 | EINVAL, EDEADLK, recursion, taking a free mutex or sleeping in the queue |
| PthreadMutexCalls.PthreadMutex.Resume | model/dce-pthread-mutex.cc:197-207 | a thread inside lock always finds its mutex there |
| PthreadMutexCalls.PthreadMutex.TryLock | model/dce-pthread-mutex.cc:211-260 | never waits; a NORMAL mutex is busy even for its holder |
| PthreadMutexCalls.PthreadMutex.Unlock | model/dce-pthread-mutex.cc:261-301 | EPERM for anybody but the holder; each unlock undoes one lock, and the last wakes the first waiter; `RunAgrees` says what is counted |
| PthreadMutexCalls.PthreadMutex.Destroy | model/dce-pthread-mutex.cc:137-172 | EBUSY while the mutex is held or any thread is inside lock |
| PthreadMutexCalls.PthreadMutex.Remove | model/dce-pthread-mutex.cc:201 | list removal takes out every occurrence |
| PthreadMutexCalls.RunKeeps | model/dce-pthread-mutex.cc:137-301 | the invariant holds over all interleavings, with barging and spurious wake-ups |
| PthreadMutexCalls.RunAgrees | model/dce-pthread-mutex.cc:173-301 | over every run what each thread holds is the number of its calls of lock and trylock that were granted, at once or after waiting, less its unlocks; it waits exactly if its last call of lock has not been answered; the mutex is there exactly if it has not been destroyed |
| PthreadMutexCalls.AnswersFollow | model/dce-pthread-mutex.cc:137-301 | over every run the answer of every call is determined by the answers before it and is the one POSIX asks for each kind: granted, waiting, EDEADLK, EBUSY, EPERM or EINVAL |
| PthreadMutexCalls.UnlockWakes | model/dce-pthread-mutex.cc:275-298 | over every run an unlock wakes the first in the queue exactly if it undoes the holder's only lock, and no other thread |
| PthreadMutexCalls.MutualExclusion | model/dce-pthread-mutex.cc:173-301 | counted from the answers of the calls alone, at most one thread has more locks than unlocks, and of a NORMAL mutex at most one more |
| PthreadMutexCalls.WaitersGoOn | model/dce-pthread-mutex.cc:197-298 | a thread inside lock is queued and finds its mutex; a free mutex with waiters has one ready to run |
| PthreadMutexCalls.OvertakenGoesLast | model/dce-pthread-mutex.cc:275-290 | in every state, if another thread locks after the last unlock and before the woken head of the queue runs, the head goes to the end of the queue |
| PthreadMutexCalls.OvertakingRun | model/dce-pthread-mutex.cc:275-298 | a run of four threads under which the third in line is passed and goes behind |
| PthreadMutexCalls.ResumedOrder | model/dce-pthread-mutex.cc:197-207 | a woken thread leaves the queue as it was if and only if the mutex is taken and it was last |
| PthreadMutexCalls.StepOrder | model/dce-pthread-mutex.cc:173-301 | a step gives out the mutex in the order of asking, and keeps the queue in that order, if and only if it is polite: nobody from outside takes a free mutex others wait for, and of those woken only the first finds it free and only the last finds it taken |
| PthreadMutexCalls.RunOrder | model/dce-pthread-mutex.cc:173-301 | over a whole run grants followed by the queue are the threads in the order they asked, if and only if every step is polite |
| PthreadMutexCalls.PoliteServes | model/dce-pthread-mutex.cc:288-291 | polite runs serve first come, first served, as the comment intends |
| CanonicalPaths.CanonizePath | model/exec-utils.cc:41-188 | the character automaton computes the walk along the parts of the path up to its first NUL |
| CanonicalPaths.EndPart | model/exec-utils.cc:69-150 | at each slash: names are pushed, ".." pops a name or is pushed, and the pop meets neither an empty stack nor a ".." |
| CanonicalPaths.ReadChar | model/exec-utils.cc:58-150 | the states tell names from "." and ".." |
| CanonicalPaths.Print | model/exec-utils.cc:161-187 | the printed form of the stack |
| CanonicalPaths.AlongIs | model/exec-utils.cc:91-145 | level is names less ".." of what was read and of what is kept, and each ".." kept stands where it leads above the start |
| CanonicalPaths.RefusedWhen | model/exec-utils.cc:116-127 | refused exactly when relative, protected, and some prefix has more ".." than names |
| CanonicalPaths.SameMeaning | model/exec-utils.cc:41-188 | leading slash, unmatched ".." and remaining names are those of the original path, and a protected path has no ".." left |
| CanonicalPaths.Idempotent | model/exec-utils.cc:41-188 | the canonical form of a canonical form is itself, whatever path it came from |
| CanonicalPaths.SplitPrinted | model/exec-utils.cc:161-187 | reading a printed stack gives its parts back |
| CanonicalPaths.StuckIs | model/exec-utils.cc:91-145 | a ".." stays behind a name in the result if and only if it came at or above the start with a name before it |
| CanonicalPaths.StraightWhen | model/exec-utils.cc:41-188 | the result is the unmatched ".." of the original and then its remaining names if and only if no ".." is kept behind a name, and longer otherwise |
| CanonicalPaths.ShortestPath | model/exec-utils.cc:41-188 | no path but the empty one says the same from the same start in fewer characters than that |
| CanonicalPaths.ShortestWhen | model/exec-utils.cc:41-188 | no other path says the same as the result in fewer characters if and only if no ".." is kept behind a name |
| CanonicalPaths.NormalForm | model/exec-utils.cc:41-188 | two paths without such a ".." have the same canonical form if and only if both or neither start at the root and they mean the same |
| CanonicalPaths.BelowNotStuck | model/exec-utils.cc:41-188 | every path that never leaves its start is of that kind |
| CanonicalPaths.TwoForms | model/exec-utils.cc:128-136 | the exception: "../a/.." is kept although it means the same as ".." |
| FifoBuffers.FifoBuffer.Write | model/fifo-buffer.cc:47-106 | appends exactly as much as there is space for and returns that number, through any mix of compaction and growth; the recursion ends |
| FifoBuffers.FifoBuffer.Compact | model/fifo-buffer.cc:58-67 | moving the queue to the front keeps it |
| FifoBuffers.FifoBuffer.Grow | model/fifo-buffer.cc:79-103 | a strictly larger buffer within the maximum, same queue |
| FifoBuffers.FifoBuffer.Read | model/fifo-buffer.cc:107-123 | removes and returns the oldest bytes |
| FifoBuffers.FifoBuffer.GetSize | model/fifo-buffer.cc:124-128 | the number of queued bytes |
| FifoBuffers.FifoBuffer.GetSpace | model/fifo-buffer.cc:129-133 | the maximum less the queued bytes |
| FifoBuffers.FirstInFirstOut | model/fifo-buffer.cc:47-123 | what was read followed by what is queued is what was accepted |
| FifoBuffers.Drive | model/fifo-buffer.cc:31-133 | the buffer under any sequence of calls is a plain bounded queue |

## Left out

- KingsleyAlloc.Free: does not model freeing a large block whose chunk a clone also uses; model/kingsley-alloc.cc:254-264 unmaps it whatever the refcount, so the contract asks that the chunk have one user, without which the machine does not stay sound (`ForgetExactly`). The struct of a freed large chunk stays in the store, as in the source, where it is never deleted.
- KingsleyAlloc.Clone: tiling by live and listed blocks holds for the child only where `ChildLosesNothing` says so, because model/kingsley-alloc.cc:88 copies bucket 0 only; the child's other free blocks are marked lost.
- KingsleyAlloc.Malloc: does not model sizes of 32 bits wrapping around, a failing mmap, or size 0, for which SizeToBucket would loop from the largest value.
- KingsleyAlloc.Free: does not model freeing a small block twice or with a wrong size, which the source cannot notice.
- DceAlloc.DceMalloc: does not model the sum of size and header or nmemb * size exceeding the word; the contract asks that they fit.
- CoojaLoader.Clone: the child's own module counts are exact for more references than its client holds, because the source copies them and then counts the dependencies again.
- CoojaLoader.Load: takes the scanned and cached files as a list and does not model dlopen, link maps or symbol lookup.
- CoojaLoading.CountUp: a module's own count is kept in a map by id beside the list, not inside the module record.
- Registry: does not model reference counts wrapping around.
- ElfLdd.Loop: assumes that whatever a reachable file needs can itself be scanned; otherwise the scan leaves out a library (`Scan` says exactly when) and the source follows a null entry at model/elf-ldd.cc:247. The set and map orders of the C++ library are left open.
- SharedLibrary.constructor: does not model reading the ELF file; the needed names and the existing search directories are given.
- ElfCache.Add: does not model copying and rewriting the file; the overridden names come from gnu/lib-names.h, which is not part of this model, so they are a parameter in which no replacement is itself overridden; `RULES` writes them as glibc names these libraries.
- LoadOrder.ListIsLoadable: assumes that base names determine needed names and that replacement libraries need nothing but the dynamic linker.
- DceManager.Exit: does not model destructors, streams, timers, status files, mutexes and semaphores of the dying process; those of its parts that matter elsewhere are in the allocator, loader and descriptor models.
- DceManager.Waitpid: does not model signals beyond interrupting a sleeper, nor process groups, which the source refuses.
- DceManager.Join: does not model waiting for a thread that still runs, or thread-specific data; whether a running thread is detached is told when it ends.
- DceManager: processes are values in the table rather than objects; aliasing of process pointers is not modelled. `serial` and `reaped` are bookkeeping that the source does not have.
- DescriptorTables: file usages and files are values in maps rather than objects; the reference counts that delete a file object are not modelled. Sockets, pipes and timer files are opened like any file.
- DescriptorTables.Exit: takes Close as one step without a switch to another thread.
- PthreadMutex: models one mutex; ids, static initialisation and attributes are left out. The call of front on an empty queue is taken as no waiter.
- CanonicalPaths.CString: a path is a string of characters; no encoding.
- FifoBuffers.FifoBuffer.Write: does not model a failing malloc.
- Condition variables and semaphores: their wake-ups can be lost or doubled, so there is no matching law.
- exec, credentials, environment editing, control messages and the base-60 file names: shallow or finite.
- Simulator events, fibers, devices, sockets, netlink and the teardown of the whole simulator: outside this model.
