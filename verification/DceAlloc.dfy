/** malloc, free, realloc and calloc as the simulated process calls them. Each block starts with an
    eight-byte header holding the size that was passed to the allocator; the process gets the address
    after it. The process never passes a size to free: the header has to be right. */
module DceAlloc {
  import opened Memory
  import opened KingsleyHeap
  import opened PrivateHeaps
  import opened KingsleyMachine
  import opened KingsleyAllocator

  /** Every live block's first word is the size it was requested with. */
  ghost predicate Headers(mem: Mem, blocks: Blocks) {
    forall p :: p in blocks && blocks[p].state.Live? ==> HeaderAt(mem, p, blocks[p].state.request)
  }

  ghost predicate HeaderAt(mem: Mem, p: Addr, size: nat) {
    WORD <= size < WORD_LIMIT && Mapped(mem, p, WORD) && LoadWord(mem, p) == size
  }

  /** The process holds n bytes at ptr. */
  ghost predicate UserHeld(blocks: Blocks, ptr: Addr, n: nat) {
    ptr >= WORD && ptr - WORD in blocks && blocks[ptr - WORD].state == Live(n + WORD)
  }

  /** Every live block except those in except is still there, byte for byte. */
  ghost predicate OthersIntact(mem: Mem, blocks: Blocks, mem': Mem, blocks': Blocks, except: set<int>) {
    forall p :: p in blocks && blocks[p].state.Live? && p !in except ==>
      p in blocks' && blocks'[p] == blocks[p] && SameBytes(mem, mem', p, blocks[p].size)
  }

  /** A header depends on its own block's bytes only. */
  lemma HeadersKept(mem: Mem, blocks: Blocks, mem': Mem, blocks': Blocks, except: set<int>)
    requires Headers(mem, blocks) && OthersIntact(mem, blocks, mem', blocks', except)
    requires forall p :: p in blocks && blocks[p].state.Live? ==> blocks[p].size >= blocks[p].state.request
    requires forall p :: p in blocks' && blocks'[p].state.Live? && p !in except ==> p in blocks && blocks[p] == blocks'[p]
    requires forall p :: p in except && p in blocks' && blocks'[p].state.Live? ==> HeaderAt(mem', p, blocks'[p].state.request)
    ensures Headers(mem', blocks')
  {
    forall p | p in blocks' && blocks'[p].state.Live? && p !in except ensures HeaderAt(mem', p, blocks'[p].state.request) {
      assert HeaderAt(mem, p, blocks[p].state.request);
      assert SameBytes(mem, mem', p, WORD) by {
        assert SameBytes(mem, mem', p, blocks[p].size);
      }
      LoadFrame(mem, mem', p);
    }
  }

  ghost predicate ZeroAt(mem: Mem, a: Addr, n: nat) {
    forall x: Addr :: a <= x < a + n ==> x in mem && mem[x] == 0
  }

  lemma IntactFromKeep(mem: Mem, blocks: Blocks, mem': Mem, blocks': Blocks, except: set<Addr>)
    requires KeepBlocks(mem, mem', blocks, except)
    requires forall p :: p in blocks && blocks[p].state.Live? && p !in except ==> p in blocks' && blocks'[p] == blocks[p]
    ensures OthersIntact(mem, blocks, mem', blocks', except)
  {
  }

  /** The allocator's step from mem to mem1, then the header written at p in mem2. */
  lemma AfterHeader(mem: Mem, mem1: Mem, mem2: Mem, blocks: Blocks, blocks1: Blocks, except: set<Addr>, p: Addr)
    requires KeepBlocks(mem, mem1, blocks, except) && KeepBlocks(mem1, mem2, blocks1, {p}) && p in except
    requires forall q :: q in blocks && q !in except ==> q in blocks1 && blocks1[q] == blocks[q]
    requires forall q :: q in blocks1 && q !in except ==> q in blocks
    requires forall q :: q in except && q in blocks1 && q != p ==> !blocks1[q].state.Live?
    requires forall q :: q in blocks && blocks[q].state.Live? ==> blocks[q].size >= blocks[q].state.request
    requires p in blocks1 && blocks1[p].state.Live? && HeaderAt(mem2, p, blocks1[p].state.request) && Headers(mem, blocks)
    ensures OthersIntact(mem, blocks, mem2, blocks1, except) && Headers(mem2, blocks1)
  {
    hide KeepBlocks, Headers;
    KeepBlocksOf(mem1, mem2, blocks1, {p}, except);
    KeepBlocksTrans(mem, mem1, mem2, blocks, blocks1, except, except);
    assert except + except == except;
    IntactFromKeep(mem, blocks, mem2, blocks1, except);
    HeadersKept(mem, blocks, mem2, blocks1, except);
  }

  lemma RoomForRequest<K>(st: Store, w: map<K, Alloc>, k: K)
    requires World(st, w) && k in w
    ensures forall p :: p in w[k].blocks && w[k].blocks[p].state.Live? ==> w[k].blocks[p].size >= w[k].blocks[p].state.request
  {
    hide World;
    forall p | p in w[k].blocks && w[k].blocks[p].state.Live? ensures w[k].blocks[p].size >= w[k].blocks[p].state.request {
      LiveSize(st, w, k, p, w[k].blocks[p].state.request);
    }
  }

  /** The headers are right in the allocator's private heap, whether or not it runs. */
  ghost predicate PrivateHeaders(st: Store, a: Alloc) {
    && ChunksOk(st, a.chunks) && (forall i :: 0 <= i < |a.chunks| ==> |Private(st, a.chunks)[i].contents| == Private(st, a.chunks)[i].size)
    && Headers(MemOf(Private(st, a.chunks)), a.blocks)
  }

  /** Whatever keeps a private heap keeps its headers. */
  lemma HeadersStay(st: Store, a: Alloc, st': Store, a': Alloc)
    requires PrivateHeaders(st, a) && SamePrivate(st, a.chunks, st', a'.chunks)
    requires forall p :: p in a'.blocks && a'.blocks[p].state.Live? ==> p in a.blocks && a.blocks[p] == a'.blocks[p]
    ensures PrivateHeaders(st', a')
  {
    assert Private(st', a'.chunks) == Private(st, a.chunks);
  }

  /** Of an allocator that runs they are the headers in live memory. */
  lemma RunningHeaders<K>(st: Store, w: map<K, Alloc>, k: K)
    requires World(st, w) && Runs(st, w, k)
    ensures PrivateHeaders(st, w[k]) <==> Headers(st.bytes, w[k].blocks)
  {
    hide SharingInv, HeapInv, Headers;
    var a := w[k];
    assert Sound(st, a);
    HeadersArePrivate(st, a.chunks, a.heads, a.blocks, a.free);
  }

  /** Judged on the private heap, headers are those judged on live memory. */
  lemma HeadersArePrivate(st: Store, cs: seq<MmapChunk>, heads: seq<Addr>, blocks: Blocks, free: seq<seq<Addr>>)
    requires ChunksOk(st, cs) && Running(st, cs) && PrivateInv(Private(st, cs), heads, blocks, free)
    ensures Headers(st.bytes, blocks) <==> Headers(MemOf(Private(st, cs)), blocks)
  {
    var mem := MemOf(Private(st, cs));
    forall p | p in blocks && blocks[p].state.Live?
      ensures HeaderAt(st.bytes, p, blocks[p].state.request) <==> HeaderAt(mem, p, blocks[p].state.request)
    {
      RunningBytes(st, cs, blocks, p);
      assert Sized(RegionsOf(Private(st, cs)), p, blocks[p]);
      if blocks[p].state.request >= WORD {
        LoadFrame(mem, st.bytes, p);
      }
    }
  }

  ghost predicate Ready(alloc: KingsleyAlloc, all: set<KingsleyAlloc>)
    reads alloc, alloc.host, all, set a | a in all :: a.buckets
  {
    Machine(alloc.host, all) && alloc in all && alloc.MayRun() && Headers(alloc.host.store.bytes, alloc.blocks)
  }

  /** What malloc of size bytes may need from the kernel. */
  function MmapNeed(size: nat): nat {
    if size < DEFAULT_MMAP_SIZE then DEFAULT_MMAP_SIZE else size
  }

  /** Writing a live block's header. */
  method PutHeader(alloc: KingsleyAlloc, buffer: Addr, size: nat, ghost all: set<KingsleyAlloc>)
    requires Machine(alloc.host, all) && alloc in all && alloc.MayRun()
    requires alloc.Held(buffer, size) && WORD <= size < WORD_LIMIT
    modifies alloc.host
    ensures Machine(alloc.host, all) && alloc.MayRun()
    ensures HeaderAt(alloc.host.store.bytes, buffer, size)
    ensures KeepBlocks(old(alloc.host.store.bytes), alloc.host.store.bytes, alloc.blocks, {buffer})
    ensures Mapped(old(alloc.host.store.bytes), buffer, size) && Mapped(alloc.host.store.bytes, buffer, size)
    ensures Slice(alloc.host.store.bytes, buffer, size)[WORD..] == Slice(old(alloc.host.store.bytes), buffer, size)[WORD..]
    ensures alloc.host.store == old(alloc.host.store).(bytes := alloc.host.store.bytes)
    ensures OthersKeep(old(alloc.host.store), old(States(all)), alloc, alloc.host.store)
  {
    hide World, OthersKeep, KeepBlocks;
    ghost var w: Allocs := States(all);
    LiveSize(alloc.host.store, w, alloc, buffer, size);
    BlockMapped(alloc.host.store, w, alloc, buffer);
    LoadAfterStore(alloc.host.store.bytes, buffer, size);
    alloc.WriteBytes(buffer, buffer, Encode(size, WORD), all);
  }

  /** A pointer the process may free or realloc: it holds it, and a large block is not shared with a clone. */
  ghost predicate MayRelease(alloc: KingsleyAlloc, ptr: Addr, n: nat)
    reads alloc, alloc.host
  {
    UserHeld(alloc.blocks, ptr, n) && alloc.MayFree(ptr - WORD, n + WORD)
  }

  method DceMalloc(alloc: KingsleyAlloc, size: nat, base: Addr, ghost all: set<KingsleyAlloc>) returns (ptr: Addr)
    requires Ready(alloc, all) && size + WORD < WORD_LIMIT && alloc.CanMap(base, MmapNeed(size + WORD))
    modifies alloc, alloc.buckets, alloc.host
    ensures Ready(alloc, all) && UserHeld(alloc.blocks, ptr, size)
    ensures ptr - WORD in old(alloc.blocks) ==> old(alloc.blocks)[ptr - WORD].state.Listed?
    ensures alloc.blocks == old(alloc.blocks)[ptr - WORD := alloc.blocks[ptr - WORD]]
    ensures old(NoneLost(alloc.blocks)) ==> NoneLost(alloc.blocks)
    ensures OthersIntact(old(alloc.host.store.bytes), old(alloc.blocks), alloc.host.store.bytes, alloc.blocks, {ptr - WORD})
    ensures OthersKeep(old(alloc.host.store), old(States(all)), alloc, alloc.host.store)
  {
    hide World, OthersKeep, KeepBlocks, Headers, OthersIntact, NoneLost;
    ghost var st, w: Allocs, blocks := alloc.host.store, States(all), alloc.blocks;
    RoomForRequest(st, w, alloc);
    var buffer := alloc.Malloc(size + WORD, base, all);
    ghost var st1, w1: Allocs := alloc.host.store, States(all);
    PutHeader(alloc, buffer, size + WORD, all);
    ptr := buffer + WORD;
    OthersKeepTrans(st, w, alloc, st1, w1, alloc.host.store);
    KeepBlocksOf(st.bytes, st1.bytes, blocks, {}, {buffer});
    AfterHeader(st.bytes, st1.bytes, alloc.host.store.bytes, blocks, alloc.blocks, {buffer}, buffer);
  }

  /** The size stored in front of ptr is the size the process asked for. */
  method DceMallocUsableSize(alloc: KingsleyAlloc, ptr: Addr, ghost n: nat, ghost all: set<KingsleyAlloc>) returns (size: nat)
    requires Ready(alloc, all) && UserHeld(alloc.blocks, ptr, n)
    ensures size == n
  {
    hide World;
    assert HeaderAt(alloc.host.store.bytes, ptr - WORD, n + WORD);
    size := LoadWord(alloc.host.store.bytes, ptr - WORD) - WORD;
  }

  method DceFree(alloc: KingsleyAlloc, ptr: Addr, ghost n: nat, ghost all: set<KingsleyAlloc>)
    requires Ready(alloc, all) && (ptr == 0 || MayRelease(alloc, ptr, n))
    modifies alloc, alloc.buckets, alloc.host
    ensures Ready(alloc, all)
    ensures ptr == 0 ==> alloc.State() == old(alloc.State()) && alloc.host.store == old(alloc.host.store)
    ensures ptr != 0 && n + WORD < DEFAULT_MMAP_SIZE ==>
              alloc.blocks == old(alloc.blocks)[ptr - WORD := Block(old(alloc.blocks)[ptr - WORD].size, Listed(BucketOf(n + WORD)))]
    ensures ptr != 0 && n + WORD >= DEFAULT_MMAP_SIZE ==> alloc.blocks == old(alloc.blocks) - {ptr - WORD}
    ensures old(NoneLost(alloc.blocks)) ==> NoneLost(alloc.blocks)
    ensures OthersIntact(old(alloc.host.store.bytes), old(alloc.blocks), alloc.host.store.bytes, alloc.blocks, if ptr == 0 then {} else {ptr - WORD})
    ensures OthersKeep(old(alloc.host.store), old(States(all)), alloc, alloc.host.store)
  {
    hide World, OthersKeep, KeepBlocks, OthersIntact, Headers, NoneLost;
    ghost var st, w: Allocs, blocks := alloc.host.store, States(all), alloc.blocks;
    if ptr == 0 {
      NobodyTouched(st, w, alloc);
      NothingKeepsBlocks(st.bytes, blocks);
      IntactFromKeep(st.bytes, blocks, st.bytes, blocks, {});
      return;
    }
    var buffer := ptr - WORD;
    HeaderOf(st.bytes, blocks, buffer);
    RoomForRequest(st, w, alloc);
    var size := LoadWord(alloc.host.store.bytes, buffer);
    alloc.Free(buffer, size, all);
    IntactFromKeep(st.bytes, blocks, alloc.host.store.bytes, alloc.blocks, {buffer});
    HeadersKept(st.bytes, blocks, alloc.host.store.bytes, alloc.blocks, {buffer});
  }

  lemma HeaderOf(mem: Mem, blocks: Blocks, p: Addr)
    requires Headers(mem, blocks) && p in blocks && blocks[p].state.Live?
    ensures HeaderAt(mem, p, blocks[p].state.request)
  {
  }

  /** User bytes of two blocks whose first old + WORD bytes agree, headers aside. */
  lemma UserBytes(mem: Mem, p: Addr, mem1: Mem, mem2: Mem, q: Addr, n: nat, size: nat)
    requires n <= size && Mapped(mem, p, n + WORD) && Mapped(mem1, q, size + WORD) && Mapped(mem2, q, size + WORD)
    requires Slice(mem1, q, n + WORD) == Slice(mem, p, n + WORD)
    requires Slice(mem2, q, size + WORD)[WORD..] == Slice(mem1, q, size + WORD)[WORD..]
    ensures Mapped(mem, p + WORD, n) && Mapped(mem2, q + WORD, n)
    ensures Slice(mem2, q + WORD, n) == Slice(mem, p + WORD, n)
  {
    var s2, s1, s0 := Slice(mem2, q, size + WORD), Slice(mem1, q, size + WORD), Slice(mem1, q, n + WORD);
    var u, v := Slice(mem2, q + WORD, n), Slice(mem, p + WORD, n);
    forall i | 0 <= i < n ensures u[i] == v[i] {
      assert s2[WORD..][i] == s1[WORD..][i];
      assert s0[WORD + i] == Slice(mem, p, n + WORD)[WORD + i];
    }
  }

  /** Block p, of size bytes, has been given back: to its bucket, or with its chunk. */
  ghost predicate FreedAs(blocks: Blocks, blocks': Blocks, p: Addr, size: nat) {
    && (p in blocks' <==> size < DEFAULT_MMAP_SIZE)
    && (p in blocks' ==> p in blocks && blocks'[p] == Block(blocks[p].size, Listed(BucketOf(size))))
  }

  /** Realloc, with the old size read from the header. */
  method MoveBlock(alloc: KingsleyAlloc, buffer: Addr, size: nat, ghost n: nat, base: Addr, ghost all: set<KingsleyAlloc>) returns (newBuffer: Addr)
    requires Ready(alloc, all) && alloc.MayFree(buffer, n) && WORD <= n < size < WORD_LIMIT && alloc.CanMap(base, MmapNeed(size))
    modifies alloc, alloc.buckets, alloc.host
    ensures Machine(alloc.host, all) && alloc.MayRun()
    ensures newBuffer != buffer && alloc.Held(newBuffer, size) && (buffer in alloc.blocks ==> !alloc.blocks[buffer].state.Live?)
    ensures newBuffer in old(alloc.blocks) ==> old(alloc.blocks)[newBuffer].state.Listed?
    ensures FreedAs(old(alloc.blocks), alloc.blocks, buffer, n) && (old(NoneLost(alloc.blocks)) ==> NoneLost(alloc.blocks))
    ensures forall q :: q != buffer && q != newBuffer ==>
              (q in alloc.blocks <==> q in old(alloc.blocks)) && (q in old(alloc.blocks) ==> alloc.blocks[q] == old(alloc.blocks)[q])
    ensures Mapped(old(alloc.host.store.bytes), buffer, n) && Mapped(alloc.host.store.bytes, newBuffer, n)
    ensures Slice(alloc.host.store.bytes, newBuffer, n) == Slice(old(alloc.host.store.bytes), buffer, n)
    ensures KeepBlocks(old(alloc.host.store.bytes), alloc.host.store.bytes, old(alloc.blocks), {buffer, newBuffer})
    ensures OthersKeep(old(alloc.host.store), old(States(all)), alloc, alloc.host.store)
  {
    hide World, OthersKeep, KeepBlocks, Headers, LoadWord, NoneLost;
    ghost var blocks := alloc.blocks;
    StoredSize(alloc.host.store.bytes, blocks, buffer);
    var oldSize := LoadWord(alloc.host.store.bytes, buffer);
    newBuffer := alloc.Realloc(buffer, oldSize, size, base, all);
    ReallocBlocks(blocks, alloc.blocks, buffer, newBuffer);
  }

  /** realloc of a block that must grow. */
  method GrowBlock(alloc: KingsleyAlloc, ptr: Addr, size: nat, ghost n: nat, base: Addr, ghost all: set<KingsleyAlloc>) returns (r: Addr)
    requires Ready(alloc, all) && MayRelease(alloc, ptr, n)
    requires n < size && size + WORD < WORD_LIMIT && alloc.CanMap(base, MmapNeed(size + WORD))
    modifies alloc, alloc.buckets, alloc.host
    ensures Ready(alloc, all)
    ensures r != ptr && UserHeld(alloc.blocks, r, size) && FreedAs(old(alloc.blocks), alloc.blocks, ptr - WORD, n + WORD)
    ensures r - WORD in old(alloc.blocks) ==> old(alloc.blocks)[r - WORD].state.Listed?
    ensures old(NoneLost(alloc.blocks)) ==> NoneLost(alloc.blocks)
    ensures Mapped(old(alloc.host.store.bytes), ptr, n) && Mapped(alloc.host.store.bytes, r, n)
    ensures Slice(alloc.host.store.bytes, r, n) == Slice(old(alloc.host.store.bytes), ptr, n)
    ensures OthersIntact(old(alloc.host.store.bytes), old(alloc.blocks), alloc.host.store.bytes, alloc.blocks, {ptr - WORD, r - WORD})
    ensures OthersKeep(old(alloc.host.store), old(States(all)), alloc, alloc.host.store)
  {
    hide World, OthersKeep, KeepBlocks, OthersIntact, Headers, HeaderAt, NoneLost, FreedAs;
    ghost var st, w: Allocs, blocks := alloc.host.store, States(all), alloc.blocks;
    var buffer := ptr - WORD;
    RoomForRequest(st, w, alloc);
    var newBuffer := MoveBlock(alloc, buffer, size + WORD, n + WORD, base, all);
    ghost var st1, w1: Allocs := alloc.host.store, States(all);
    PutHeader(alloc, newBuffer, size + WORD, all);
    r := newBuffer + WORD;
    UserBytes(st.bytes, buffer, st1.bytes, alloc.host.store.bytes, newBuffer, n, size);
    OthersKeepTrans(st, w, alloc, st1, w1, alloc.host.store);
    ghost var moved: set<Addr> := {buffer, newBuffer};
    AfterHeader(st.bytes, st1.bytes, alloc.host.store.bytes, blocks, alloc.blocks, moved, newBuffer);
  }

  lemma StoredSize(mem: Mem, blocks: Blocks, p: Addr)
    requires Headers(mem, blocks) && p in blocks && blocks[p].state.Live?
    ensures Mapped(mem, p, WORD) && LoadWord(mem, p) == blocks[p].state.request && WORD <= blocks[p].state.request < WORD_LIMIT
  {
    HeaderOf(mem, blocks, p);
  }

  lemma ReallocBlocks(blocks: Blocks, blocks': Blocks, p: Addr, q: Addr)
    requires q in blocks' && blocks' - {p} == blocks[q := blocks'[q]] - {p}
    ensures forall x :: x != p && x != q ==> (x in blocks' <==> x in blocks) && (x in blocks ==> blocks'[x] == blocks[x])
  {
    forall x | x != p && x != q ensures (x in blocks' <==> x in blocks) && (x in blocks ==> blocks'[x] == blocks[x]) {
      assert x in blocks' - {p} <==> x in blocks[q := blocks'[q]] - {p};
      if x in blocks {
        assert (blocks' - {p})[x] == (blocks[q := blocks'[q]] - {p})[x];
      }
    }
  }

  method DceRealloc(alloc: KingsleyAlloc, ptr: Addr, size: nat, ghost n: nat, base: Addr, ghost all: set<KingsleyAlloc>) returns (r: Addr)
    requires Ready(alloc, all) && (ptr == 0 || MayRelease(alloc, ptr, n))
    requires size + WORD < WORD_LIMIT && alloc.CanMap(base, MmapNeed(size + WORD))
    modifies alloc, alloc.buckets, alloc.host
    ensures Ready(alloc, all)
    ensures (ptr == 0 && size == 0) || (ptr != 0 && size <= n) ==>
              r == ptr && alloc.State() == old(alloc.State()) && alloc.host.store == old(alloc.host.store)
    ensures r == 0 <==> ptr == 0 && size == 0
    ensures r != 0 ==> UserHeld(alloc.blocks, r, if ptr != 0 && size <= n then n else size)
    ensures ptr == 0 && size > 0 ==> alloc.blocks == old(alloc.blocks)[r - WORD := alloc.blocks[r - WORD]]
    ensures ptr != 0 && size > n ==>
              && r != ptr && FreedAs(old(alloc.blocks), alloc.blocks, ptr - WORD, n + WORD)
              && Mapped(old(alloc.host.store.bytes), ptr, n) && Mapped(alloc.host.store.bytes, r, n)
              && Slice(alloc.host.store.bytes, r, n) == Slice(old(alloc.host.store.bytes), ptr, n)
    ensures r != ptr && r - WORD in old(alloc.blocks) ==> old(alloc.blocks)[r - WORD].state.Listed?
    ensures old(NoneLost(alloc.blocks)) ==> NoneLost(alloc.blocks)
    ensures OthersIntact(old(alloc.host.store.bytes), old(alloc.blocks), alloc.host.store.bytes, alloc.blocks, {ptr - WORD, r - WORD})
    ensures OthersKeep(old(alloc.host.store), old(States(all)), alloc, alloc.host.store)
  {
    hide World, OthersKeep, KeepBlocks, OthersIntact, Headers, NoneLost, FreedAs;
    ghost var st, w: Allocs, blocks := alloc.host.store, States(all), alloc.blocks;
    NobodyTouched(st, w, alloc);
    NothingKeepsBlocks(st.bytes, blocks);
    IntactFromKeep(st.bytes, blocks, st.bytes, blocks, {});
    if ptr == 0 && size == 0 {
      IntactMore(st.bytes, blocks, st.bytes, blocks, {}, {ptr - WORD, ptr - WORD});
      return 0;
    }
    if ptr == 0 {
      r := DceMalloc(alloc, size, base, all);
      IntactMore(st.bytes, blocks, alloc.host.store.bytes, alloc.blocks, {r - WORD}, {ptr - WORD, r - WORD});
      return;
    }
    HeaderOf(st.bytes, blocks, ptr - WORD);
    var oldSize := LoadWord(alloc.host.store.bytes, ptr - WORD);
    if size + WORD <= oldSize {
      IntactMore(st.bytes, blocks, st.bytes, blocks, {}, {ptr - WORD, ptr - WORD});
      return ptr;
    }
    r := GrowBlock(alloc, ptr, size, n, base, all);
  }

  lemma IntactMore(mem: Mem, blocks: Blocks, mem': Mem, blocks': Blocks, except: set<int>, except': set<int>)
    requires OthersIntact(mem, blocks, mem', blocks', except) && except <= except'
    ensures OthersIntact(mem, blocks, mem', blocks', except')
  {
  }

  /** calloc's memset, on the user part of a live block. */
  method MemsetZero(alloc: KingsleyAlloc, ptr: Addr, n: nat, ghost all: set<KingsleyAlloc>)
    requires Ready(alloc, all) && UserHeld(alloc.blocks, ptr, n)
    modifies alloc.host
    ensures Ready(alloc, all)
    ensures ZeroAt(alloc.host.store.bytes, ptr, n)
    ensures KeepBlocks(old(alloc.host.store.bytes), alloc.host.store.bytes, alloc.blocks, {ptr - WORD})
    ensures OthersKeep(old(alloc.host.store), old(States(all)), alloc, alloc.host.store)
  {
    hide World, OthersKeep, KeepBlocks, OthersIntact, Headers;
    ghost var st, w: Allocs, blocks, p := alloc.host.store, States(all), alloc.blocks, ptr - WORD;
    LiveSize(st, w, alloc, p, n + WORD);
    BlockMapped(st, w, alloc, p);
    RoomForRequest(st, w, alloc);
    HeaderOf(st.bytes, blocks, p);
    alloc.WriteBytes(ptr - WORD, ptr, seq(n, _ => 0), all);
    LoadFrame(st.bytes, alloc.host.store.bytes, p);
    IntactFromKeep(st.bytes, blocks, alloc.host.store.bytes, blocks, {p});
    HeadersKept(st.bytes, blocks, alloc.host.store.bytes, blocks, {p});
  }

  /** calloc: malloc and memset. */
  method DceCalloc(alloc: KingsleyAlloc, nmemb: nat, size: nat, base: Addr, ghost all: set<KingsleyAlloc>) returns (ptr: Addr)
    requires Ready(alloc, all) && nmemb * size + WORD < WORD_LIMIT && alloc.CanMap(base, MmapNeed(nmemb * size + WORD))
    modifies alloc, alloc.buckets, alloc.host
    ensures Ready(alloc, all) && UserHeld(alloc.blocks, ptr, nmemb * size)
    ensures ZeroAt(alloc.host.store.bytes, ptr, nmemb * size)
    ensures alloc.blocks == old(alloc.blocks)[ptr - WORD := alloc.blocks[ptr - WORD]]
    ensures ptr - WORD in old(alloc.blocks) ==> old(alloc.blocks)[ptr - WORD].state.Listed?
    ensures old(NoneLost(alloc.blocks)) ==> NoneLost(alloc.blocks)
    ensures OthersIntact(old(alloc.host.store.bytes), old(alloc.blocks), alloc.host.store.bytes, alloc.blocks, {ptr - WORD})
    ensures OthersKeep(old(alloc.host.store), old(States(all)), alloc, alloc.host.store)
  {
    hide World, OthersKeep, KeepBlocks, OthersIntact, Headers;
    ghost var st, w: Allocs, blocks := alloc.host.store, States(all), alloc.blocks;
    var n := nmemb * size;
    ptr := DceMalloc(alloc, n, base, all);
    ghost var st1, w1: Allocs, blocks1 := alloc.host.store, States(all), alloc.blocks;
    MemsetZero(alloc, ptr, n, all);
    OthersKeepTrans(st, w, alloc, st1, w1, alloc.host.store);
    IntactThenKeep(st.bytes, blocks, st1.bytes, blocks1, alloc.host.store.bytes, {ptr - WORD});
  }

  lemma IntactThenKeep(mem: Mem, blocks: Blocks, mem1: Mem, blocks1: Blocks, mem2: Mem, except: set<Addr>)
    requires OthersIntact(mem, blocks, mem1, blocks1, except) && KeepBlocks(mem1, mem2, blocks1, except)
    ensures OthersIntact(mem, blocks, mem2, blocks1, except)
  {
    forall p: Addr | p in blocks && blocks[p].state.Live? && p !in except ensures SameBytes(mem, mem2, p, blocks[p].size) {
      assert SameBytes(mem, mem1, p, blocks[p].size) && SameBytes(mem1, mem2, p, blocks1[p].size);
    }
  }

  /** fork: the parent goes on, and the child's private heap has the right headers before it ever runs. */
  method DceFork(alloc: KingsleyAlloc, ghost all: set<KingsleyAlloc>) returns (clone: KingsleyAlloc)
    requires Ready(alloc, all)
    modifies alloc`chunks, alloc.host
    ensures fresh(clone) && clone !in all && clone.host == alloc.host && Ready(alloc, all + {clone})
    ensures PrivateHeaders(alloc.host.store, clone.State())
    ensures forall b :: b in all && old(PrivateHeaders(b.host.store, b.State())) ==> PrivateHeaders(b.host.store, b.State())
  {
    hide World, SamePrivate, Headers, PrivateHeaders, NoneLost;
    ghost var st, w: Allocs := alloc.host.store, States(all);
    RunningHeaders<KingsleyAlloc>(st, w, alloc);
    clone := alloc.Clone(all);
    ghost var w': Allocs := States(all + {clone});
    forall b | b in all && PrivateHeaders(st, w[b]) ensures PrivateHeaders(alloc.host.store, b.State()) {
      HeadersStay(st, w[b], alloc.host.store, b.State());
    }
    HeadersStay(st, w[alloc], alloc.host.store, clone.State());
    RunningHeaders<KingsleyAlloc>(alloc.host.store, w', alloc);
  }

  /** A switch to a process whose private heap has the right headers: it may go on as it left off, and all
      others keep theirs. */
  method DceSwitch(alloc: KingsleyAlloc, ghost all: set<KingsleyAlloc>)
    requires Machine(alloc.host, all) && alloc in all && PrivateHeaders(alloc.host.store, alloc.State())
    modifies alloc.host
    ensures Ready(alloc, all) && alloc.State() == old(alloc.State())
    ensures forall b :: b in all && old(PrivateHeaders(b.host.store, b.State())) ==> PrivateHeaders(b.host.store, b.State())
  {
    hide World, SamePrivate, Headers, PrivateHeaders;
    ghost var st, w: Allocs := alloc.host.store, States(all);
    alloc.SwitchTo(all);
    forall b | b in all && PrivateHeaders(st, w[b]) ensures PrivateHeaders(alloc.host.store, b.State()) {
      HeadersStay(st, w[b], alloc.host.store, b.State());
    }
    RunningHeaders<KingsleyAlloc>(alloc.host.store, States(all), alloc);
  }
}
