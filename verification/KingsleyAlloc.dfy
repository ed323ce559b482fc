/** The allocator itself. Several allocators, one per simulated process, work on one host memory;
    `all` is the set of those that exist. An allocator may run (malloc, free, write, clone) when it
    owns the live buffers of all its chunks, which is what SwitchTo arranges. */
module KingsleyAllocator {
  import opened FiniteSets
  import opened Memory
  import opened KingsleyHeap
  import opened PrivateHeaps
  import opened KingsleyMachine

  class Host {
    var store: Store

    constructor ()
      ensures store == Store(map[], map[], map[])
    {
      store := Store(map[], map[], map[]);
    }
  }

  ghost function States(all: set<KingsleyAlloc>): Allocs
    reads all, set a | a in all :: a.buckets
  {
    map a | a in all :: a.State()
  }

  ghost predicate Separate(host: Host, all: set<KingsleyAlloc>) {
    && (forall a :: a in all ==> a.host == host && a.buckets.Length == BUCKETS)
    && (forall a, b :: a in all && b in all && a != b ==> a.buckets != b.buckets)
  }

  /** The allocators `all` share host consistently, and each has a sound private heap. */
  ghost predicate Machine(host: Host, all: set<KingsleyAlloc>)
    reads host, all, set a | a in all :: a.buckets
  {
    Separate(host, all) && World(host.store, States(all))
  }

  type Allocs = map<KingsleyAlloc, Alloc>

  lemma UpdateTwice<K, V>(m: map<K, V>, k: K, v: V, v': V)
    ensures m[k := v][k := v'] == m[k := v']
  {
  }

  ghost function With(w: Allocs, k: KingsleyAlloc, v: Alloc, l: KingsleyAlloc, u: Alloc): Allocs {
    w[k := v][l := u]
  }

  lemma WithAgain(w: Allocs, k: KingsleyAlloc, v: Alloc, v': Alloc, l: KingsleyAlloc, u: Alloc, u': Alloc)
    ensures With(w, k, v, l, u)[k := v'][l := u'] == With(w, k, v', l, u')
  {
  }

  class KingsleyAlloc {
    const host: Host
    /** m_chunks and m_buckets. */
    var chunks: seq<MmapChunk>
    const buckets: array<Addr>
    /** Every block ever cut from the chunks, and what the bucket lists hold. */
    ghost var blocks: Blocks
    ghost var free: seq<seq<Addr>>

    ghost function State(): Alloc
      reads this, buckets
    {
      Alloc(chunks, buckets[..], blocks, free)
    }

    ghost predicate MayRun()
      reads this, host
    {
      Running(host.store, chunks)
    }

    /** The kernel can map n bytes at base. */
    ghost predicate CanMap(base: Addr, n: nat)
      reads host
    {
      0 < base && base + n <= WORD_LIMIT && Unmapped(host.store.bytes, base, n)
    }

    constructor (host: Host, ghost all: set<KingsleyAlloc>)
      requires Machine(host, all)
      ensures Machine(host, all + {this}) && MayRun() && this !in all
      ensures this.host == host && fresh(buckets)
      ensures State() == EmptyAlloc() && NoneLost(blocks)
    {
      hide World;
      this.host := host;
      chunks := [];
      buckets := new Addr[BUCKETS](_ => 0);
      blocks := map[];
      free := seq(BUCKETS, _ => []);
      new;
      ghost var w: Allocs := States(all);
      assert buckets[..] == seq(BUCKETS, _ => 0);
      assert State() == EmptyAlloc();
      NewStep(host.store, w, this);
      assert States(all + {this}) == w[this := EmptyAlloc()];
    }

    /** MmapAlloc: base is the address the kernel's mmap returns. */
    method MmapAlloc(size: nat, base: Addr, ghost all: set<KingsleyAlloc>) returns (ghost id: nat)
      requires Machine(host, all) && this in all && MayRun()
      requires 0 < size && CanMap(base, size)
      modifies this`chunks, host
      ensures Machine(host, all) && MayRun()
      ensures id !in old(host.store.mmaps)
      ensures host.store == MapChunk(old(host.store), id, base, size)
      ensures chunks == [MmapChunk(id, Null, 0)] + old(chunks)
      ensures OthersKeep(old(host.store), old(States(all)), this, host.store)
    {
      hide World;
      ghost var st, w: Allocs := host.store, States(all);
      FreshNumber(host.store.mmaps.Keys);
      var handle: nat :| handle !in host.store.mmaps;
      id := handle;
      MapStep(st, w, this, id, base, size);
      host.store := MapChunk(host.store, handle, base, size);
      chunks := [MmapChunk(handle, Null, 0)] + chunks;
      assert States(all) == w[this := State()];
    }

    predicate HasRoom(c: MmapChunk, needed: nat)
      reads host
    {
      c.mmap in host.store.mmaps && c.brk + needed <= host.store.mmaps[c.mmap].size
    }

    /** i is the first chunk with room, or the number of chunks when none has any. */
    ghost predicate FirstFit(needed: nat, i: nat)
      reads this, host
    {
      && i <= |chunks|
      && (i < |chunks| ==> HasRoom(chunks[i], needed))
      && forall j :: 0 <= j < i ==> !HasRoom(chunks[j], needed)
    }

    /** The two assignments of Brk: take needed bytes at chunk i's brk. */
    method Cut(i: nat, needed: nat, ghost all: set<KingsleyAlloc>) returns (buffer: Addr)
      requires Machine(host, all) && this in all && MayRun()
      requires 0 < needed && i < |chunks| && HasRoom(chunks[i], needed)
      modifies this`chunks, this`blocks
      ensures Machine(host, all) && MayRun()
      ensures buffer !in old(blocks) && blocks == old(blocks)[buffer := Block(needed, Lost)]
      ensures chunks == old(chunks)[i := old(chunks)[i].(brk := old(chunks)[i].brk + needed)]
      ensures buffer == host.store.mmaps[chunks[i].mmap].buffer + old(chunks)[i].brk
    {
      hide World, OthersKeep;
      ghost var w: Allocs := States(all);
      var c := chunks[i];
      BumpStep(host.store, w, this, i, needed);
      buffer := host.store.mmaps[c.mmap].buffer + c.brk;
      chunks := chunks[i := c.(brk := c.brk + needed)];
      blocks := blocks[buffer := Block(needed, Lost)];
      assert States(all) == w[this := State()];
    }

    /** Brk: cut needed bytes from the first chunk with room, else from a new default chunk at base.
        The recursion happens once: the new chunk has room. */
    method Brk(needed: nat, base: Addr, ghost all: set<KingsleyAlloc>) returns (buffer: Addr, ghost at: nat)
      requires Machine(host, all) && this in all && MayRun()
      requires 0 < needed
      requires FirstFit(needed, |chunks|) ==> needed <= DEFAULT_MMAP_SIZE && CanMap(base, DEFAULT_MMAP_SIZE)
      modifies this`chunks, this`blocks, host
      ensures Machine(host, all) && MayRun()
      ensures buffer !in old(blocks) && blocks == old(blocks)[buffer := Block(needed, Lost)]
      ensures !old(FirstFit(needed, |chunks|)) ==>
                && old(FirstFit(needed, at)) && at < |old(chunks)| && host.store == old(host.store)
                && chunks == old(chunks)[at := old(chunks)[at].(brk := old(chunks)[at].brk + needed)]
                && buffer == host.store.mmaps[chunks[at].mmap].buffer + old(chunks)[at].brk
      ensures old(FirstFit(needed, |chunks|)) ==>
                && buffer == base && |chunks| == |old(chunks)| + 1 && chunks[1..] == old(chunks)
                && chunks[0].mmap !in old(host.store.mmaps) && chunks[0] == MmapChunk(chunks[0].mmap, Null, needed)
                && host.store == MapChunk(old(host.store), chunks[0].mmap, base, DEFAULT_MMAP_SIZE)
      ensures OthersKeep(old(host.store), old(States(all)), this, host.store)
      decreases if FirstFit(needed, |chunks|) then 1 else 0, 1
    {
      hide World, OthersKeep;
      ghost var st, w: Allocs := host.store, States(all);
      HeapFacts(st, w, this);
      NobodyTouched(st, w, this);
      for i := 0 to |chunks|
        invariant chunks == old(chunks) && blocks == old(blocks) && host.store == st
        invariant forall j :: 0 <= j < i ==> !HasRoom(chunks[j], needed)
      {
        var c := chunks[i];
        assert c in chunks;
        var mmap := host.store.mmaps[c.mmap];
        if mmap.size - c.brk >= needed {
          buffer := Cut(i, needed, all);
          at := i;
          assert old(FirstFit(needed, i));
          assert !old(FirstFit(needed, |chunks|));
          return;
        }
      }
      buffer := BrkAfterMmap(needed, base, all);
      at := 0;
    }

    /** The tail of Brk, when no chunk has room: map a default chunk and try again. */
    method BrkAfterMmap(needed: nat, base: Addr, ghost all: set<KingsleyAlloc>) returns (buffer: Addr)
      requires Machine(host, all) && this in all && MayRun()
      requires 0 < needed <= DEFAULT_MMAP_SIZE && CanMap(base, DEFAULT_MMAP_SIZE) && FirstFit(needed, |chunks|)
      modifies this`chunks, this`blocks, host
      ensures Machine(host, all) && MayRun()
      ensures buffer !in old(blocks) && blocks == old(blocks)[buffer := Block(needed, Lost)]
      ensures buffer == base && |chunks| == |old(chunks)| + 1 && chunks[1..] == old(chunks)
      ensures chunks[0].mmap !in old(host.store.mmaps) && chunks[0] == MmapChunk(chunks[0].mmap, Null, needed)
      ensures host.store == MapChunk(old(host.store), chunks[0].mmap, base, DEFAULT_MMAP_SIZE)
      ensures OthersKeep(old(host.store), old(States(all)), this, host.store)
      decreases 1, 0
    {
      hide World, OthersKeep;
      ghost var st, w: Allocs := host.store, States(all);
      ghost var id := MmapAlloc(DEFAULT_MMAP_SIZE, base, all);
      assert FirstFit(needed, 0);
      ghost var st1, w1: Allocs := host.store, States(all);
      ghost var at;
      buffer, at := Brk(needed, base, all);
      assert at == 0;
      OthersKeepTrans(st, w, this, st1, w1, host.store);
    }

    /** The block goes in front of its bucket's list, linked through its own first word. */
    method PushFront(avail: Addr, bucket: nat, ghost all: set<KingsleyAlloc>)
      requires Machine(host, all) && this in all && MayRun()
      requires bucket < BUCKETS && avail in blocks && !blocks[avail].state.Listed? && blocks[avail].size == BucketToSize(bucket)
      modifies this`blocks, this`free, buckets, host
      ensures Machine(host, all) && MayRun()
      ensures buckets[..] == old(buckets[..])[bucket := avail] && avail != 0
      ensures blocks == old(blocks)[avail := Block(BucketToSize(bucket), Listed(bucket))]
      ensures |old(free)| == BUCKETS && free == old(free)[bucket := [avail] + old(free)[bucket]]
      ensures host.store == old(host.store).(bytes := host.store.bytes) && host.store.bytes.Keys == old(host.store.bytes.Keys)
      ensures KeepBlocks(old(host.store.bytes), host.store.bytes, old(blocks), {avail})
      ensures OthersKeep(old(host.store), old(States(all)), this, host.store)
    {
      hide World, OthersKeep, KeepBlocks, SharedAsBefore;
      ghost var w: Allocs := States(all);
      HeapFacts(host.store, w, this);
      Pow2Positive(bucket);
      BlockMapped(host.store, w, this, avail);
      PushStep(host.store, w, this, avail, bucket);
      WriteKeepsBlocks(host.store, w, this, avail, avail, Encode(buckets[bucket], WORD));
      host.store := host.store.(bytes := StoreWord(host.store.bytes, avail, buckets[bucket]));
      buckets[bucket] := avail;
      blocks := blocks[avail := blocks[avail].(state := Listed(bucket))];
      free := free[bucket := [avail] + free[bucket]];
      assert States(all) == w[this := State()];
    }

    /** Malloc, when the bucket is empty: cut one block and make it the whole list. */
    method Refill(bucket: nat, base: Addr, ghost all: set<KingsleyAlloc>)
      requires Machine(host, all) && this in all && MayRun()
      requires bucket < BUCKETS && BucketToSize(bucket) <= DEFAULT_MMAP_SIZE && buckets.Length == BUCKETS && buckets[bucket] == 0
      requires CanMap(base, DEFAULT_MMAP_SIZE)
      modifies this, buckets, host
      ensures Machine(host, all) && MayRun()
      ensures buckets[bucket] != 0 && buckets[bucket] !in old(blocks)
      ensures blocks == old(blocks)[buckets[bucket] := Block(BucketToSize(bucket), Listed(bucket))]
      ensures |chunks| == |old(chunks)| + if old(FirstFit(BucketToSize(bucket), |chunks|)) then 1 else 0
      ensures KeepBlocks(old(host.store.bytes), host.store.bytes, old(blocks), {})
      ensures SharedAsBefore(old(host.store), old(chunks), host.store, chunks)
      ensures OthersKeep(old(host.store), old(States(all)), this, host.store)
    {
      hide World, OthersKeep, KeepBlocks, SharedAsBefore;
      ghost var st, w: Allocs := host.store, States(all);
      Pow2Positive(bucket);
      MapKeepsBlocks(st.bytes, base, DEFAULT_MMAP_SIZE, blocks);
      NothingKeepsBlocks(st.bytes, blocks);
      ghost var at;
      var avail;
      avail, at := Brk(BucketToSize(bucket), base, all);
      GrownShared(st, old(chunks), host.store, chunks);
      ghost var st1, w1: Allocs, blocks1 := host.store, States(all), blocks;
      PushFront(avail, bucket, all);
      OthersKeepTrans(st, w, this, st1, w1, host.store);
      KeepBlocksTrans(st.bytes, st1.bytes, host.store.bytes, old(blocks), blocks1, {}, {avail});
      KeepBlocksOf(st.bytes, host.store.bytes, old(blocks), {} + {avail}, {});
      SharedSameMmaps(st, old(chunks), st1, chunks, host.store);
      UpdateTwice(old(blocks), avail, Block(BucketToSize(bucket), Lost), Block(BucketToSize(bucket), Listed(bucket)));
    }

    /** Malloc's fast path: hand out the head of the bucket's list. */
    method Pop(bucket: nat, size: nat, ghost all: set<KingsleyAlloc>) returns (buffer: Addr)
      requires Machine(host, all) && this in all && MayRun()
      requires bucket < BUCKETS && buckets.Length == BUCKETS && buckets[bucket] != 0
      requires 1 <= size < DEFAULT_MMAP_SIZE && bucket == BucketOf(size)
      modifies this`blocks, this`free, buckets
      ensures Machine(host, all) && MayRun()
      ensures buffer == old(buckets[bucket]) && buffer in old(blocks) && old(blocks)[buffer].state == Listed(bucket)
      ensures blocks == old(blocks)[buffer := Block(old(blocks)[buffer].size, Live(size))]
      ensures |old(free)| == BUCKETS && old(free)[bucket] != [] && free == old(free)[bucket := old(free)[bucket][1..]]
    {
      hide World, OthersKeep;
      ghost var w: Allocs := States(all);
      HeapFacts(host.store, w, this);
      PopStep(host.store, w, this, bucket, size);
      buffer := buckets[bucket];
      buckets[bucket] := LoadWord(host.store.bytes, buffer);
      blocks := blocks[buffer := blocks[buffer].(state := Live(size))];
      free := free[bucket := free[bucket][1..]];
      assert States(all) == w[this := State()];
    }

    /** The block that fills the first chunk becomes the client's. */
    ghost method Claim(size: nat, all: set<KingsleyAlloc>)
      requires Machine(host, all) && this in all && MayRun() && chunks != [] && DEFAULT_MMAP_SIZE <= size
      requires chunks[0].mmap in host.store.mmaps && chunks[0].brk == host.store.mmaps[chunks[0].mmap].size == size
      requires host.store.mmaps[chunks[0].mmap].buffer in blocks
      requires blocks[host.store.mmaps[chunks[0].mmap].buffer] == Block(size, Lost)
      modifies this`blocks
      ensures Machine(host, all) && MayRun()
      ensures blocks == old(blocks)[host.store.mmaps[chunks[0].mmap].buffer := Block(size, Live(size))]
    {
      hide World;
      var w: Allocs := States(all);
      ClaimStep(host.store, w, this, 0, size);
      blocks := blocks[host.store.mmaps[chunks[0].mmap].buffer := Block(size, Live(size))];
      assert States(all) == w[this := State()];
    }

    /** Malloc's slow path: a chunk of its own, handed out whole. */
    method MallocLarge(size: nat, base: Addr, ghost all: set<KingsleyAlloc>) returns (buffer: Addr)
      requires Machine(host, all) && this in all && MayRun()
      requires DEFAULT_MMAP_SIZE <= size && CanMap(base, size)
      modifies this`chunks, this`blocks, host
      ensures Machine(host, all) && MayRun()
      ensures buffer == base && buffer !in old(blocks)
      ensures blocks == old(blocks)[buffer := Block(size, Live(size))]
      ensures |chunks| == |old(chunks)| + 1 && chunks[1..] == old(chunks) && chunks[0] == MmapChunk(chunks[0].mmap, Null, size)
      ensures chunks[0].mmap in host.store.mmaps && host.store.mmaps[chunks[0].mmap] == Mmap(1, size, base, LiveBuffer)
      ensures KeepBlocks(old(host.store.bytes), host.store.bytes, old(blocks), {})
      ensures SharedAsBefore(old(host.store), old(chunks), host.store, chunks)
      ensures OthersKeep(old(host.store), old(States(all)), this, host.store)
    {
      hide World, OthersKeep, KeepBlocks, SharedAsBefore;
      ghost var st, w: Allocs := host.store, States(all);
      MapKeepsBlocks(st.bytes, base, size, blocks);
      ghost var id := MmapAlloc(size, base, all);
      ghost var st1, w1: Allocs := host.store, States(all);
      assert FirstFit(size, 0);
      ghost var at;
      buffer, at := Brk(size, base, all);
      ghost var st2, w2: Allocs := host.store, States(all);
      OthersKeepTrans(st, w, this, st1, w1, st2);
      assert at == 0;
      GrownShared(st, old(chunks), host.store, chunks);
      Claim(size, all);
      UpdateTwice(old(blocks), buffer, Block(size, Lost), Block(size, Live(size)));
    }

    /** Neither the bucket's list nor any chunk has a block to give. */
    ghost predicate NeedsChunk(bucket: nat)
      reads this, host
    {
      bucket < |free| && free[bucket] == [] && FirstFit(BucketToSize(bucket), |chunks|)
    }

    /** Malloc below the mmap threshold. A chunk is mapped only when it is needed. */
    method MallocSmall(size: nat, base: Addr, ghost all: set<KingsleyAlloc>) returns (buffer: Addr)
      requires Machine(host, all) && this in all && MayRun()
      requires 1 <= size < DEFAULT_MMAP_SIZE && CanMap(base, DEFAULT_MMAP_SIZE)
      modifies this, buckets, host
      ensures Machine(host, all) && MayRun()
      ensures buffer in blocks && blocks == old(blocks)[buffer := Block(BucketToSize(BucketOf(size)), Live(size))]
      ensures buffer in old(blocks) ==> old(blocks)[buffer] == Block(blocks[buffer].size, Listed(BucketOf(size)))
      ensures BucketOf(size) < |old(free)| == BUCKETS && (old(free)[BucketOf(size)] != [] ==> buffer == old(free)[BucketOf(size)][0])
      ensures |chunks| == |old(chunks)| + if old(NeedsChunk(BucketOf(size))) then 1 else 0
      ensures KeepBlocks(old(host.store.bytes), host.store.bytes, old(blocks), {})
      ensures SharedAsBefore(old(host.store), old(chunks), host.store, chunks)
      ensures OthersKeep(old(host.store), old(States(all)), this, host.store)
    {
      hide World, OthersKeep, KeepBlocks, SharedAsBefore, LeastBucket, FirstFit;
      ghost var st, w: Allocs, blocks0 := host.store, States(all), blocks;
      var bucket := SizeToBucket(size);
      SmallFitsChunk(size);
      HeadFacts(st, w, this, bucket);
      NobodyTouched(st, w, this);
      NothingKeepsBlocks(st.bytes, blocks);
      GrownShared(st, chunks, st, chunks);
      if buckets[bucket] == 0 {
        Refill(bucket, base, all);
        UpdateTwice(blocks0, buckets[bucket], Block(BucketToSize(bucket), Listed(bucket)), Block(BucketToSize(bucket), Live(size)));
      }
      buffer := Pop(bucket, size, all);
    }

    method Malloc(size: nat, base: Addr, ghost all: set<KingsleyAlloc>) returns (buffer: Addr)
      requires Machine(host, all) && this in all && MayRun()
      requires 1 <= size && CanMap(base, if size < DEFAULT_MMAP_SIZE then DEFAULT_MMAP_SIZE else size)
      modifies this, buckets, host
      ensures Machine(host, all) && MayRun()
      ensures buffer in blocks && blocks[buffer].size >= size && blocks == old(blocks)[buffer := Block(blocks[buffer].size, Live(size))]
      ensures size < DEFAULT_MMAP_SIZE ==> blocks[buffer].size == BucketToSize(BucketOf(size))
      ensures buffer in old(blocks) ==> old(blocks)[buffer] == Block(blocks[buffer].size, Listed(BucketOf(size)))
      ensures |old(free)| == BUCKETS && (size < DEFAULT_MMAP_SIZE ==> BucketOf(size) < BUCKETS)
      ensures size < DEFAULT_MMAP_SIZE && old(free)[BucketOf(size)] != [] ==> buffer == old(free)[BucketOf(size)][0]
      ensures size >= DEFAULT_MMAP_SIZE ==> buffer == base && buffer !in old(blocks)
      ensures |chunks| == |old(chunks)| + if size >= DEFAULT_MMAP_SIZE || old(NeedsChunk(BucketOf(size))) then 1 else 0
      ensures old(NoneLost(blocks)) ==> NoneLost(blocks)
      ensures KeepBlocks(old(host.store.bytes), host.store.bytes, old(blocks), {})
      ensures SharedAsBefore(old(host.store), old(chunks), host.store, chunks)
      ensures OthersKeep(old(host.store), old(States(all)), this, host.store)
    {
      hide World, OthersKeep, KeepBlocks, SharedAsBefore;
      ghost var w: Allocs := States(all);
      HeapFacts(host.store, w, this);
      if size < DEFAULT_MMAP_SIZE {
        buffer := MallocSmall(size, base, all);
      } else {
        buffer := MallocLarge(size, base, all);
      }
    }

    /** The client holds buffer and asked for size bytes. */
    ghost predicate Held(buffer: Addr, size: nat)
      reads this
    {
      buffer in blocks && blocks[buffer].state == Live(size)
    }

    predicate ChunkMatches(c: MmapChunk, buffer: Addr, size: nat)
      reads host
    {
      c.mmap in host.store.mmaps && host.store.mmaps[c.mmap].buffer == buffer && host.store.mmaps[c.mmap].size == size
    }

    /** A large block may be freed only while its chunk has no other user: munmap ignores the refcount. */
    ghost predicate MayFree(buffer: Addr, size: nat)
      reads this, host
    {
      && Held(buffer, size)
      && (size >= DEFAULT_MMAP_SIZE ==> OneUser(host.store, chunks, buffer, size))
    }

    method Free(buffer: Addr, size: nat, ghost all: set<KingsleyAlloc>)
      requires Machine(host, all) && this in all && MayRun()
      requires MayFree(buffer, size) || (size >= DEFAULT_MMAP_SIZE && forall c :: c in chunks ==> !ChunkMatches(c, buffer, size))
      modifies this, buckets, host
      ensures Machine(host, all) && MayRun()
      ensures old(Held(buffer, size)) && size < DEFAULT_MMAP_SIZE ==>
                && blocks == old(blocks)[buffer := Block(old(blocks)[buffer].size, Listed(BucketOf(size)))]
                && BucketOf(size) < |old(free)| && free == old(free)[BucketOf(size) := [buffer] + old(free)[BucketOf(size)]]
                && host.store.bytes.Keys == old(host.store.bytes.Keys) && chunks == old(chunks)
      ensures old(Held(buffer, size)) && size >= DEFAULT_MMAP_SIZE ==>
                && blocks == old(blocks) - {buffer} && free == old(free) && buckets[..] == old(buckets[..])
                && host.store == old(host.store).(bytes := Unmap(old(host.store.bytes), buffer, size))
                && |chunks| + 1 == |old(chunks)|
      ensures !old(Held(buffer, size)) ==> State() == old(State()) && host.store == old(host.store)
      ensures old(NoneLost(blocks)) ==> NoneLost(blocks)
      ensures KeepBlocks(old(host.store.bytes), host.store.bytes, old(blocks), {buffer})
      ensures OthersKeep(old(host.store), old(States(all)), this, host.store)
    {
      hide World, OthersKeep, KeepBlocks, SharedAsBefore;
      ghost var st, w: Allocs := host.store, States(all);
      HeapFacts(st, w, this);
      if size < DEFAULT_MMAP_SIZE {
        LiveSize(st, w, this, buffer, size);
        var bucket := SizeToBucket(size);
        SmallFitsChunk(size);
        PushFront(buffer, bucket, all);
      } else {
        if Held(buffer, size) {
          LargeHasChunk(st, w, this, buffer, size);
        }
        for i := 0 to |chunks|
          invariant State() == old(State()) && host.store == st
          invariant forall j :: 0 <= j < i ==> !ChunkMatches(chunks[j], buffer, size)
        {
          var c := chunks[i];
          assert c in chunks;
          if ChunkMatches(c, buffer, size) {
            Release(i, buffer, size, all);
            return;
          }
        }
        NobodyTouched(st, w, this);
        NothingKeepsBlocks(st.bytes, blocks);
        KeepBlocksOf(st.bytes, st.bytes, blocks, {}, {buffer});
      }
    }

    /** Free's large branch, once the chunk is found: munmap and erase. */
    method Release(i: nat, buffer: Addr, size: nat, ghost all: set<KingsleyAlloc>)
      requires Machine(host, all) && this in all && MayRun()
      requires i < |chunks| && ChunkMatches(chunks[i], buffer, size) && size >= DEFAULT_MMAP_SIZE
      requires Held(buffer, size) && host.store.mmaps[chunks[i].mmap].refcount == 1
      modifies this`chunks, this`blocks, host
      ensures Machine(host, all) && MayRun()
      ensures blocks == old(blocks) - {buffer} && chunks == Without(old(chunks), i)
      ensures host.store == old(host.store).(bytes := Unmap(old(host.store.bytes), buffer, size))
      ensures KeepBlocks(old(host.store.bytes), host.store.bytes, old(blocks), {buffer})
      ensures OthersKeep(old(host.store), old(States(all)), this, host.store)
    {
      hide World, OthersKeep, KeepBlocks, SharedAsBefore;
      ghost var w: Allocs := States(all);
      HeapFacts(host.store, w, this);
      LiveSize(host.store, w, this, buffer, size);
      UnmapKeepsBlocks(host.store, w, this, buffer);
      ForgetStep(host.store, w, this, i, size);
      host.store := host.store.(bytes := Unmap(host.store.bytes, buffer, size));
      chunks := Without(chunks, i);
      blocks := blocks - {buffer};
      assert States(all) == w[this := State()];
    }

    /** The process writes s at address at, inside block p that it holds. */
    method WriteBytes(p: Addr, at: Addr, s: seq<Byte>, ghost all: set<KingsleyAlloc>)
      requires Machine(host, all) && this in all && MayRun()
      requires p in blocks && blocks[p].state.Live? && p <= at && at + |s| <= p + blocks[p].size
      modifies host
      ensures Machine(host, all) && MayRun()
      ensures Mapped(old(host.store.bytes), at, |s|)
      ensures host.store == old(host.store).(bytes := Write(old(host.store.bytes), at, s))
      ensures KeepBlocks(old(host.store.bytes), host.store.bytes, blocks, {p})
      ensures OthersKeep(old(host.store), old(States(all)), this, host.store)
    {
      hide World, OthersKeep, KeepBlocks, SharedAsBefore;
      ghost var w: Allocs := States(all);
      WriteStep(host.store, w, this, p, at, s);
      WriteKeepsBlocks(host.store, w, this, p, at, s);
      host.store := host.store.(bytes := Write(host.store.bytes, at, s));
      assert States(all) == w;
    }

    /** The copying half of Realloc: Malloc and memcpy. */
    method MallocCopy(oldBuffer: Addr, oldSize: nat, newSize: nat, base: Addr, ghost all: set<KingsleyAlloc>) returns (buffer: Addr)
      requires Machine(host, all) && this in all && MayRun()
      requires Held(oldBuffer, oldSize) && oldSize <= newSize
      requires CanMap(base, if newSize < DEFAULT_MMAP_SIZE then DEFAULT_MMAP_SIZE else newSize)
      modifies this, buckets, host
      ensures Machine(host, all) && MayRun()
      ensures buffer in blocks && blocks[buffer].size >= newSize && blocks == old(blocks)[buffer := Block(blocks[buffer].size, Live(newSize))]
      ensures buffer in old(blocks) ==> old(blocks)[buffer].state.Listed? && old(blocks)[buffer].size == blocks[buffer].size
      ensures old(NoneLost(blocks)) ==> NoneLost(blocks)
      ensures Mapped(old(host.store.bytes), oldBuffer, oldSize) && Mapped(host.store.bytes, buffer, oldSize)
      ensures Slice(host.store.bytes, buffer, oldSize) == Slice(old(host.store.bytes), oldBuffer, oldSize)
      ensures KeepBlocks(old(host.store.bytes), host.store.bytes, old(blocks), {buffer})
      ensures SharedAsBefore(old(host.store), old(chunks), host.store, chunks)
      ensures OthersKeep(old(host.store), old(States(all)), this, host.store)
    {
      hide World, OthersKeep, KeepBlocks, SharedAsBefore;
      ghost var st, w: Allocs := host.store, States(all);
      BlockMapped(st, w, this, oldBuffer);
      LiveSize(st, w, this, oldBuffer, oldSize);
      buffer := Malloc(newSize, base, all);
      ghost var st1, w1: Allocs, blocks1 := host.store, States(all), blocks;
      BlockMapped(st1, w1, this, oldBuffer);
      KeepSlice(st.bytes, st1.bytes, old(blocks), {}, oldBuffer, oldBuffer, oldSize);
      WriteBytes(buffer, buffer, Slice(host.store.bytes, oldBuffer, oldSize), all);
      KeepBlocksTrans(st.bytes, st1.bytes, host.store.bytes, old(blocks), blocks1, {}, {buffer});
      KeepBlocksOf(st.bytes, host.store.bytes, old(blocks), {} + {buffer}, {buffer});
      OthersKeepTrans(st, w, this, st1, w1, host.store);
      SharedSameMmaps(st, old(chunks), st1, chunks, host.store);
    }

    method Realloc(oldBuffer: Addr, oldSize: nat, newSize: nat, base: Addr, ghost all: set<KingsleyAlloc>) returns (buffer: Addr)
      requires Machine(host, all) && this in all && MayRun()
      requires MayFree(oldBuffer, oldSize)
      requires CanMap(base, if newSize < DEFAULT_MMAP_SIZE then DEFAULT_MMAP_SIZE else newSize)
      modifies this, buckets, host
      ensures Machine(host, all) && MayRun()
      ensures newSize < oldSize ==> buffer == oldBuffer && State() == old(State()) && host.store == old(host.store)
      ensures newSize >= oldSize ==>
                && buffer != oldBuffer && Held(buffer, newSize)
                && blocks - {oldBuffer} == old(blocks)[buffer := blocks[buffer]] - {oldBuffer}
                && (oldBuffer in blocks <==> oldSize < DEFAULT_MMAP_SIZE)
                && (oldBuffer in blocks ==> blocks[oldBuffer] == Block(old(blocks)[oldBuffer].size, Listed(BucketOf(oldSize))))
      ensures buffer in old(blocks) && newSize >= oldSize ==> old(blocks)[buffer].state.Listed?
      ensures old(NoneLost(blocks)) ==> NoneLost(blocks)
      ensures newSize >= oldSize ==>
                && Mapped(old(host.store.bytes), oldBuffer, oldSize) && Mapped(host.store.bytes, buffer, oldSize)
                && Slice(host.store.bytes, buffer, oldSize) == Slice(old(host.store.bytes), oldBuffer, oldSize)
      ensures KeepBlocks(old(host.store.bytes), host.store.bytes, old(blocks), {oldBuffer, buffer})
      ensures OthersKeep(old(host.store), old(States(all)), this, host.store)
    {
      hide World, OthersKeep, KeepBlocks, SharedAsBefore;
      ghost var st, w: Allocs := host.store, States(all);
      if newSize < oldSize {
        NobodyTouched(st, w, this);
        NothingKeepsBlocks(st.bytes, blocks);
        KeepBlocksOf(st.bytes, st.bytes, blocks, {}, {oldBuffer, oldBuffer});
        return oldBuffer;
      }
      buffer := MallocCopy(oldBuffer, oldSize, newSize, base, all);
      ghost var st1, w1: Allocs, blocks1 := host.store, States(all), blocks;
      if oldSize >= DEFAULT_MMAP_SIZE {
        StillMayFree(st, old(chunks), st1, chunks, oldBuffer, oldSize);
      }
      Free(oldBuffer, oldSize, all);
      KeepSlice(st1.bytes, host.store.bytes, blocks1, {oldBuffer}, buffer, buffer, oldSize);
      KeepBlocksTrans(st.bytes, st1.bytes, host.store.bytes, old(blocks), blocks1, {buffer}, {oldBuffer});
      KeepBlocksOf(st.bytes, host.store.bytes, old(blocks), {buffer} + {oldBuffer}, {oldBuffer, buffer});
      OthersKeepTrans(st, w, this, st1, w1, host.store);
    }

    /** SwitchTo: every live buffer this allocator uses ends up holding its bytes; the bytes it displaces
        are saved first, so every private heap, its own included, is what it was. */
    method SwitchTo(ghost all: set<KingsleyAlloc>)
      requires Machine(host, all) && this in all
      modifies host
      ensures Machine(host, all) && MayRun()
      ensures AllKeep(old(host.store), old(States(all)), host.store)
    {
      hide World, AllKeep;
      ghost var st, w: Allocs := host.store, States(all);
      EverybodyKeeps(st, w);
      for i := 0 to |chunks|
        invariant World(host.store, w) && AllKeep(st, w, host.store)
        invariant forall j :: 0 <= j < i ==> chunks[j].mmap in host.store.mmaps && Owns(host.store, chunks[j])
      {
        var chunk := chunks[i];
        ghost var st1 := host.store;
        SwitchStep(host.store, w, this, i);
        SwitchSaves(host.store, w, this, chunk);
        var mmap := host.store.mmaps[chunk.mmap];
        if mmap.current != Null && mmap.current != LiveBuffer {
          host.store := host.store.(copies := host.store.copies[mmap.current.handle := Slice(host.store.bytes, mmap.buffer, mmap.size)]);
        }
        if chunk.copy != Null {
          host.store := host.store.(bytes := Write(host.store.bytes, mmap.buffer, host.store.copies[chunk.copy.handle]));
        }
        host.store := host.store.(mmaps := host.store.mmaps[chunk.mmap := mmap.(current := chunk.copy)]);
        assert host.store == SwitchChunk(st1, chunk);
        AllKeepTrans(st, w, st1, host.store);
      }
      assert States(all) == w;
      forall c | c in chunks ensures c.mmap in host.store.mmaps && Owns(host.store, c) {
        var j :| 0 <= j < |chunks| && chunks[j] == c;
      }
    }

    /** Clone: the child shares every chunk, and its private heap starts as a copy of its parent's. Of the
        free lists it inherits bucket 0's only, so it loses blocks unless all others are empty. From then on
        neither may free a large block that both hold. */
    method Clone(ghost all: set<KingsleyAlloc>) returns (clone: KingsleyAlloc)
      requires Machine(host, all) && this in all && MayRun()
      modifies this`chunks, host
      ensures fresh(clone) && fresh(clone.buckets) && clone.host == host && clone !in all
      ensures Machine(host, all + {clone}) && MayRun()
      ensures |old(free)| == BUCKETS && buckets.Length == BUCKETS
      ensures clone.State() == ChildOf(old(State()), clone.chunks)
      ensures SamePrivate(old(host.store), old(chunks), host.store, clone.chunks)
      ensures NoneLost(clone.blocks) <==> NoneLost(blocks) && forall b :: 0 < b < BUCKETS ==> buckets[b] == 0
      ensures forall p, size :: size >= DEFAULT_MMAP_SIZE && Held(p, size) ==>
                clone.Held(p, size) && !MayFree(p, size) && !clone.MayFree(p, size)
      ensures forall b :: b in all ==> SamePrivate(old(host.store), old(b.chunks), host.store, b.chunks)
    {
      hide World, Cloning, SamePrivate, NoneLost, OneUser;
      ghost var st, w: Allocs, parent := host.store, States(all), State();
      ChildLoses(st, w, this);
      clone := Newborn(all);
      CloneAll(clone, parent, st, w);
      ghost var wi: Allocs := With(w, this, State(), clone, clone.State());
      CloneEnds<KingsleyAlloc>(st, w, this, clone, host.store, wi);
      forall a | a in all && a != this ensures a.State() == w[a] {
      }
      assert States(all + {clone}) == wi;
      forall b | b in all ensures SamePrivate(st, old(b.chunks), host.store, b.chunks) {
        assert w[b].chunks == old(b.chunks) && wi[b].chunks == b.chunks;
      }
      forall p, size | size >= DEFAULT_MMAP_SIZE && Held(p, size)
        ensures clone.Held(p, size) && !MayFree(p, size) && !clone.MayFree(p, size)
      {
        assert clone.Held(p, size);
        SharedBlock(host.store, wi, this, clone, p, size);
        SharedBlock(host.store, wi, clone, this, p, size);
      }
    }

    /** Clone's first two lines: a new allocator with bucket 0's head. */
    method Newborn(ghost all: set<KingsleyAlloc>) returns (clone: KingsleyAlloc)
      requires Machine(host, all) && this in all && MayRun()
      ensures fresh(clone) && fresh(clone.buckets) && clone.host == host && clone !in all && clone.buckets.Length == BUCKETS
      ensures |buckets[..]| == |free| == BUCKETS && clone.State() == ChildOf(State(), [])
      ensures Cloning<KingsleyAlloc>(host.store, States(all), this, clone, 0, host.store, With(States(all), this, State(), clone, clone.State()))
    {
      hide World, Cloning;
      ghost var w: Allocs := States(all);
      HeapFacts(host.store, w, this);
      clone := new KingsleyAlloc(host, all);
      clone.buckets[0] := buckets[0];
      clone.blocks, clone.free := ChildBlocks(blocks), ChildFree(free);
      assert clone.buckets[..] == ChildHeads(buckets[..]);
      CloneBegins<KingsleyAlloc>(host.store, w, this, clone);
      assert States(all) == w;
      assert With(w, this, State(), clone, clone.State()) == w[clone := ChildOf(w[this], [])];
    }

    /** Clone's loop over the chunks. */
    method CloneAll(clone: KingsleyAlloc, ghost parent: Alloc, ghost st: Store, ghost w: Allocs)
      requires clone != this && clone.buckets != buckets && clone.chunks == []
      requires |parent.heads| == |parent.free| == BUCKETS && State() == parent && clone.State() == ChildOf(parent, [])
      requires Cloning<KingsleyAlloc>(st, w, this, clone, 0, host.store, With(w, this, State(), clone, clone.State()))
      modifies this`chunks, clone`chunks, host
      ensures |chunks| == |parent.chunks| && State() == parent.(chunks := chunks) && clone.State() == ChildOf(parent, clone.chunks)
      ensures Cloning<KingsleyAlloc>(st, w, this, clone, |chunks|, host.store, With(w, this, State(), clone, clone.State()))
    {
      hide Cloning;
      ghost var wi: Allocs := With(w, this, State(), clone, clone.State());
      for i := 0 to |chunks|
        invariant |chunks| == |parent.chunks| && State() == parent.(chunks := chunks) && clone.State() == ChildOf(parent, clone.chunks)
        invariant |clone.chunks| == i
        invariant Cloning<KingsleyAlloc>(st, w, this, clone, i, host.store, wi)
        invariant wi == With(w, this, State(), clone, clone.State())
      {
        FreshNumber(host.store.copies.Keys);
        var own: nat :| own !in host.store.copies;
        FreshNumber(host.store.copies.Keys + {own});
        var other: nat :| other !in host.store.copies.Keys + {own};
        CloningChunks<KingsleyAlloc>(st, w, this, clone, i, host.store, wi);
        CloneContinues<KingsleyAlloc>(st, w, this, clone, i, host.store, wi, own, other);
        ghost var before, born := State(), clone.State();
        ghost var c, d := CloneOne(i, own, other, clone);
        WithAgain(w, this, before, State(), clone, born, clone.State());
        wi := With(w, this, State(), clone, clone.State());
      }
    }

    /** The body of Clone's loop. */
    method CloneOne(i: nat, own: nat, other: nat, clone: KingsleyAlloc) returns (ghost c': MmapChunk, ghost d: MmapChunk)
      requires i < |chunks| && ChunkOk(host.store, chunks[i]) && clone != this
      modifies this`chunks, clone`chunks, host
      ensures (host.store, c', d) == CloneChunk(old(host.store), old(chunks)[i], own, other)
      ensures chunks == old(chunks)[i := c'] && clone.chunks == old(clone.chunks) + [d]
    {
      var chunk := chunks[i];
      var mmap := host.store.mmaps[chunk.mmap];
      mmap := mmap.(refcount := mmap.refcount + 1);
      if mmap.refcount == 2 && chunk.copy == Null {
        host.store := host.store.(copies := host.store.copies[own := Uninitialised(mmap.size)]);
        mmap := mmap.(current := Copy(own));
        chunks := chunks[i := chunk.(copy := Copy(own))];
      }
      host.store := host.store.(mmaps := host.store.mmaps[chunk.mmap := mmap],
                                copies := host.store.copies[other := Slice(host.store.bytes, mmap.buffer, mmap.size)]);
      clone.chunks := clone.chunks + [MmapChunk(chunk.mmap, Copy(other), chunk.brk)];
      c', d := chunks[i], MmapChunk(chunk.mmap, Copy(other), chunk.brk);
    }

    /** Dispose: called from the dying process's own context, just before its destructor. */
    method Dispose(ghost all: set<KingsleyAlloc>)
      requires Separate(host, all) && this in all && WorldBut(host.store, States(all), {this})
      modifies host
      ensures Separate(host, all) && WorldBut(host.store, States(all), {this})
      ensures forall c :: c in chunks && c.copy != Null ==> c.mmap in host.store.mmaps && host.store.mmaps[c.mmap].current != c.copy
      ensures host.store == old(host.store).(mmaps := host.store.mmaps)
      ensures OthersKeep(old(host.store), old(States(all)), this, host.store)
    {
      hide WorldBut, OthersKeep;
      ghost var st, w: Allocs := host.store, States(all);
      OthersKeepRefl(st, w, this);
      ChunkFacts(st, w, this, {this});
      for i := 0 to |chunks|
        invariant WorldBut(host.store, w, {this}) && OthersKeep(st, w, this, host.store)
        invariant host.store == st.(mmaps := host.store.mmaps) && host.store.mmaps.Keys == st.mmaps.Keys
        invariant forall j :: 0 <= j < i ==> chunks[j].copy == Null || host.store.mmaps[chunks[j].mmap].current != chunks[j].copy
      {
        var c := chunks[i];
        assert c in chunks;
        ghost var st1 := host.store;
        if c.copy == host.store.mmaps[c.mmap].current {
          DisownStep(host.store, w, this, c);
          host.store := host.store.(mmaps := host.store.mmaps[c.mmap := host.store.mmaps[c.mmap].(current := Null)]);
          OthersKeepTrans(st, w, this, st1, w, host.store);
        }
      }
      assert States(all) == w;
    }

    /** The body of the destructor's loop. */
    method ReleaseRef(c: MmapChunk)
      requires ChunkOk(host.store, c) && host.store.mmaps[c.mmap].refcount >= 1
      modifies host
      ensures host.store == ReleaseChunk(old(host.store), c)
    {
      if c.copy != Null {
        host.store := host.store.(copies := host.store.copies - {c.copy.handle});
        if c.copy == host.store.mmaps[c.mmap].current {
          host.store := host.store.(mmaps := host.store.mmaps[c.mmap := host.store.mmaps[c.mmap].(current := Null)]);
        }
      }
      var mmap := host.store.mmaps[c.mmap];
      mmap := mmap.(refcount := mmap.refcount - 1);
      if mmap.refcount == 0 {
        host.store := Store(Unmap(host.store.bytes, mmap.buffer, mmap.size), host.store.mmaps - {c.mmap}, host.store.copies);
      } else {
        host.store := host.store.(mmaps := host.store.mmaps[c.mmap := mmap]);
      }
    }

    /** ~KingsleyAlloc: gives back the copies, and the buffer of every chunk nobody else uses. */
    method Destroy(ghost all: set<KingsleyAlloc>)
      requires Separate(host, all) && this in all && WorldBut(host.store, States(all), {this})
      modifies this`chunks, host
      ensures Machine(host, all - {this}) && chunks == []
      ensures forall j :: 0 <= j < |old(chunks)| ==> Released(old(host.store), old(chunks)[j], host.store)
      ensures host.store.copies == old(host.store.copies) - Handles(old(chunks))
      ensures OthersKeep(old(host.store), old(States(all)), this, host.store)
    {
      hide WorldBut, OthersKeep, ReleasedUpTo, Released;
      ghost var st, w: Allocs := host.store, States(all);
      ghost var wi: Allocs := w;
      OthersKeepRefl(st, w, this);
      ChunkFacts(st, w, this, {this});
      assert w[this].(chunks := chunks[0..]) == w[this];
      ReleasedNone(st, chunks);
      for i := 0 to |chunks|
        invariant chunks == old(chunks)
        invariant wi == w[this := w[this].(chunks := chunks[i..])]
        invariant WorldBut(host.store, wi, {this}) && OthersKeep(st, w, this, host.store)
        invariant ReleasedUpTo(st, chunks, i, host.store)
      {
        var c := chunks[i];
        ghost var st1 := host.store;
        ReleaseStep(host.store, wi, this);
        assert wi[this].chunks[0] == c && wi[this].chunks[1..] == chunks[i + 1..];
        ReleaseRef(c);
        ReleasedOneMore(st, chunks, i, st1);
        OthersKeepTrans(st, w, this, st1, wi, host.store);
        wi := wi[this := wi[this].(chunks := chunks[i + 1..])];
      }
      ReleasedEverything(st, chunks, host.store);
      chunks := [];
      LeaveStep(host.store, wi, this);
      assert States(all - {this}) == wi - {this};
    }
  }

  ghost predicate SameStruct(st: Store, c: MmapChunk, st': Store) {
    c.mmap in st.mmaps && c.mmap in st'.mmaps && st'.mmaps[c.mmap] == st.mmaps[c.mmap]
  }

  /** One reference to c's struct is gone, and with the last one the struct and the mapping. */
  ghost predicate Released(st: Store, c: MmapChunk, st': Store) {
    && c.mmap in st.mmaps
    && var m := st.mmaps[c.mmap];
    if m.refcount == 1 then c.mmap !in st'.mmaps && Unmapped(st'.bytes, m.buffer, m.size)
    else m.refcount > 0 && c.mmap in st'.mmaps && st'.mmaps[c.mmap] == m.(refcount := m.refcount - 1, current := if c.copy == m.current then Null else m.current)
  }

  /** The saved copies of an allocator. */
  ghost function Handles(cs: seq<MmapChunk>): set<nat> {
    set c | c in cs && c.copy.Copy? :: c.copy.handle
  }

  lemma HandlesMore(cs: seq<MmapChunk>, i: nat)
    requires i < |cs|
    ensures Handles(cs[..0]) == {} && Handles(cs[..i + 1]) == Handles(cs[..i]) + if cs[i].copy.Copy? then {cs[i].copy.handle} else {}
  {
    assert cs[..i + 1] == cs[..i] + [cs[i]];
  }

  /** The first i of the chunks cs have been released since st, the others are untouched. */
  ghost predicate ReleasedUpTo(st: Store, cs: seq<MmapChunk>, i: nat, st': Store) {
    && i <= |cs| && DistinctMmaps(cs)
    && (forall j :: 0 <= j < i ==> Released(st, cs[j], st'))
    && (forall j :: i <= j < |cs| ==> SameStruct(st, cs[j], st'))
    && st'.copies == st.copies - Handles(cs[..i])
  }

  lemma ReleasedNone(st: Store, cs: seq<MmapChunk>)
    requires ChunksOk(st, cs) && DistinctMmaps(cs)
    ensures ReleasedUpTo(st, cs, 0, st)
  {
    forall j | 0 <= j < |cs| ensures SameStruct(st, cs[j], st) {
      assert cs[j] in cs;
    }
  }

  lemma ReleasedOneMore(st: Store, cs: seq<MmapChunk>, i: nat, st1: Store)
    requires ReleasedUpTo(st, cs, i, st1) && i < |cs| && ChunkOk(st1, cs[i]) && st1.mmaps[cs[i].mmap].refcount >= 1
    ensures ReleasedUpTo(st, cs, i + 1, ReleaseChunk(st1, cs[i]))
  {
    hide Handles;
    HandlesMore(cs, i);
    assert ReleaseChunk(st1, cs[i]).copies == st.copies - Handles(cs[..i + 1]);
    assert SameStruct(st, cs[i], st1);
    forall j | 0 <= j < i ensures Released(st, cs[j], ReleaseChunk(st1, cs[i])) {
      assert Released(st, cs[j], st1);
    }
  }

  lemma ReleasedEverything(st: Store, cs: seq<MmapChunk>, st': Store)
    requires ReleasedUpTo(st, cs, |cs|, st')
    ensures forall j :: 0 <= j < |cs| ==> Released(st, cs[j], st')
    ensures st'.copies == st.copies - Handles(cs)
  {
    assert cs[..|cs|] == cs;
  }

  /** The chunks that make up a block of size bytes at buffer have one user. */
  ghost predicate OneUser(st: Store, cs: seq<MmapChunk>, buffer: Addr, size: nat) {
    forall c :: c in cs && c.mmap in st.mmaps && st.mmaps[c.mmap].buffer == buffer && st.mmaps[c.mmap].size == size ==> st.mmaps[c.mmap].refcount == 1
  }

  lemma SharedBlock(st: Store, w: Allocs, a: KingsleyAlloc, b: KingsleyAlloc, p: Addr, size: nat)
    requires World(st, w) && a in w && b in w && a != b && size >= DEFAULT_MMAP_SIZE
    requires p in w[a].blocks && w[a].blocks[p].state == Live(size) && p in w[b].blocks && w[b].blocks[p].state == Live(size)
    ensures !OneUser(st, w[a].chunks, p, size)
  {
    hide World;
    var i := BothHold<KingsleyAlloc>(st, w, a, b, p, size);
    assert w[a].chunks[i] in w[a].chunks;
  }

  /** A process allocates a large block and forks; the parent frees the block. The munmap takes the memory
      from the clone, and the machine is no longer sound. */
  method FreeAfterFork(base: Addr) returns (parent: KingsleyAlloc, clone: KingsleyAlloc, ghost i: nat)
    requires 0 < base && base + DEFAULT_MMAP_SIZE <= WORD_LIMIT
    ensures parent != clone && Machine(parent.host, {parent, clone}) && parent.MayRun()
    ensures parent.Held(base, DEFAULT_MMAP_SIZE) && clone.Held(base, DEFAULT_MMAP_SIZE)
    ensures i < |parent.chunks| && parent.ChunkMatches(parent.chunks[i], base, DEFAULT_MMAP_SIZE)
    ensures var st := parent.host.store.(bytes := Unmap(parent.host.store.bytes, base, DEFAULT_MMAP_SIZE));
            !World(st, States({parent, clone})[parent := Forgotten(parent.State(), i, base)])
  {
    hide World, OneUser;
    var host := new Host();
    NobodyWorld(host);
    parent := new KingsleyAlloc(host, {});
    assert {} + {parent} == {parent};
    var buffer := parent.MallocLarge(DEFAULT_MMAP_SIZE, base, {parent});
    clone := parent.Clone({parent});
    assert {parent} + {clone} == {parent, clone};
    assert parent.Held(base, DEFAULT_MMAP_SIZE);
    ghost var w: Allocs := States({parent, clone});
    i := BothHold<KingsleyAlloc>(host.store, w, parent, clone, base, DEFAULT_MMAP_SIZE);
    ForgetExactly<KingsleyAlloc>(host.store, w, parent, i, DEFAULT_MMAP_SIZE);
  }

  /** A process frees a small block and forks: the child has lost it. */
  method ForkLosesBlock(base: Addr) returns (parent: KingsleyAlloc, clone: KingsleyAlloc)
    requires 0 < base && base + DEFAULT_MMAP_SIZE <= WORD_LIMIT
    ensures parent != clone && Machine(parent.host, {parent, clone}) && parent.MayRun()
    ensures NoneLost(parent.blocks) && !NoneLost(clone.blocks)
  {
    hide World, OneUser, NoneLost;
    parent := FreeSmall(base);
    clone := parent.Clone({parent});
    assert {parent} + {clone} == {parent, clone};
  }

  method FreeSmall(base: Addr) returns (alloc: KingsleyAlloc)
    requires 0 < base && base + DEFAULT_MMAP_SIZE <= WORD_LIMIT
    ensures fresh(alloc) && fresh(alloc.host) && Machine(alloc.host, {alloc}) && alloc.MayRun() && NoneLost(alloc.blocks)
    ensures alloc.buckets.Length == BUCKETS && alloc.buckets[1] != 0
  {
    hide World, OneUser, NoneLost, KeepBlocks, OthersKeep, SharedAsBefore;
    var host := new Host();
    NobodyWorld(host);
    alloc := new KingsleyAlloc(host, {});
    assert {} + {alloc} == {alloc};
    var buffer := alloc.Malloc(16, base, {alloc});
    SixteenIsBucketOne();
    alloc.Free(buffer, 16, {alloc});
    FreeIsListed<KingsleyAlloc>(host.store, States({alloc}), alloc, 1, buffer);
  }

  lemma SixteenIsBucketOne()
    ensures BucketOf(16) == 1
  {
    assert BucketToSize(0) == 8 && BucketToSize(1) == 16;
    LeastBucketUnique(16, BucketOf(16), 1);
  }

  lemma NobodyWorld(host: Host)
    requires host.store == Store(map[], map[], map[])
    ensures Machine(host, {})
  {
  }

  lemma StillMayFree(st: Store, cs: seq<MmapChunk>, st': Store, cs': seq<MmapChunk>, buffer: Addr, size: nat)
    requires SharedAsBefore(st, cs, st', cs') && OneUser(st, cs, buffer, size)
    ensures OneUser(st', cs', buffer, size)
  {
    forall c | c in cs' && c.mmap in st'.mmaps && st'.mmaps[c.mmap].buffer == buffer && st'.mmaps[c.mmap].size == size
      ensures st'.mmaps[c.mmap].refcount == 1
    {
      if Uses(cs, c.mmap) && c.mmap in st.mmaps && st'.mmaps[c.mmap] == st.mmaps[c.mmap] {
        var c0 :| c0 in cs && c0.mmap == c.mmap;
        assert st.mmaps[c0.mmap].refcount == 1;
      }
    }
  }
}
