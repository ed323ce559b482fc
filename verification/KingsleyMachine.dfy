/** The allocators of a whole machine, on values: w maps each allocator to its fields. Every lemma
    takes one elementary step of the running allocator and shows that the machine stays sound and
    that nobody else's private heap changed. */
module KingsleyMachine {
  import opened Memory
  import opened KingsleyHeap
  import opened PrivateHeaps

  /** The fields of one allocator: m_chunks, m_buckets, and the ghost records of KingsleyHeap. */
  datatype Alloc = Alloc(chunks: seq<MmapChunk>, heads: seq<Addr>, blocks: Blocks, free: seq<seq<Addr>>)

  ghost function ListsOf<K>(w: map<K, Alloc>): map<K, seq<MmapChunk>> {
    map k | k in w :: w[k].chunks
  }

  ghost predicate Sound(st: Store, a: Alloc) {
    ChunksOk(st, a.chunks) && PrivateInv(Private(st, a.chunks), a.heads, a.blocks, a.free)
  }

  /** The sharing records are exact and every allocator but those being torn down has a sound heap. */
  ghost predicate WorldBut<K>(st: Store, w: map<K, Alloc>, dying: set<K>) {
    && SharingInv(st, ListsOf(w))
    && forall k :: k in w && k !in dying ==> Sound(st, w[k])
  }

  ghost predicate World<K>(st: Store, w: map<K, Alloc>) {
    WorldBut(st, w, {})
  }

  ghost predicate OthersKeep<K>(st: Store, w: map<K, Alloc>, k: K, st': Store) {
    forall l :: l in w && l != k ==> SamePrivate(st, w[l].chunks, st', w[l].chunks)
  }

  /** Every chunk in cs' has one user or was among cs already, with the same struct. */
  ghost predicate SharedAsBefore(st: Store, cs: seq<MmapChunk>, st': Store, cs': seq<MmapChunk>) {
    forall c :: c in cs' && c.mmap in st'.mmaps && st'.mmaps[c.mmap].refcount != 1 ==>
      c.mmap in st.mmaps && st'.mmaps[c.mmap] == st.mmaps[c.mmap] && Uses(cs, c.mmap)
  }

  lemma OthersKeepTrans<K>(st: Store, w: map<K, Alloc>, k: K, st1: Store, w1: map<K, Alloc>, st2: Store)
    requires OthersKeep(st, w, k, st1) && OthersKeep(st1, w1, k, st2)
    requires w1.Keys == w.Keys && forall l :: l in w && l != k ==> w1[l] == w[l]
    ensures OthersKeep(st, w, k, st2)
  {
    forall l | l in w && l != k ensures SamePrivate(st, w[l].chunks, st2, w[l].chunks) {
      assert SamePrivate(st, w[l].chunks, st1, w[l].chunks);
      assert l in w1 && SamePrivate(st1, w1[l].chunks, st2, w1[l].chunks);
    }
  }

  ghost predicate AllKeep<K>(st: Store, w: map<K, Alloc>, st': Store) {
    forall l :: l in w ==> SamePrivate(st, w[l].chunks, st', w[l].chunks)
  }

  lemma AllKeepTrans<K>(st: Store, w: map<K, Alloc>, st1: Store, st2: Store)
    requires AllKeep(st, w, st1) && AllKeep(st1, w, st2)
    ensures AllKeep(st, w, st2)
  {
    forall l | l in w ensures SamePrivate(st, w[l].chunks, st2, w[l].chunks) {
      assert SamePrivate(st, w[l].chunks, st1, w[l].chunks) && SamePrivate(st1, w[l].chunks, st2, w[l].chunks);
    }
  }

  lemma EverybodyKeeps<K>(st: Store, w: map<K, Alloc>)
    requires World(st, w)
    ensures AllKeep(st, w, st)
  {
    forall l | l in w ensures SamePrivate(st, w[l].chunks, st, w[l].chunks) {
      assert Sound(st, w[l]);
    }
  }

  lemma OthersKeepRefl<K>(st: Store, w: map<K, Alloc>, k: K)
    requires WorldBut(st, w, {k})
    ensures OthersKeep(st, w, k, st)
  {
    forall l | l in w && l != k ensures SamePrivate(st, w[l].chunks, st, w[l].chunks) {
      assert Sound(st, w[l]);
    }
  }

  /** k is there and owns all its live buffers. */
  ghost predicate Runs<K>(st: Store, w: map<K, Alloc>, k: K) {
    k in w && Running(st, w[k].chunks)
  }

  ghost function Regions(st: Store, a: Alloc): seq<Region>
    requires ChunksOk(st, a.chunks)
  {
    RegionsOf(Private(st, a.chunks))
  }

  lemma OthersSound<K>(st: Store, w: map<K, Alloc>, k: K, st': Store, a: Alloc)
    requires World(st, w) && k in w && OthersKeep(st, w, k, st')
    requires SharingInv(st', ListsOf(w)[k := a.chunks]) && Sound(st', a)
    ensures World(st', w[k := a])
  {
    hide PrivateInv, SharingInv;
    var w' := w[k := a];
    assert ListsOf(w') == ListsOf(w)[k := a.chunks];
    forall l | l in w' && l != k ensures Sound(st', w'[l]) {
      assert Sound(st, w[l]);
    }
  }

  /** From the heap judged on mapped memory to a sound allocator. */
  lemma SoundFromHeap<K>(st: Store, lists: map<K, seq<MmapChunk>>, k: K, a: Alloc)
    requires SharingInv(st, lists) && k in lists && lists[k] == a.chunks && Running(st, a.chunks)
    requires ChunksOk(st, a.chunks) && HeapInv(Regions(st, a), a.heads, st.bytes, a.blocks, a.free)
    ensures Sound(st, a)
  {
    ListOk(st, lists, k);
    RunningPrivate(st, a.chunks, a.heads, a.blocks, a.free);
  }

  // ---------------------------------------------------------------- joining

  lemma AddEmpty<K>(st: Store, lists: map<K, seq<MmapChunk>>, k: K)
    requires SharingInv(st, lists) && k !in lists
    ensures SharingInv(st, lists[k := []])
  {
    var lists' := lists[k := []];
    forall l, c | l in lists' && Holds(lists', l, c) ensures Counted(st, lists', c) {
      assert Holds(lists, l, c);
      assert Counted(st, lists, c);
      assert Sharers(lists', c.mmap) == Sharers(lists, c.mmap);
      if st.mmaps[c.mmap].current.Copy? {
        var l', d :| l' in lists && Holds(lists, l', d) && d.mmap == c.mmap && d.copy == st.mmaps[c.mmap].current;
        assert Holds(lists', l', d);
      }
    }
    forall l, c, l', d | l in lists' && l' in lists' && Holds(lists', l, c) && Holds(lists', l', d) ensures PairOk(st, l, c, l', d) {
      assert Holds(lists, l, c) && Holds(lists, l', d);
      assert PairOk(st, l, c, l', d);
    }
  }

  function EmptyAlloc(): Alloc {
    Alloc([], seq(BUCKETS, _ => 0), map[], seq(BUCKETS, _ => []))
  }

  lemma EmptyHeap()
    ensures PrivateInv([], EmptyAlloc().heads, map[], EmptyAlloc().free)
  {
  }

  /** A new allocator disturbs nobody. */
  lemma NewStep<K>(st: Store, w: map<K, Alloc>, k: K)
    requires World(st, w) && k !in w
    ensures World(st, w[k := EmptyAlloc()])
  {
    hide SharingInv, PrivateInv;
    AddEmpty(st, ListsOf(w), k);
    EmptyHeap();
    assert ListsOf(w[k := EmptyAlloc()]) == ListsOf(w)[k := []];
    assert Private(st, []) == [];
  }

  // ---------------------------------------------------------------- chunks

  lemma MapStep<K>(st: Store, w: map<K, Alloc>, k: K, id: nat, base: Addr, size: nat)
    requires World(st, w) && Runs(st, w, k) && id !in st.mmaps
    requires 0 < base && 0 < size && base + size <= WORD_LIMIT && Unmapped(st.bytes, base, size)
    ensures var st' := MapChunk(st, id, base, size);
            var w' := w[k := w[k].(chunks := [MmapChunk(id, Null, 0)] + w[k].chunks)];
            World(st', w') && Runs(st', w', k) && OthersKeep(st, w, k, st')
  {
    hide SharingInv, PrivateInv, HeapInv;
    var st', a := MapChunk(st, id, base, size), w[k];
    var a' := a.(chunks := [MmapChunk(id, Null, 0)] + a.chunks);
    var lists := ListsOf(w);
    assert Sound(st, a);
    MapChunkKeeps(st, lists, k, id, base, size);
    RunningHeap(st, a.chunks, a.heads, a.blocks, a.free);
    MapKeeps(Regions(st, a), a.heads, st.bytes, a.blocks, a.free, base, size);
    assert OthersKeep(st, w, k, st') by {
      forall l | l in w && l != k ensures SamePrivate(st, w[l].chunks, st', w[l].chunks) {
        assert lists[l] == w[l].chunks;
      }
    }
    assert SamePrivate(st, lists[k], st', lists[k]);
    MapRuns(st, a.chunks, id, base, size);
    assert Regions(st', a') == [Region(base, size, 0)] + Regions(st, a) by {
      assert Private(st', a.chunks) == Private(st, a.chunks);
    }
    SoundFromHeap(st', lists[k := a'.chunks], k, a');
    OthersSound(st, w, k, st', a');
  }

  lemma MapRuns(st: Store, cs: seq<MmapChunk>, id: nat, base: Addr, size: nat)
    requires ChunksOk(st, cs) && Running(st, cs) && id !in st.mmaps && ChunksOk(MapChunk(st, id, base, size), cs)
    requires ChunkOk(MapChunk(st, id, base, size), MmapChunk(id, Null, 0))
    ensures ChunksOk(MapChunk(st, id, base, size), [MmapChunk(id, Null, 0)] + cs)
    ensures Running(MapChunk(st, id, base, size), [MmapChunk(id, Null, 0)] + cs)
  {
    forall c | c in [MmapChunk(id, Null, 0)] + cs
      ensures ChunkOk(MapChunk(st, id, base, size), c) && Owns(MapChunk(st, id, base, size), c)
    {
      if c in cs {
        assert ChunkOk(st, c) && Owns(st, c);
      }
    }
  }

  /** Raising the brk of k's chunk i. */
  function Bumped(a: Alloc, i: nat, needed: nat, p: Addr): Alloc
    requires i < |a.chunks|
  {
    a.(chunks := a.chunks[i := a.chunks[i].(brk := a.chunks[i].brk + needed)], blocks := a.blocks[p := Block(needed, Lost)])
  }

  lemma BumpChunks(st: Store, a: Alloc, i: nat, needed: nat, p: Addr)
    requires ChunksOk(st, a.chunks) && Running(st, a.chunks) && i < |a.chunks|
    ensures var a' := Bumped(a, i, needed, p);
            && ChunksOk(st, a'.chunks) && Running(st, a'.chunks)
            && Regions(st, a') == Regions(st, a)[i := Regions(st, a)[i].(brk := Regions(st, a)[i].brk + needed)]
  {
    var a' := Bumped(a, i, needed, p);
    forall c | c in a'.chunks ensures ChunkOk(st, c) && Owns(st, c) {
      var j :| 0 <= j < |a'.chunks| && a'.chunks[j] == c;
      assert a.chunks[j] in a.chunks && ChunkOk(st, a.chunks[j]) && Owns(st, a.chunks[j]);
    }
  }

  lemma BumpStep<K>(st: Store, w: map<K, Alloc>, k: K, i: nat, needed: nat)
    requires World(st, w) && Runs(st, w, k) && i < |w[k].chunks| && w[k].chunks[i].mmap in st.mmaps
    requires 0 < needed && w[k].chunks[i].brk + needed <= st.mmaps[w[k].chunks[i].mmap].size
    ensures var p := st.mmaps[w[k].chunks[i].mmap].buffer + w[k].chunks[i].brk;
            p !in w[k].blocks && World(st, w[k := Bumped(w[k], i, needed, p)]) && Runs(st, w[k := Bumped(w[k], i, needed, p)], k)
  {
    hide SharingInv, PrivateInv, HeapInv, Running;
    var a := w[k];
    var p := st.mmaps[a.chunks[i].mmap].buffer + a.chunks[i].brk;
    var a' := Bumped(a, i, needed, p);
    var lists := ListsOf(w);
    assert Sound(st, a);
    assert a.chunks[i] in a.chunks;
    RunningHeap(st, a.chunks, a.heads, a.blocks, a.free);
    BumpKeeps(Regions(st, a), a.heads, st.bytes, a.blocks, a.free, i, needed);
    BumpChunks(st, a, i, needed, p);
    BumpSound(st, w, k, i, needed, p);
    NobodyTouched(st, w, k);
    OthersSound(st, w, k, st, a');
  }

  /** Bumping changes neither who shares what nor the soundness of k's heap. */
  lemma BumpSound<K>(st: Store, w: map<K, Alloc>, k: K, i: nat, needed: nat, p: Addr)
    requires k in w && i < |w[k].chunks| && SharingInv(st, ListsOf(w)) && ChunksOk(st, w[k].chunks) && Running(st, w[k].chunks)
    requires var a' := Bumped(w[k], i, needed, p); ChunksOk(st, a'.chunks) && HeapInv(Regions(st, a'), a'.heads, st.bytes, a'.blocks, a'.free)
    ensures var a' := Bumped(w[k], i, needed, p); SharingInv(st, ListsOf(w)[k := a'.chunks]) && Sound(st, a')
  {
    hide SharingInv, PrivateInv, HeapInv, Running;
    var a' := Bumped(w[k], i, needed, p);
    var lists := ListsOf(w);
    BumpChunks(st, w[k], i, needed, p);
    SameUseKeeps(st, lists, lists[k := a'.chunks]);
    SoundFromHeap(st, lists[k := a'.chunks], k, a');
  }

  lemma NobodyTouched<K>(st: Store, w: map<K, Alloc>, k: K)
    requires World(st, w)
    ensures OthersKeep(st, w, k, st)
  {
    forall l | l in w && l != k ensures SamePrivate(st, w[l].chunks, st, w[l].chunks) {
      assert Sound(st, w[l]);
    }
  }

  // ---------------------------------------------------------------- memory

  /** Any write confined to k's chunks that leaves k's heap sound is invisible to everybody else. */
  lemma MemoryStep<K>(st: Store, w: map<K, Alloc>, k: K, mem': Mem, a': Alloc)
    requires World(st, w) && Runs(st, w, k) && WritesOnly(st, w[k].chunks, mem') && a'.chunks == w[k].chunks
    requires ChunksOk(st, w[k].chunks) && HeapInv(Regions(st, w[k]), a'.heads, mem', a'.blocks, a'.free)
    ensures var st' := st.(bytes := mem');
            World(st', w[k := a']) && Runs(st', w[k := a'], k) && OthersKeep(st, w, k, st')
  {
    hide SharingInv, PrivateInv, HeapInv;
    var st' := st.(bytes := mem');
    var lists := ListsOf(w);
    WritesKeepSharing(st, lists, mem');
    forall l | l in w && l != k ensures SamePrivate(st, w[l].chunks, st', w[l].chunks) {
      assert lists[l] == w[l].chunks && lists[k] == w[k].chunks;
      WritesArePrivate(st, lists, k, mem', l);
    }
    assert lists[k := a'.chunks] == lists;
    ListOk(st', lists, k);
    assert Regions(st', a') == Regions(st, w[k]) by {
      assert forall c :: c in a'.chunks ==> ChunkOk(st, c) && ChunkOk(st', c);
    }
    SoundFromHeap(st', lists, k, a');
    OthersSound(st, w, k, st', a');
  }

  /** Every byte of a block lies in some chunk of its allocator. */
  lemma BlockInChunks(st: Store, a: Alloc, p: Addr, at: Addr, s: seq<Byte>)
    requires ChunksOk(st, a.chunks) && Tiled(Regions(st, a), a.blocks) && p in a.blocks
    requires p <= at && at + |s| <= p + a.blocks[p].size && Mapped(st.bytes, at, |s|)
    requires forall i :: 0 <= i < |Regions(st, a)| ==> Regions(st, a)[i].brk <= Regions(st, a)[i].size
    ensures WritesOnly(st, a.chunks, Write(st.bytes, at, s))
  {
    var mem' := Write(st.bytes, at, s);
    var i :| 0 <= i < |a.chunks| && Inside(Regions(st, a)[i], p, a.blocks[p].size);
    forall x | x in mem' && mem'[x] != st.bytes[x] ensures InChunks(st, a.chunks, x) {
      assert a.chunks[i] in a.chunks && InChunk(st, a.chunks[i], x);
    }
  }

  lemma RegionBounds(st: Store, a: Alloc)
    requires ChunksOk(st, a.chunks) && Geometry(Regions(st, a), st.bytes)
    ensures forall i :: 0 <= i < |Regions(st, a)| ==> Regions(st, a)[i].brk <= Regions(st, a)[i].size
  {
    forall i | 0 <= i < |Regions(st, a)| ensures Regions(st, a)[i].brk <= Regions(st, a)[i].size {
      assert RegionOk(Regions(st, a)[i], st.bytes);
    }
  }

  /** A client write inside a block the client holds. */
  lemma WriteStep<K>(st: Store, w: map<K, Alloc>, k: K, p: Addr, at: Addr, s: seq<Byte>)
    requires World(st, w) && Runs(st, w, k) && p in w[k].blocks && !w[k].blocks[p].state.Listed?
    requires p <= at && at + |s| <= p + w[k].blocks[p].size
    ensures Mapped(st.bytes, at, |s|)
    ensures var st' := st.(bytes := Write(st.bytes, at, s));
            World(st', w) && Runs(st', w, k) && OthersKeep(st, w, k, st')
  {
    hide SharingInv, PrivateInv, HeapInv;
    var a := w[k];
    assert Sound(st, a);
    RunningHeap(st, a.chunks, a.heads, a.blocks, a.free);
    ClientWriteKeeps(Regions(st, a), a.heads, st.bytes, a.blocks, a.free, p, at, s);
    RegionBounds(st, a);
    BlockInChunks(st, a, p, at, s);
    MemoryStep(st, w, k, Write(st.bytes, at, s), a);
    assert w[k := a] == w;
  }

  /** Putting a block on the front of its bucket's list. */
  function Pushed(a: Alloc, p: Addr, b: nat): Alloc
    requires p in a.blocks && b < |a.heads| && b < |a.free|
  {
    a.(heads := a.heads[b := p], blocks := a.blocks[p := a.blocks[p].(state := Listed(b))], free := a.free[b := [p] + a.free[b]])
  }

  lemma PushStep<K>(st: Store, w: map<K, Alloc>, k: K, p: Addr, b: nat)
    requires World(st, w) && Runs(st, w, k) && b < BUCKETS && p in w[k].blocks
    requires !w[k].blocks[p].state.Listed? && w[k].blocks[p].size == BucketToSize(b)
    ensures |w[k].heads| == |w[k].free| == BUCKETS && Mapped(st.bytes, p, WORD)
    ensures var st' := st.(bytes := StoreWord(st.bytes, p, w[k].heads[b])); var w' := w[k := Pushed(w[k], p, b)];
            World(st', w') && Runs(st', w', k) && OthersKeep(st, w, k, st')
  {
    var a := w[k];
    assert Sound(st, a);
    RunningHeap(st, a.chunks, a.heads, a.blocks, a.free);
    PushKeeps(Regions(st, a), a.heads, st.bytes, a.blocks, a.free, p, b);
    Pow2Positive(b);
    RegionBounds(st, a);
    BlockInChunks(st, a, p, p, Encode(a.heads[b], WORD));
    MemoryStep(st, w, k, StoreWord(st.bytes, p, a.heads[b]), Pushed(a, p, b));
  }

  /** Handing out the head of a bucket's list. */
  function Popped(a: Alloc, b: nat, next: Addr, request: nat): Alloc
    requires b < |a.heads| && b < |a.free| && a.free[b] != [] && a.heads[b] in a.blocks
  {
    a.(heads := a.heads[b := next], blocks := a.blocks[a.heads[b] := a.blocks[a.heads[b]].(state := Live(request))],
       free := a.free[b := a.free[b][1..]])
  }

  lemma PopStep<K>(st: Store, w: map<K, Alloc>, k: K, b: nat, request: nat)
    requires World(st, w) && Runs(st, w, k) && b < BUCKETS && |w[k].heads| == BUCKETS && w[k].heads[b] != 0
    requires 1 <= request < DEFAULT_MMAP_SIZE && BucketOf(request) == b
    ensures |w[k].free| == BUCKETS && w[k].free[b] != [] && w[k].free[b][0] == w[k].heads[b]
    ensures w[k].heads[b] in w[k].blocks && w[k].blocks[w[k].heads[b]].state == Listed(b) && Mapped(st.bytes, w[k].heads[b], WORD)
    ensures var w' := w[k := Popped(w[k], b, LoadWord(st.bytes, w[k].heads[b]), request)];
            World(st, w') && Runs(st, w', k)
  {
    var a := w[k];
    assert Sound(st, a);
    RunningHeap(st, a.chunks, a.heads, a.blocks, a.free);
    PopKeeps(Regions(st, a), a.heads, st.bytes, a.blocks, a.free, b, request);
    HeadBelowLimit(Regions(st, a), a.heads, st.bytes, a.blocks, a.free, b);
    MemoryStep(st, w, k, st.bytes, Popped(a, b, LoadWord(st.bytes, a.heads[b]), request));
    assert st.(bytes := st.bytes) == st;
  }

  // ---------------------------------------------------------------- what a write leaves alone

  /** Every block but those in except holds the same bytes in mem and mem'. */
  ghost predicate KeepBlocks(mem: Mem, mem': Mem, blocks: Blocks, except: set<Addr>) {
    forall q :: q in blocks && q !in except ==> SameBytes(mem, mem', q, blocks[q].size)
  }

  lemma KeepBlocksTrans(mem: Mem, mem1: Mem, mem2: Mem, blocks: Blocks, blocks1: Blocks, except: set<Addr>, except1: set<Addr>)
    requires KeepBlocks(mem, mem1, blocks, except) && KeepBlocks(mem1, mem2, blocks1, except1)
    requires forall q :: q in blocks && q !in except1 ==> q in blocks1 && blocks1[q].size == blocks[q].size
    ensures KeepBlocks(mem, mem2, blocks, except + except1)
  {
    forall q | q in blocks && q !in except + except1 ensures SameBytes(mem, mem2, q, blocks[q].size) {
      assert SameBytes(mem, mem1, q, blocks[q].size) && SameBytes(mem1, mem2, q, blocks1[q].size);
    }
  }

  lemma NothingKeepsBlocks(mem: Mem, blocks: Blocks)
    ensures KeepBlocks(mem, mem, blocks, {})
  {
  }

  /** Exceptions that are no blocks are none. */
  lemma KeepBlocksOf(mem: Mem, mem': Mem, blocks: Blocks, except: set<Addr>, except': set<Addr>)
    requires KeepBlocks(mem, mem', blocks, except) && forall q :: q in except && q in blocks ==> q in except'
    ensures KeepBlocks(mem, mem', blocks, except')
  {
  }

  /** Bytes inside a block that was kept. */
  lemma KeepSlice(mem: Mem, mem': Mem, blocks: Blocks, except: set<Addr>, p: Addr, at: Addr, n: nat)
    requires KeepBlocks(mem, mem', blocks, except) && p in blocks && p !in except
    requires p <= at && at + n <= p + blocks[p].size && Mapped(mem, at, n)
    ensures Mapped(mem', at, n) && Slice(mem', at, n) == Slice(mem, at, n)
  {
    assert SameBytes(mem, mem', p, blocks[p].size);
    forall x | at <= x < at + n ensures x in mem' && mem'[x] == mem[x] {
      assert x in mem;
    }
  }

  lemma SharedSameMmaps(st: Store, cs: seq<MmapChunk>, st1: Store, cs1: seq<MmapChunk>, st2: Store)
    requires SharedAsBefore(st, cs, st1, cs1) && st2.mmaps == st1.mmaps
    ensures SharedAsBefore(st, cs, st2, cs1)
  {
  }

  /** Mapping more memory changes no mapped byte. */
  lemma MapKeepsBlocks(mem: Mem, base: Addr, size: nat, blocks: Blocks)
    requires Unmapped(mem, base, size)
    ensures KeepBlocks(mem, Map(mem, base, size), blocks, {})
  {
    forall q | q in blocks ensures SameBytes(mem, Map(mem, base, size), q, blocks[q].size) {
      forall x | x in mem ensures Map(mem, base, size)[x] == mem[x] {
        assert !(base <= x < base + size);
      }
    }
  }

  lemma WriteKeepsBlocks<K>(st: Store, w: map<K, Alloc>, k: K, p: Addr, at: Addr, s: seq<Byte>)
    requires World(st, w) && Runs(st, w, k) && p in w[k].blocks && Mapped(st.bytes, at, |s|)
    requires p <= at && at + |s| <= p + w[k].blocks[p].size
    ensures KeepBlocks(st.bytes, Write(st.bytes, at, s), w[k].blocks, {p})
  {
    hide SharingInv;
    var blocks := w[k].blocks;
    assert Sound(st, w[k]);
    forall q | q in blocks && q != p ensures SameBytes(st.bytes, Write(st.bytes, at, s), q, blocks[q].size) {
      assert Disjoint(blocks, p, q);
    }
  }

  lemma UnmapKeepsBlocks<K>(st: Store, w: map<K, Alloc>, k: K, p: Addr)
    requires World(st, w) && Runs(st, w, k) && p in w[k].blocks
    ensures KeepBlocks(st.bytes, Unmap(st.bytes, p, w[k].blocks[p].size), w[k].blocks, {p})
  {
    hide SharingInv;
    var blocks := w[k].blocks;
    assert Sound(st, w[k]);
    forall q | q in blocks && q != p ensures SameBytes(st.bytes, Unmap(st.bytes, p, blocks[p].size), q, blocks[q].size) {
      assert Disjoint(blocks, p, q);
    }
  }

  /** The chunks of an allocator exist and use distinct structs. */
  lemma ChunkFacts<K>(st: Store, w: map<K, Alloc>, k: K, dying: set<K>)
    requires WorldBut(st, w, dying) && k in w
    ensures ChunksOk(st, w[k].chunks) && DistinctMmaps(w[k].chunks)
    ensures forall c :: c in w[k].chunks ==> st.mmaps[c.mmap].refcount >= 1
  {
    hide PrivateInv;
    var lists := ListsOf(w);
    assert lists[k] == w[k].chunks;
    ListOk(st, lists, k);
    forall c | c in w[k].chunks ensures st.mmaps[c.mmap].refcount >= 1 {
      assert Holds(lists, k, c);
      assert Counted(st, lists, c);
      assert Uses(lists[k], c.mmap);
      assert k in Sharers(lists, c.mmap);
    }
  }

  lemma HeapFacts<K>(st: Store, w: map<K, Alloc>, k: K)
    requires World(st, w) && k in w
    ensures |w[k].heads| == |w[k].free| == BUCKETS
    ensures forall c :: c in w[k].chunks ==> c.mmap in st.mmaps && c.brk <= st.mmaps[c.mmap].size
  {
    hide SharingInv;
    var a := w[k];
    assert Sound(st, a);
    forall c | c in a.chunks ensures c.mmap in st.mmaps && c.brk <= st.mmaps[c.mmap].size {
      var i :| 0 <= i < |a.chunks| && a.chunks[i] == c;
      assert ChunkOk(st, c);
      assert RegionOk(Regions(st, a)[i], MemOf(Private(st, a.chunks)));
    }
  }

  /** How large a live block is. */
  lemma LiveSize<K>(st: Store, w: map<K, Alloc>, k: K, p: Addr, size: nat)
    requires World(st, w) && k in w && p in w[k].blocks && w[k].blocks[p].state == Live(size)
    ensures 1 <= size <= w[k].blocks[p].size
    ensures w[k].blocks[p].size == if size < DEFAULT_MMAP_SIZE then BucketToSize(BucketOf(size)) else size
  {
    hide SharingInv;
    assert Sound(st, w[k]);
    assert Sized(Regions(st, w[k]), p, w[k].blocks[p]);
  }

  /** A bucket's head is null exactly when its list is empty. */
  lemma HeadFacts<K>(st: Store, w: map<K, Alloc>, k: K, b: nat)
    requires World(st, w) && k in w && b < BUCKETS
    ensures |w[k].heads| == |w[k].free| == BUCKETS
    ensures w[k].heads[b] == 0 <==> w[k].free[b] == []
    ensures w[k].heads[b] != 0 ==> w[k].heads[b] in w[k].blocks && w[k].blocks[w[k].heads[b]] == Block(BucketToSize(b), Listed(b)) && w[k].free[b][0] == w[k].heads[b]
  {
    hide SharingInv;
    var a := w[k];
    assert Sound(st, a);
    var ps := Private(st, a.chunks);
    HeadBelowLimit(RegionsOf(ps), a.heads, MemOf(ps), a.blocks, a.free, b);
    if a.heads[b] != 0 {
      assert Sized(RegionsOf(ps), a.heads[b], a.blocks[a.heads[b]]);
    }
  }

  /** After MmapAlloc and Brk the shared chunks are the ones that were. */
  lemma GrownShared(st: Store, cs: seq<MmapChunk>, st': Store, cs': seq<MmapChunk>)
    requires if |cs'| == |cs| then (forall i :: 0 <= i < |cs| ==> cs'[i].mmap == cs[i].mmap) && st'.mmaps == st.mmaps
             else && |cs'| == |cs| + 1 && cs'[1..] == cs && cs'[0].mmap !in st.mmaps
                  && cs'[0].mmap in st'.mmaps && st'.mmaps[cs'[0].mmap].refcount == 1
                  && st'.mmaps == st.mmaps[cs'[0].mmap := st'.mmaps[cs'[0].mmap]]
    ensures SharedAsBefore(st, cs, st', cs')
  {
    forall c | c in cs' && c.mmap in st'.mmaps && st'.mmaps[c.mmap].refcount != 1
      ensures c.mmap in st.mmaps && st'.mmaps[c.mmap] == st.mmaps[c.mmap] && Uses(cs, c.mmap)
    {
      var i :| 0 <= i < |cs'| && cs'[i] == c;
      var j := if |cs'| == |cs| then i else i - 1;
      assert cs[j] in cs && cs[j].mmap == c.mmap;
    }
  }

  /** A block lies in mapped memory. */
  lemma BlockMapped<K>(st: Store, w: map<K, Alloc>, k: K, p: Addr)
    requires World(st, w) && Runs(st, w, k) && p in w[k].blocks
    ensures 0 < p && p + w[k].blocks[p].size <= WORD_LIMIT && Mapped(st.bytes, p, w[k].blocks[p].size)
  {
    hide SharingInv;
    var a := w[k];
    assert Sound(st, a);
    RunningHeap(st, a.chunks, a.heads, a.blocks, a.free);
    BlockInRegion(Regions(st, a), a.heads, st.bytes, a.blocks, a.free, p);
  }

  // ---------------------------------------------------------------- large blocks

  /** Handing out the block that fills chunk i. */
  lemma ClaimStep<K>(st: Store, w: map<K, Alloc>, k: K, i: nat, request: nat)
    requires World(st, w) && Runs(st, w, k) && i < |w[k].chunks| && request >= DEFAULT_MMAP_SIZE
    requires w[k].chunks[i].mmap in st.mmaps && w[k].chunks[i].brk == st.mmaps[w[k].chunks[i].mmap].size == request
    requires st.mmaps[w[k].chunks[i].mmap].buffer in w[k].blocks
    requires w[k].blocks[st.mmaps[w[k].chunks[i].mmap].buffer] == Block(request, Lost)
    ensures var p := st.mmaps[w[k].chunks[i].mmap].buffer;
            var w' := w[k := w[k].(blocks := w[k].blocks[p := Block(request, Live(request))])];
            World(st, w') && Runs(st, w', k)
  {
    hide SharingInv, PrivateInv, HeapInv;
    var a, p := w[k], st.mmaps[w[k].chunks[i].mmap].buffer;
    var a' := a.(blocks := a.blocks[p := Block(request, Live(request))]);
    assert Sound(st, a);
    RunningHeap(st, a.chunks, a.heads, a.blocks, a.free);
    assert Regions(st, a)[i] == Region(p, request, request);
    ClaimKeeps(Regions(st, a), a.heads, st.bytes, a.blocks, a.free, p, request);
    MemoryStep(st, w, k, st.bytes, a');
    assert st.(bytes := st.bytes) == st;
  }

  /** A large live block sits at offset 0 of a chunk of exactly its size, so Free finds it. */
  lemma LargeHasChunk<K>(st: Store, w: map<K, Alloc>, k: K, p: Addr, request: nat)
    requires World(st, w) && k in w && p in w[k].blocks && w[k].blocks[p].state == Live(request) && request >= DEFAULT_MMAP_SIZE
    ensures exists c :: c in w[k].chunks && c.mmap in st.mmaps && st.mmaps[c.mmap].buffer == p && st.mmaps[c.mmap].size == request && c.brk == request
  {
    hide SharingInv;
    var a := w[k];
    assert Sound(st, a);
    assert Sized(Regions(st, a), p, a.blocks[p]);
    var i :| 0 <= i < |a.chunks| && Regions(st, a)[i] == Region(p, request, request);
    assert a.chunks[i] in a.chunks;
  }

  /** munmap of a large block: its chunk i and the block go. */
  function Forgotten(a: Alloc, i: nat, p: Addr): Alloc
    requires i < |a.chunks|
  {
    a.(chunks := Without(a.chunks, i), blocks := a.blocks - {p})
  }

  lemma RegionsWithout(st: Store, a: Alloc, i: nat, st': Store, p: Addr)
    requires i < |a.chunks| && ChunksOk(st, a.chunks) && ChunksOk(st', Forgotten(a, i, p).chunks)
    requires forall j :: 0 <= j < |a.chunks| - 1 ==>
               ChunkOk(st', Forgotten(a, i, p).chunks[j]) && PieceOf(st', Forgotten(a, i, p).chunks[j]) == PieceOf(st, a.chunks[Before(i, j)])
    ensures Regions(st', Forgotten(a, i, p)) == Without(Regions(st, a), i)
  {
    hide ChunkOk, PieceOf;
    var cs', rs, rs' := Forgotten(a, i, p).chunks, Regions(st, a), Regions(st', Forgotten(a, i, p));
    forall j | 0 <= j < |rs'| ensures rs'[j] == Without(rs, i)[j] {
      assert PieceOf(st', cs'[j]) == PieceOf(st, a.chunks[Before(i, j)]);
      assert Without(rs, i)[j] == rs[Before(i, j)];
    }
  }

  lemma ForgetStep<K>(st: Store, w: map<K, Alloc>, k: K, i: nat, size: nat)
    requires World(st, w) && Runs(st, w, k) && i < |w[k].chunks| && w[k].chunks[i].mmap in st.mmaps
    requires var m := st.mmaps[w[k].chunks[i].mmap];
             m.refcount == 1 && m.size == size && size >= DEFAULT_MMAP_SIZE
             && m.buffer in w[k].blocks && w[k].blocks[m.buffer].state == Live(size)
    ensures var m := st.mmaps[w[k].chunks[i].mmap]; var st' := st.(bytes := Unmap(st.bytes, m.buffer, size));
            var w' := w[k := Forgotten(w[k], i, m.buffer)];
            World(st', w') && Runs(st', w', k) && OthersKeep(st, w, k, st')
  {
    hide SharingInv, PrivateInv, HeapInv, Geometry, Tiled, AllSized;
    var a, m := w[k], st.mmaps[w[k].chunks[i].mmap];
    var st' := st.(bytes := Unmap(st.bytes, m.buffer, size));
    var a' := Forgotten(a, i, m.buffer);
    var lists := ListsOf(w);
    assert Sound(st, a);
    assert a.chunks[i] in a.chunks;
    RunningHeap(st, a.chunks, a.heads, a.blocks, a.free);
    var rs := Regions(st, a);
    LargeIsWhole(rs, a.heads, st.bytes, a.blocks, a.free, i, size);
    UnmapKeeps(rs, a.heads, st.bytes, a.blocks, a.free, i);
    ForgetKeeps(st, lists, k, i);
    ForgetViews(st, lists, k, i, st');
    assert lists[k := a'.chunks] == lists[k := Without(lists[k], i)];
    RegionsWithout(st, a, i, st', m.buffer);
    SoundFromHeap(st', lists[k := a'.chunks], k, a');
    assert OthersKeep(st, w, k, st') by {
      assert forall l :: l in w ==> lists[l] == w[l].chunks;
    }
    OthersSound(st, w, k, st', a');
  }

  /** Freeing a large block leaves a sound machine exactly when nobody shares its chunk. */
  lemma ForgetExactly<K>(st: Store, w: map<K, Alloc>, k: K, i: nat, size: nat)
    requires World(st, w) && Runs(st, w, k) && i < |w[k].chunks| && w[k].chunks[i].mmap in st.mmaps
    requires var m := st.mmaps[w[k].chunks[i].mmap];
             m.size == size && size >= DEFAULT_MMAP_SIZE && m.buffer in w[k].blocks && w[k].blocks[m.buffer].state == Live(size)
    ensures var m := st.mmaps[w[k].chunks[i].mmap]; var st' := st.(bytes := Unmap(st.bytes, m.buffer, size));
            World(st', w[k := Forgotten(w[k], i, m.buffer)]) <==> m.refcount == 1
  {
    hide SharingInv, Sound, Running;
    var m := st.mmaps[w[k].chunks[i].mmap];
    var w' := w[k := Forgotten(w[k], i, m.buffer)];
    if m.refcount == 1 {
      ForgetStep(st, w, k, i, size);
    } else {
      assert ListsOf(w') == ListsOf(w)[k := Without(w[k].chunks, i)];
      ForgetExact(st, ListsOf(w), k, i);
    }
  }

  /** A large block that two allocators hold is one chunk, shared. */
  lemma BothHold<K>(st: Store, w: map<K, Alloc>, k: K, l: K, p: Addr, size: nat) returns (i: nat)
    requires World(st, w) && k in w && l in w && k != l && size >= DEFAULT_MMAP_SIZE
    requires p in w[k].blocks && w[k].blocks[p].state == Live(size) && p in w[l].blocks && w[l].blocks[p].state == Live(size)
    ensures i < |w[k].chunks| && w[k].chunks[i].mmap in st.mmaps
    ensures var m := st.mmaps[w[k].chunks[i].mmap]; m.buffer == p && m.size == size && m.refcount != 1
  {
    hide Sound;
    LargeHasChunk(st, w, k, p, size);
    LargeHasChunk(st, w, l, p, size);
    var c :| c in w[k].chunks && c.mmap in st.mmaps && st.mmaps[c.mmap].buffer == p && st.mmaps[c.mmap].size == size;
    var d :| d in w[l].chunks && d.mmap in st.mmaps && st.mmaps[d.mmap].buffer == p && st.mmaps[d.mmap].size == size;
    i :| 0 <= i < |w[k].chunks| && w[k].chunks[i] == c;
    var lists := ListsOf(w);
    assert Holds(lists, k, c) && Holds(lists, l, d);
    assert PairOk(st, k, c, l, d) && Counted(st, lists, c);
    TwoSharers(lists, k, c, l, d);
  }

  /** A large live block is all of its region. */
  lemma LargeIsWhole(rs: seq<Region>, heads: seq<Addr>, mem: Mem, blocks: Blocks, free: seq<seq<Addr>>, i: nat, size: nat)
    requires HeapInv(rs, heads, mem, blocks, free) && i < |rs| && rs[i].base in blocks
    requires blocks[rs[i].base].state == Live(size) && size >= DEFAULT_MMAP_SIZE
    ensures rs[i].brk == rs[i].size == size == blocks[rs[i].base].size
  {
    var p := rs[i].base;
    assert Sized(rs, p, blocks[p]);
    var j :| 0 <= j < |rs| && rs[j] == Region(p, size, size);
    assert RegionOk(rs[i], mem) && RegionOk(rs[j], mem);
    if i != j {
      RegionsApart(rs, mem, i, j);
    }
  }

  /** After chunk i is forgotten, k's other chunks are fine and still owned. */
  lemma ForgetViews<K>(st: Store, lists: map<K, seq<MmapChunk>>, k: K, i: nat, st': Store)
    requires SharingInv(st, lists) && k in lists && i < |lists[k]|
    requires Running(st, lists[k]) && st'.mmaps == st.mmaps
    requires forall d: MmapChunk :: d in lists[k] && d != lists[k][i] ==> ChunkOk(st, d) && ChunkOk(st', d) && PieceOf(st', d) == PieceOf(st, d)
    ensures forall j :: 0 <= j < |Without(lists[k], i)| ==>
              && Without(lists[k], i)[j] == lists[k][Before(i, j)]
              && ChunkOk(st, lists[k][Before(i, j)]) && ChunkOk(st', Without(lists[k], i)[j])
              && PieceOf(st', Without(lists[k], i)[j]) == PieceOf(st, lists[k][Before(i, j)])
    ensures Running(st', Without(lists[k], i)) && ChunksOk(st', Without(lists[k], i))
  {
    var cs' := Without(lists[k], i);
    assert DistinctMmaps(lists[k]);
    forall j | 0 <= j < |cs'|
      ensures cs'[j] == lists[k][Before(i, j)] && cs'[j] in lists[k] && cs'[j] != lists[k][i]
    {
      var b := Before(i, j);
      assert lists[k][b].mmap != lists[k][i].mmap;
    }
  }

  // ---------------------------------------------------------------- SwitchTo

  /** SwitchTo for one chunk of k: every private heap, k's included, is what it was. */
  lemma SwitchStep<K>(st: Store, w: map<K, Alloc>, k: K, i: nat)
    requires World(st, w) && k in w && i < |w[k].chunks|
    ensures ChunkOk(st, w[k].chunks[i])
    ensures var st' := SwitchChunk(st, w[k].chunks[i]);
            && World(st', w) && AllKeep(st, w, st')
            && Owns(st', w[k].chunks[i])
            && st'.mmaps.Keys == st.mmaps.Keys
            && forall j :: 0 <= j < |w[k].chunks| && j != i ==> w[k].chunks[j].mmap in st.mmaps && Owns(st', w[k].chunks[j]) == Owns(st, w[k].chunks[j])
  {
    hide PrivateInv;
    var lists := ListsOf(w);
    var c := w[k].chunks[i];
    assert lists[k] == w[k].chunks && Holds(lists, k, c) && Sound(st, w[k]);
    SwitchChunkKeeps(st, lists, k, c);
    var st' := SwitchChunk(st, c);
    forall l | l in w ensures SamePrivate(st, w[l].chunks, st', w[l].chunks) && Sound(st', w[l]) {
      assert Sound(st, w[l]) && SamePrivate(st, lists[l], st', lists[l]);
    }
    assert DistinctMmaps(lists[k]);
    forall j | 0 <= j < |w[k].chunks| && j != i ensures w[k].chunks[j].mmap in st.mmaps && w[k].chunks[j].mmap != c.mmap {
      assert w[k].chunks[j] in w[k].chunks && ChunkOk(st, w[k].chunks[j]);
    }
  }

  /** Where SwitchTo saves the bytes it displaces. */
  lemma SwitchSaves<K>(st: Store, w: map<K, Alloc>, k: K, c: MmapChunk)
    requires World(st, w) && k in w && c in w[k].chunks
    ensures ChunkOk(st, c) && c.copy != LiveBuffer
    ensures var m := st.mmaps[c.mmap]; m.current.Copy? ==> m.current.handle in st.copies && |st.copies[m.current.handle]| == m.size
  {
    hide PrivateInv;
    var lists := ListsOf(w);
    assert lists[k] == w[k].chunks && Holds(lists, k, c) && Sound(st, w[k]);
    if st.mmaps[c.mmap].current.Copy? {
      CurrentIsCopy(st, lists, k, c);
    }
  }

  // ---------------------------------------------------------------- Clone

  ghost function CloneWorld<K>(w: map<K, Alloc>, k: K, i: nat, c': MmapChunk, n: K, d: MmapChunk): map<K, Alloc>
    requires k in w && n in w && i < |w[k].chunks|
  {
    w[k := w[k].(chunks := w[k].chunks[i := c'])][n := w[n].(chunks := w[n].chunks + [d])]
  }

  /** Clone for one chunk: the child n, still under construction, gains a chunk that looks to it as it
      looks to its parent k. */
  lemma CloneStep<K>(st: Store, w: map<K, Alloc>, k: K, i: nat, n: K, own: nat, other: nat)
    requires WorldBut(st, w, {n}) && Runs(st, w, k) && n in w && k != n && i < |w[k].chunks|
    requires own !in st.copies && other !in st.copies && own != other
    requires forall j :: 0 <= j < |w[n].chunks| ==> w[n].chunks[j].mmap != w[k].chunks[i].mmap
    ensures ChunkOk(st, w[k].chunks[i])
    ensures var (st', c', d) := CloneChunk(st, w[k].chunks[i], own, other);
            var w' := CloneWorld(w, k, i, c', n, d);
            && WorldBut(st', w', {n}) && Runs(st', w', k)
            && (forall l :: l in w && l != n ==> SamePrivate(st, w[l].chunks, st', w'[l].chunks))
            && SamePrivate(st, w[n].chunks, st', w[n].chunks)
            && ChunkOk(st', d) && PieceOf(st', d) == PieceOf(st, w[k].chunks[i])
  {
    hide PrivateInv, SharingInv;
    ChunkFacts(st, w, k, {n});
    var lists := ListsOf(w);
    var c := w[k].chunks[i];
    assert Sound(st, w[k]) && c in w[k].chunks;
    var (st', c', d) := CloneChunk(st, c, own, other);
    var w' := CloneWorld(w, k, i, c', n, d);
    var lists' := CloneLists(lists, k, i, c', n, d);
    CloneChunkKeeps(st, lists, k, i, n, own, other);
    CloneListsOf(w, k, i, c', n, d);
    forall l | l in w && l != n ensures SamePrivate(st, w[l].chunks, st', w'[l].chunks) && Sound(st', w'[l]) {
      assert SamePrivate(st, lists[l], st', lists'[l]);
      assert Sound(st, w[l]);
    }
    CloneRuns(st, w, k, i, n, own, other);
  }

  lemma CloneListsOf<K>(w: map<K, Alloc>, k: K, i: nat, c': MmapChunk, n: K, d: MmapChunk)
    requires k in w && n in w && k != n && i < |w[k].chunks|
    ensures ListsOf(CloneWorld(w, k, i, c', n, d)) == CloneLists(ListsOf(w), k, i, c', n, d)
  {
  }

  /** The parent's chunks stay live. */
  lemma CloneRuns<K>(st: Store, w: map<K, Alloc>, k: K, i: nat, n: K, own: nat, other: nat)
    requires k in w && n in w && k != n && i < |w[k].chunks| && Runs(st, w, k) && DistinctMmaps(w[k].chunks) && ChunksOk(st, w[k].chunks)
    requires ChunkOk(st, w[k].chunks[i])
    ensures var (st', c', d) := CloneChunk(st, w[k].chunks[i], own, other); Runs(st', CloneWorld(w, k, i, c', n, d), k)
  {
    var c := w[k].chunks[i];
    var (st', c', d) := CloneChunk(st, c, own, other);
    var w' := CloneWorld(w, k, i, c', n, d);
    forall e | e in w'[k].chunks ensures e.mmap in st'.mmaps && Owns(st', e) {
      var j :| 0 <= j < |w'[k].chunks| && w'[k].chunks[j] == e;
      assert w[k].chunks[j] in w[k].chunks && Owns(st, w[k].chunks[j]) && ChunkOk(st, w[k].chunks[j]);
      assert j != i ==> w[k].chunks[j].mmap != c.mmap;
    }
  }

  /** When every chunk is cloned the child is a sound allocator. */
  lemma CloneDone<K>(st: Store, w: map<K, Alloc>, k: K, n: K)
    requires WorldBut(st, w, {n}) && k in w && n in w && k != n
    requires ChunksOk(st, w[k].chunks) && ChunksOk(st, w[n].chunks) && Private(st, w[n].chunks) == Private(st, w[k].chunks)
    requires |w[k].heads| == |w[k].free| == BUCKETS
    requires w[n].heads == ChildHeads(w[k].heads) && w[n].blocks == ChildBlocks(w[k].blocks) && w[n].free == ChildFree(w[k].free)
    ensures World(st, w)
  {
    hide PrivateInv, SharingInv;
    assert Sound(st, w[k]);
    ChildHeapInv(Private(st, w[k].chunks), w[k].heads, w[k].blocks, w[k].free);
  }

  /** The child's fields, apart from its chunks. */
  ghost function ChildOf(a: Alloc, cs: seq<MmapChunk>): Alloc
    requires |a.heads| == |a.free| == BUCKETS
  {
    Alloc(cs, ChildHeads(a.heads), ChildBlocks(a.blocks), ChildFree(a.free))
  }

  /** The head of a list that holds a block is not null. */
  lemma FreeIsListed<K>(st: Store, w: map<K, Alloc>, k: K, b: nat, p: Addr)
    requires World(st, w) && k in w && b < BUCKETS && p in w[k].blocks && w[k].blocks[p].state == Listed(b)
    ensures |w[k].heads| == BUCKETS && w[k].heads[b] != 0
  {
    hide SharingInv, Geometry, Tiled, AllSized;
    HeapFacts(st, w, k);
    var a := w[k];
    assert Sound(st, a);
    assert OnList(a.blocks, p, b) && p in a.free[b];
    assert Linked(MemOf(Private(st, a.chunks)), a.heads[b], a.free[b]);
  }

  lemma ChildLoses<K>(st: Store, w: map<K, Alloc>, k: K)
    requires World(st, w) && k in w
    ensures |w[k].heads| == BUCKETS
    ensures NoneLost(ChildBlocks(w[k].blocks)) <==> NoneLost(w[k].blocks) && forall b :: 0 < b < BUCKETS ==> w[k].heads[b] == 0
  {
    hide SharingInv, HeapInv, NoneLost;
    HeapFacts(st, w, k);
    var a := w[k];
    assert Sound(st, a);
    ChildLosesNothing(Regions(st, a), a.heads, MemOf(Private(st, a.chunks)), a.blocks, a.free);
  }

  /** After i chunks of Clone's loop only k's and its child n's chunk lists have changed, and they name the
      same structs. */
  ghost predicate CloneShape<K>(w: map<K, Alloc>, k: K, n: K, i: nat, w': map<K, Alloc>) {
    && k in w && n !in w && i <= |w[k].chunks| && |w[k].heads| == |w[k].free| == BUCKETS
    && w'.Keys == w.Keys + {n}
    && (forall l :: l in w ==> w'[l] == w[l].(chunks := w'[l].chunks))
    && (forall l :: l in w && l != k ==> w'[l] == w[l])
    && |w'[k].chunks| == |w[k].chunks| && (forall j :: 0 <= j < |w[k].chunks| ==> w'[k].chunks[j].mmap == w[k].chunks[j].mmap)
    && w'[n] == ChildOf(w[k], w'[n].chunks)
    && |w'[n].chunks| == i && (forall j :: 0 <= j < i ==> w'[n].chunks[j].mmap == w[k].chunks[j].mmap)
  }

  /** The state of Clone's loop after i chunks: n is the child of k, st and w the machine it started from. */
  ghost predicate Cloning<K>(st: Store, w: map<K, Alloc>, k: K, n: K, i: nat, st': Store, w': map<K, Alloc>) {
    && CloneShape(w, k, n, i, w') && ChunksOk(st, w[k].chunks) && DistinctMmaps(w[k].chunks)
    && WorldBut(st', w', {n}) && Runs(st', w', k)
    && (forall l :: l in w ==> SamePrivate(st, w[l].chunks, st', w'[l].chunks))
    && ChunksOk(st', w'[n].chunks) && Private(st', w'[n].chunks) == Private(st, w[k].chunks)[..i]
  }

  lemma CloneBegins<K>(st: Store, w: map<K, Alloc>, k: K, n: K)
    requires World(st, w) && Runs(st, w, k) && n !in w
    ensures |w[k].heads| == |w[k].free| == BUCKETS
    ensures Cloning(st, w, k, n, 0, st, w[n := ChildOf(w[k], [])])
  {
    hide PrivateInv, SharingInv;
    HeapFacts(st, w, k);
    ChunkFacts(st, w, k, {});
    var w' := w[n := ChildOf(w[k], [])];
    AddEmpty(st, ListsOf(w), n);
    assert ListsOf(w') == ListsOf(w)[n := []];
    assert forall l :: l in w ==> Sound(st, w[l]);
    assert Private(st, []) == [];
  }

  lemma CloningChunks<K>(st: Store, w: map<K, Alloc>, k: K, n: K, i: nat, st1: Store, w1: map<K, Alloc>)
    requires Cloning(st, w, k, n, i, st1, w1)
    ensures k in w && k in w1 && |w1[k].chunks| == |w[k].chunks|
  {
  }

  lemma SamePrivateTrans(st: Store, cs: seq<MmapChunk>, st1: Store, cs1: seq<MmapChunk>, st2: Store, cs2: seq<MmapChunk>)
    requires SamePrivate(st, cs, st1, cs1) && SamePrivate(st1, cs1, st2, cs2)
    ensures SamePrivate(st, cs, st2, cs2)
  {
  }

  /** The child's list one chunk longer. */
  lemma ClonedMore(st: Store, cs: seq<MmapChunk>, i: nat, st1: Store, cs1: seq<MmapChunk>, ds: seq<MmapChunk>, st': Store, d: MmapChunk)
    requires SamePrivate(st, cs, st1, cs1) && i < |cs1| == |cs| && SamePrivate(st1, ds, st', ds) && Private(st1, ds) == Private(st, cs)[..i]
    requires ChunkOk(st', d) && PieceOf(st', d) == PieceOf(st1, cs1[i])
    ensures ChunksOk(st', ds + [d]) && Private(st', ds + [d]) == Private(st, cs)[..i + 1]
  {
    hide ChunkOk;
    assert PieceOf(st', d) == Private(st1, cs1)[i] == Private(st, cs)[i];
    assert Private(st', ds + [d]) == Private(st', ds) + [PieceOf(st', d)];
  }

  lemma ShapeContinues<K>(w: map<K, Alloc>, k: K, n: K, i: nat, w1: map<K, Alloc>, c': MmapChunk, d: MmapChunk)
    requires CloneShape(w, k, n, i, w1) && i < |w[k].chunks| && c'.mmap == d.mmap == w[k].chunks[i].mmap
    ensures k in w1 && n in w1 && k != n && i < |w1[k].chunks|
    ensures var w' := CloneWorld(w1, k, i, c', n, d);
            CloneShape(w, k, n, i + 1, w') && w'[n].chunks == w1[n].chunks + [d]
  {
  }

  /** The next chunk has not been cloned yet. */
  lemma ShapeFresh<K>(w: map<K, Alloc>, k: K, n: K, i: nat, w1: map<K, Alloc>)
    requires CloneShape(w, k, n, i, w1) && i < |w[k].chunks| && DistinctMmaps(w[k].chunks)
    ensures k in w1 && n in w1 && k != n && |w1[k].chunks| == |w[k].chunks| && w1[k].chunks[i].mmap == w[k].chunks[i].mmap
    ensures w1.Keys == w.Keys + {n}
    ensures forall j :: 0 <= j < |w1[n].chunks| ==> w1[n].chunks[j].mmap != w1[k].chunks[i].mmap
  {
  }

  lemma CloneContinues<K>(st: Store, w: map<K, Alloc>, k: K, n: K, i: nat, st1: Store, w1: map<K, Alloc>, own: nat, other: nat)
    requires Cloning(st, w, k, n, i, st1, w1) && i < |w[k].chunks|
    requires own !in st1.copies && other !in st1.copies && own != other
    ensures k in w1 && i < |w1[k].chunks| && n in w1 && ChunkOk(st1, w1[k].chunks[i])
    ensures var (st', c', d) := CloneChunk(st1, w1[k].chunks[i], own, other);
            Cloning(st, w, k, n, i + 1, st', CloneWorld(w1, k, i, c', n, d))
  {
    hide WorldBut, Private, ChunkOk, Running, CloneShape, SamePrivate;
    ShapeFresh(w, k, n, i, w1);
    CloneStep(st1, w1, k, i, n, own, other);
    var (st', c', d) := CloneChunk(st1, w1[k].chunks[i], own, other);
    ShapeContinues(w, k, n, i, w1, c', d);
    var w' := CloneWorld(w1, k, i, c', n, d);
    forall l | l in w ensures SamePrivate(st, w[l].chunks, st', w'[l].chunks) {
      SamePrivateTrans(st, w[l].chunks, st1, w1[l].chunks, st', w'[l].chunks);
    }
    ClonedMore(st, w[k].chunks, i, st1, w1[k].chunks, w1[n].chunks, st', d);
  }

  lemma CloneEnds<K>(st: Store, w: map<K, Alloc>, k: K, n: K, st': Store, w': map<K, Alloc>)
    requires k in w && Cloning(st, w, k, n, |w[k].chunks|, st', w')
    ensures World(st', w') && Runs(st', w', k)
    ensures n in w' && SamePrivate(st, w[k].chunks, st', w'[n].chunks)
    ensures forall l :: l in w ==> l in w' && SamePrivate(st, w[l].chunks, st', w'[l].chunks)
  {
    hide WorldBut;
    var ps := Private(st, w[k].chunks);
    assert ps[..|ps|] == ps;
    assert SamePrivate(st, w[k].chunks, st', w'[k].chunks);
    CloneDone(st', w', k, n);
  }

  // ---------------------------------------------------------------- teardown

  /** Dispose for one chunk of the dying allocator k. */
  lemma DisownStep<K>(st: Store, w: map<K, Alloc>, k: K, c: MmapChunk)
    requires WorldBut(st, w, {k}) && k in w && c in w[k].chunks && c.mmap in st.mmaps && c.copy == st.mmaps[c.mmap].current
    ensures var st' := st.(mmaps := st.mmaps[c.mmap := st.mmaps[c.mmap].(current := Null)]);
            WorldBut(st', w, {k}) && OthersKeep(st, w, k, st')
  {
    hide PrivateInv;
    var lists := ListsOf(w);
    assert Holds(lists, k, c);
    DisownKeeps(st, lists, k, c);
    var st' := st.(mmaps := st.mmaps[c.mmap := st.mmaps[c.mmap].(current := Null)]);
    forall l | l in w && l != k ensures SamePrivate(st, w[l].chunks, st', w[l].chunks) && Sound(st', w[l]) {
      assert SamePrivate(st, lists[l], st', lists[l]) && Sound(st, w[l]);
    }
  }

  /** The destructor's loop body on the first chunk left. */
  lemma ReleaseStep<K>(st: Store, w: map<K, Alloc>, k: K)
    requires WorldBut(st, w, {k}) && k in w && w[k].chunks != []
    ensures ChunkOk(st, w[k].chunks[0]) && st.mmaps[w[k].chunks[0].mmap].refcount >= 1
    ensures var st' := ReleaseChunk(st, w[k].chunks[0]);
            WorldBut(st', w[k := w[k].(chunks := w[k].chunks[1..])], {k}) && OthersKeep(st, w, k, st')
  {
    hide PrivateInv;
    var lists := ListsOf(w);
    assert lists[k] == w[k].chunks;
    ReleaseKeeps(st, lists, k, 0);
    var w' := w[k := w[k].(chunks := w[k].chunks[1..])];
    assert Without(lists[k], 0) == w[k].chunks[1..];
    assert ListsOf(w') == lists[k := Without(lists[k], 0)];
    var st' := ReleaseChunk(st, w[k].chunks[0]);
    forall l | l in w && l != k ensures SamePrivate(st, w[l].chunks, st', w[l].chunks) && Sound(st', w[l]) {
      assert SamePrivate(st, lists[l], st', lists[l]) && Sound(st, w[l]);
    }
  }

  /** An allocator without chunks can leave. */
  lemma LeaveStep<K>(st: Store, w: map<K, Alloc>, k: K)
    requires WorldBut(st, w, {k}) && k in w && w[k].chunks == []
    ensures World(st, w - {k})
  {
    hide PrivateInv;
    var lists, lists' := ListsOf(w), ListsOf(w - {k});
    assert forall l, c :: Holds(lists', l, c) <==> Holds(lists, l, c);
    forall l, c | l in lists' && Holds(lists', l, c) ensures Counted(st, lists', c) {
      assert Counted(st, lists, c);
      assert Sharers(lists', c.mmap) == Sharers(lists, c.mmap);
      if st.mmaps[c.mmap].current.Copy? {
        var l', d :| l' in lists && Holds(lists, l', d) && d.mmap == c.mmap && d.copy == st.mmaps[c.mmap].current;
        assert Holds(lists', l', d);
      }
    }
    forall l | l in lists' ensures DistinctMmaps(lists'[l]) {
      assert DistinctMmaps(lists[l]);
    }
    forall l | l in w - {k} ensures Sound(st, (w - {k})[l]) {
      assert Sound(st, w[l]);
    }
    forall l, c, l', d | l in lists' && l' in lists' && Holds(lists', l, c) && Holds(lists', l', d) ensures PairOk(st, l, c, l', d) {
      assert PairOk(st, l, c, l', d);
    }
  }
}
