/** What the Kingsley allocator keeps true about its memory, stated on values.

    A heap is a list of regions (mmapped chunks, each used up to its brk), the bucket heads,
    the raw memory the free lists are threaded through, and two ghost records the program does
    not have: the blocks ever cut from the regions, and the contents of each free list. */
module KingsleyHeap {
  import opened Memory

  /** m_defaultMmapSize. */
  const DEFAULT_MMAP_SIZE: nat := 32768
  const BUCKETS: nat := 32

  // ---------------------------------------------------------------- bucket sizes

  function Pow2(n: nat): nat {
    if n == 0 then 1 else 2 * Pow2(n - 1)
  }

  function BucketToSize(bucket: nat): nat {
    Pow2(bucket + 3)
  }

  lemma {:induction false} BucketGrows(b: nat, c: nat)
    requires b < c
    ensures BucketToSize(b) >= 8
    ensures 2 * BucketToSize(b) <= BucketToSize(c)
  {
    Pow2Positive(b);
    if b + 1 < c {
      BucketGrows(b, c - 1);
    }
  }

  lemma {:induction false} Pow2Positive(n: nat)
    ensures BucketToSize(n) >= 8 && BucketToSize(n) > n
  {
    if n > 0 {
      Pow2Positive(n - 1);
    } else {
      assert Pow2(3) == 2 * Pow2(2) == 4 * Pow2(1);
    }
  }

  /** bucket is the least one whose blocks hold sz bytes. */
  ghost predicate LeastBucket(sz: nat, bucket: nat) {
    sz <= BucketToSize(bucket) && forall c :: 0 <= c < bucket ==> BucketToSize(c) < sz
  }

  /** The bucket a request of sz bytes belongs to, found by trying 0, 1, 2, ... */
  function BucketOf(sz: nat): (bucket: nat)
    ensures LeastBucket(sz, bucket)
  {
    BucketFrom(sz, 0)
  }

  function BucketFrom(sz: nat, from: nat): (bucket: nat)
    requires forall c :: 0 <= c < from ==> BucketToSize(c) < sz
    ensures LeastBucket(sz, bucket)
    decreases sz - from
  {
    Pow2Positive(from);
    if sz <= BucketToSize(from) then from else BucketFrom(sz, from + 1)
  }

  lemma LeastBucketUnique(sz: nat, b: nat, c: nat)
    requires LeastBucket(sz, b) && LeastBucket(sz, c)
    ensures b == c
  {
    assert b < c ==> BucketToSize(b) < sz;
    assert c < b ==> BucketToSize(c) < sz;
  }

  /** Every request below the mmap threshold fits one default chunk. */
  lemma SmallFitsChunk(sz: nat)
    requires sz < DEFAULT_MMAP_SIZE
    ensures BucketOf(sz) <= 12 && BucketToSize(BucketOf(sz)) <= DEFAULT_MMAP_SIZE
  {
    assert Pow2(15) == DEFAULT_MMAP_SIZE by {
      assert Pow2(5) == 32;
      assert Pow2(10) == 1024;
    }
    var b := BucketOf(sz);
    assert b > 12 ==> BucketToSize(12) < sz;
    if b < 12 {
      BucketGrows(b, 12);
    }
  }

  /** The shift loop of SizeToBucket finds the least bucket. */
  method SizeToBucket(sz: nat) returns (bucket: nat)
    requires sz >= 1
    ensures LeastBucket(sz, bucket)
    ensures bucket == BucketOf(sz)
  {
    bucket := 0;
    var size := sz - 1;
    Pow2Positive(0);
    assert Pow2(0) == 1 && Pow2(3) == 8;
    while size > 7
      invariant size * Pow2(bucket) <= sz - 1 < (size + 1) * Pow2(bucket)
      invariant bucket > 0 ==> size >= 4
    {
      HalveStep(size, bucket, sz - 1);
      size := size / 2;
      bucket := bucket + 1;
    }
    ShiftedIsLeast(size, bucket, sz);
    LeastBucketUnique(sz, bucket, BucketOf(sz));
  }

  lemma HalveStep(size: nat, bucket: nat, v: nat)
    requires size * Pow2(bucket) <= v < (size + 1) * Pow2(bucket)
    ensures (size / 2) * Pow2(bucket + 1) <= v < (size / 2 + 1) * Pow2(bucket + 1)
  {
    var p := Pow2(bucket);
    assert Pow2(bucket + 1) == 2 * p;
    var h := size / 2;
    assert size == 2 * h || size == 2 * h + 1;
    assert h * (2 * p) == (2 * h) * p;
    assert (h + 1) * (2 * p) == (2 * h + 2) * p;
    assert (2 * h) * p <= size * p;
    assert (size + 1) * p <= (2 * h + 2) * p;
  }

  lemma ShiftedIsLeast(size: nat, bucket: nat, sz: nat)
    requires sz >= 1 && size <= 7 && (bucket > 0 ==> size >= 4)
    requires size * Pow2(bucket) <= sz - 1 < (size + 1) * Pow2(bucket)
    ensures LeastBucket(sz, bucket)
  {
    var p := Pow2(bucket);
    assert BucketToSize(bucket) == 8 * p by {
      assert Pow2(bucket + 3) == 2 * Pow2(bucket + 2) == 4 * Pow2(bucket + 1) == 8 * p;
    }
    TimesMono(size + 1, 8, p);
    if bucket > 0 {
      TimesMono(4, size, p);
    }
    forall c | 0 <= c < bucket ensures BucketToSize(c) < sz {
      BucketGrows(c, bucket);
    }
  }

  lemma TimesMono(a: nat, b: nat, p: nat)
    requires a <= b
    ensures a * p <= b * p
  {
  }

  // ---------------------------------------------------------------- the heap invariant

  /** A chunk: [base, base+size) is mapped, [base, base+brk) has been handed out in blocks. */
  datatype Region = Region(base: Addr, size: nat, brk: nat)

  /** Live: held by the client, who asked for request bytes. Listed: on free list bucket.
      Lost: on no list and held by nobody. */
  datatype State = Live(request: nat) | Listed(bucket: nat) | Lost
  datatype Block = Block(size: nat, state: State)
  type Blocks = map<Addr, Block>

  ghost predicate RegionOk(r: Region, mem: Mem) {
    && 0 < r.base && 0 < r.size && r.brk <= r.size
    && r.base + r.size <= WORD_LIMIT
    && Mapped(mem, r.base, r.size)
  }

  ghost predicate Apart(r: Region, s: Region) {
    r.base + r.size <= s.base || s.base + s.size <= r.base
  }

  ghost predicate Geometry(rs: seq<Region>, mem: Mem) {
    && (forall i :: 0 <= i < |rs| ==> RegionOk(rs[i], mem))
    && (forall i, j :: 0 <= i < j < |rs| ==> Apart(rs[i], rs[j]))
  }

  /** [a, a+n) lies below the brk of r. */
  ghost predicate Inside(r: Region, a: Addr, n: nat) {
    r.base <= a && a + n <= r.base + r.brk
  }

  ghost predicate Placed(rs: seq<Region>, a: Addr, n: nat) {
    exists i :: 0 <= i < |rs| && Inside(rs[i], a, n)
  }

  ghost predicate Used(r: Region, x: Addr) {
    r.base <= x < r.base + r.brk
  }

  ghost predicate Covers(blocks: Blocks, a: Addr, x: Addr) {
    a in blocks && a <= x < a + blocks[a].size
  }

  ghost predicate InSomeBlock(blocks: Blocks, x: Addr) {
    exists a :: Covers(blocks, a, x)
  }

  ghost predicate Disjoint(blocks: Blocks, a: Addr, b: Addr)
    requires a in blocks && b in blocks
  {
    a + blocks[a].size <= b || b + blocks[b].size <= a
  }

  /** The blocks are pairwise disjoint and fill [base, base+brk) of every region, and nothing else. */
  ghost predicate Tiled(rs: seq<Region>, blocks: Blocks) {
    && (forall a :: a in blocks ==> blocks[a].size > 0 && Placed(rs, a, blocks[a].size))
    && (forall a, b :: a in blocks && b in blocks && a != b ==> Disjoint(blocks, a, b))
    && (forall i, x: Addr :: 0 <= i < |rs| && Used(rs[i], x) ==> InSomeBlock(blocks, x))
  }

  /** Block a is the whole of a region of n bytes. */
  ghost predicate OwnRegion(rs: seq<Region>, a: Addr, n: nat) {
    Region(a, n, n) in rs
  }

  ghost predicate Sized(rs: seq<Region>, a: Addr, blk: Block) {
    match blk.state
    case Live(s) =>
      && s >= 1
      && (s < DEFAULT_MMAP_SIZE ==> blk.size == BucketToSize(BucketOf(s)))
      && (s >= DEFAULT_MMAP_SIZE ==> blk.size == s && OwnRegion(rs, a, s))
    case Listed(b) => b < BUCKETS && blk.size == BucketToSize(b)
    case Lost => true
  }

  ghost predicate AllSized(rs: seq<Region>, blocks: Blocks) {
    forall a :: a in blocks ==> Sized(rs, a, blocks[a])
  }

  /** Following the next pointers in memory from head visits exactly list and ends at null. */
  ghost predicate Linked(mem: Mem, head: Addr, list: seq<Addr>)
    decreases list
  {
    if list == [] then head == 0
    else head == list[0] && head != 0 && Mapped(mem, head, WORD) && Linked(mem, LoadWord(mem, head), list[1..])
  }

  ghost predicate NoDup(list: seq<Addr>) {
    forall i, j :: 0 <= i < j < |list| ==> list[i] != list[j]
  }

  ghost predicate OnList(blocks: Blocks, a: Addr, b: nat) {
    a in blocks && blocks[a].state == Listed(b)
  }

  /** Each bucket's list is the chain its head starts, without repetition, and holds exactly the blocks
      that are free in that bucket. */
  ghost predicate FreeLists(heads: seq<Addr>, mem: Mem, blocks: Blocks, free: seq<seq<Addr>>) {
    && |heads| == |free| == BUCKETS
    && (forall b :: 0 <= b < BUCKETS ==> Linked(mem, heads[b], free[b]) && NoDup(free[b]))
    && (forall b, a :: 0 <= b < BUCKETS ==> (a in free[b] <==> OnList(blocks, a, b)))
  }

  ghost predicate HeapInv(rs: seq<Region>, heads: seq<Addr>, mem: Mem, blocks: Blocks, free: seq<seq<Addr>>) {
    && Geometry(rs, mem)
    && Tiled(rs, blocks)
    && AllSized(rs, blocks)
    && FreeLists(heads, mem, blocks, free)
  }

  /** What became of a block. */
  ghost predicate Accounted(blocks: Blocks, free: seq<seq<Addr>>, a: Addr)
    requires a in blocks
  {
    match blocks[a].state
    case Listed(b) => b < |free| && a in free[b] && forall c :: 0 <= c < |free| && a in free[c] ==> c == b
    case _ => forall c :: 0 <= c < |free| ==> a !in free[c]
  }

  /** Every byte below a brk belongs to exactly one block, which is live, or on exactly one free list, or lost. */
  lemma EveryByteAccounted(rs: seq<Region>, heads: seq<Addr>, mem: Mem, blocks: Blocks, free: seq<seq<Addr>>, i: nat, x: Addr)
    requires HeapInv(rs, heads, mem, blocks, free) && i < |rs| && Used(rs[i], x)
    ensures exists a :: Covers(blocks, a, x) && Accounted(blocks, free, a) && forall b :: Covers(blocks, b, x) ==> b == a
  {
    assert InSomeBlock(blocks, x);
    var a :| Covers(blocks, a, x);
    assert Sized(rs, a, blocks[a]);
    forall c | 0 <= c < |free| ensures a in free[c] <==> OnList(blocks, a, c) {
    }
    forall b | Covers(blocks, b, x) ensures b == a {
      assert b != a ==> Disjoint(blocks, a, b);
    }
  }

  /** Nothing has been lost: the case of an allocator that is not a clone. */
  ghost predicate NoneLost(blocks: Blocks) {
    forall a :: a in blocks ==> !blocks[a].state.Lost?
  }

  /** Then live blocks and free lists between them account for every byte below a brk, each byte once. */
  lemma LiveOrFree(rs: seq<Region>, heads: seq<Addr>, mem: Mem, blocks: Blocks, free: seq<seq<Addr>>, i: nat, x: Addr)
    requires HeapInv(rs, heads, mem, blocks, free) && NoneLost(blocks) && i < |rs| && Used(rs[i], x)
    ensures exists a :: Covers(blocks, a, x) && (forall b :: Covers(blocks, b, x) ==> b == a)
              && (blocks[a].state.Live? || exists b :: 0 <= b < |free| && a in free[b] && blocks[a].size == BucketToSize(b))
  {
    EveryByteAccounted(rs, heads, mem, blocks, free, i, x);
    var a :| Covers(blocks, a, x) && Accounted(blocks, free, a) && forall b :: Covers(blocks, b, x) ==> b == a;
    assert Sized(rs, a, blocks[a]);
    if blocks[a].state.Listed? {
      assert a in free[blocks[a].state.bucket] && blocks[a].size == BucketToSize(blocks[a].state.bucket);
    }
  }

  // ---------------------------------------------------------------- frame

  lemma {:induction false} LinkedFrame(mem: Mem, mem': Mem, head: Addr, list: seq<Addr>)
    requires Linked(mem, head, list)
    requires forall a :: a in list ==> SameBytes(mem, mem', a, WORD)
    ensures Linked(mem', head, list)
    decreases list
  {
    if list != [] {
      assert head in list;
      LoadFrame(mem, mem', head);
      forall a | a in list[1..] ensures SameBytes(mem, mem', a, WORD) {
        assert a in list;
      }
      LinkedFrame(mem, mem', LoadWord(mem, head), list[1..]);
    }
  }

  lemma BlockInRegion(rs: seq<Region>, heads: seq<Addr>, mem: Mem, blocks: Blocks, free: seq<seq<Addr>>, a: Addr)
    requires HeapInv(rs, heads, mem, blocks, free) && a in blocks
    ensures 0 < a && a + blocks[a].size <= WORD_LIMIT
    ensures Mapped(mem, a, blocks[a].size)
  {
    var i :| 0 <= i < |rs| && Inside(rs[i], a, blocks[a].size);
    assert RegionOk(rs[i], mem);
  }

  lemma FreeBlockHoldsWord(rs: seq<Region>, blocks: Blocks, a: Addr, b: nat)
    requires AllSized(rs, blocks) && OnList(blocks, a, b)
    ensures blocks[a].size >= WORD
  {
    assert Sized(rs, a, blocks[a]);
    Pow2Positive(b);
  }

  /** The bytes of every free block are the same in mem and mem'. */
  ghost predicate SameFree(mem: Mem, mem': Mem, blocks: Blocks) {
    forall a :: a in blocks && blocks[a].state.Listed? ==> SameBytes(mem, mem', a, blocks[a].size)
  }

  /** The invariant reads memory only inside free blocks: it survives any write elsewhere. */
  lemma HeapInvFrame(rs: seq<Region>, heads: seq<Addr>, mem: Mem, mem': Mem, blocks: Blocks, free: seq<seq<Addr>>)
    requires HeapInv(rs, heads, mem, blocks, free)
    requires Geometry(rs, mem')
    requires SameFree(mem, mem', blocks)
    ensures HeapInv(rs, heads, mem', blocks, free)
  {
    FreeListsFrame(rs, heads, mem, mem', blocks, free);
  }

  /** A write inside one block that is not free leaves every free block alone. */
  lemma WriteOutsideFree(rs: seq<Region>, blocks: Blocks, mem: Mem, a: Addr, at: Addr, s: seq<Byte>)
    requires Tiled(rs, blocks) && a in blocks && !blocks[a].state.Listed?
    requires a <= at && at + |s| <= a + blocks[a].size && Mapped(mem, at, |s|)
    ensures SameFree(mem, Write(mem, at, s), blocks)
  {
    var mem' := Write(mem, at, s);
    forall b | b in blocks && blocks[b].state.Listed? ensures SameBytes(mem, mem', b, blocks[b].size) {
      assert Disjoint(blocks, a, b);
    }
  }

  lemma GeometrySameKeys(rs: seq<Region>, mem: Mem, mem': Mem)
    requires Geometry(rs, mem) && mem.Keys == mem'.Keys
    ensures Geometry(rs, mem')
  {
    forall i | 0 <= i < |rs| ensures RegionOk(rs[i], mem') {
      assert RegionOk(rs[i], mem);
      forall x | rs[i].base <= x < rs[i].base + rs[i].size ensures x in mem' {
        assert x in mem && x in mem.Keys;
      }
    }
  }

  // ---------------------------------------------------------------- the steps

  /** A client write inside a live block cannot break the heap. */
  lemma ClientWriteKeeps(rs: seq<Region>, heads: seq<Addr>, mem: Mem, blocks: Blocks, free: seq<seq<Addr>>,
                         a: Addr, at: Addr, s: seq<Byte>)
    requires HeapInv(rs, heads, mem, blocks, free)
    requires a in blocks && !blocks[a].state.Listed? && a <= at && at + |s| <= a + blocks[a].size
    ensures Mapped(mem, at, |s|)
    ensures HeapInv(rs, heads, Write(mem, at, s), blocks, free)
  {
    BlockInRegion(rs, heads, mem, blocks, free, a);
    WriteOutsideFree(rs, blocks, mem, a, at, s);
    GeometrySameKeys(rs, mem, Write(mem, at, s));
    HeapInvFrame(rs, heads, mem, Write(mem, at, s), blocks, free);
  }

  /** Raising brk by needed cuts a new block, which nothing refers to yet. */
  lemma BumpKeeps(rs: seq<Region>, heads: seq<Addr>, mem: Mem, blocks: Blocks, free: seq<seq<Addr>>, i: nat, needed: nat)
    requires HeapInv(rs, heads, mem, blocks, free)
    requires i < |rs| && 0 < needed <= rs[i].size - rs[i].brk
    ensures rs[i].base + rs[i].brk !in blocks
    ensures HeapInv(rs[i := rs[i].(brk := rs[i].brk + needed)], heads, mem,
                    blocks[rs[i].base + rs[i].brk := Block(needed, Lost)], free)
  {
    hide Tiled, AllSized, FreeLists;
    assert RegionOk(rs[i], mem);
    BumpFresh(rs, mem, blocks, i, needed);
    BumpGeometry(rs, mem, i, needed);
    BumpTiled(rs, mem, blocks, i, needed);
    BumpSized(rs, blocks, i, needed);
    BumpLists(heads, mem, blocks, free, rs[i].base + rs[i].brk, needed);
  }

  lemma BumpFresh(rs: seq<Region>, mem: Mem, blocks: Blocks, i: nat, needed: nat)
    requires Geometry(rs, mem) && Tiled(rs, blocks)
    requires i < |rs| && 0 < needed <= rs[i].size - rs[i].brk
    ensures rs[i].base + rs[i].brk !in blocks
    ensures forall a :: a in blocks ==> a + blocks[a].size <= rs[i].base + rs[i].brk || rs[i].base + rs[i].brk + needed <= a
  {
    forall a | a in blocks ensures a + blocks[a].size <= rs[i].base + rs[i].brk || rs[i].base + rs[i].brk + needed <= a {
      BumpClear(rs, mem, blocks, i, needed, a);
    }
  }

  lemma BumpSized(rs: seq<Region>, blocks: Blocks, i: nat, needed: nat)
    requires AllSized(rs, blocks) && i < |rs| && 0 < needed <= rs[i].size - rs[i].brk
    ensures AllSized(rs[i := rs[i].(brk := rs[i].brk + needed)], blocks[rs[i].base + rs[i].brk := Block(needed, Lost)])
  {
    var p := rs[i].base + rs[i].brk;
    var blocks' := blocks[p := Block(needed, Lost)];
    forall a | a in blocks' ensures Sized(rs[i := rs[i].(brk := rs[i].brk + needed)], a, blocks'[a]) {
      if a != p {
        assert Sized(rs, a, blocks[a]);
        BumpOwn(rs, i, needed, a, blocks[a].size);
      }
    }
  }

  lemma BumpLists(heads: seq<Addr>, mem: Mem, blocks: Blocks, free: seq<seq<Addr>>, p: Addr, needed: nat)
    requires FreeLists(heads, mem, blocks, free) && p !in blocks
    ensures FreeLists(heads, mem, blocks[p := Block(needed, Lost)], free)
  {
    var blocks' := blocks[p := Block(needed, Lost)];
    forall b, a | 0 <= b < BUCKETS ensures a in free[b] <==> OnList(blocks', a, b) {
      assert a in free[b] <==> OnList(blocks, a, b);
    }
  }

  /** Every block cut before lies clear of the new one. */
  lemma BumpClear(rs: seq<Region>, mem: Mem, blocks: Blocks, i: nat, needed: nat, a: Addr)
    requires Geometry(rs, mem) && Tiled(rs, blocks) && a in blocks
    requires i < |rs| && needed <= rs[i].size - rs[i].brk
    ensures a + blocks[a].size <= rs[i].base + rs[i].brk || rs[i].base + rs[i].brk + needed <= a
  {
    var j :| 0 <= j < |rs| && Inside(rs[j], a, blocks[a].size);
    assert RegionOk(rs[j], mem) && RegionOk(rs[i], mem);
    if j < i {
      assert Apart(rs[j], rs[i]);
    } else if i < j {
      assert Apart(rs[i], rs[j]);
    }
  }

  /** A region that is one whole block has no room left, so it is not the one that grew. */
  lemma BumpOwn(rs: seq<Region>, i: nat, needed: nat, a: Addr, n: nat)
    requires i < |rs| && 0 < needed <= rs[i].size - rs[i].brk
    ensures OwnRegion(rs, a, n) ==> OwnRegion(rs[i := rs[i].(brk := rs[i].brk + needed)], a, n)
  {
    if OwnRegion(rs, a, n) {
      var k :| 0 <= k < |rs| && rs[k] == Region(a, n, n);
      assert rs[i := rs[i].(brk := rs[i].brk + needed)][k] == rs[k];
    }
  }

  lemma BumpGeometry(rs: seq<Region>, mem: Mem, i: nat, needed: nat)
    requires Geometry(rs, mem) && i < |rs| && needed <= rs[i].size - rs[i].brk
    ensures Geometry(rs[i := rs[i].(brk := rs[i].brk + needed)], mem)
  {
    var rs' := rs[i := rs[i].(brk := rs[i].brk + needed)];
    forall k | 0 <= k < |rs'| ensures RegionOk(rs'[k], mem) {
      assert RegionOk(rs[k], mem);
    }
    forall k, l | 0 <= k < l < |rs'| ensures Apart(rs'[k], rs'[l]) {
      assert Apart(rs[k], rs[l]);
    }
  }

  lemma BumpTiled(rs: seq<Region>, mem: Mem, blocks: Blocks, i: nat, needed: nat)
    requires Geometry(rs, mem) && Tiled(rs, blocks) && i < |rs| && 0 < needed <= rs[i].size - rs[i].brk
    requires forall a :: a in blocks ==> a + blocks[a].size <= rs[i].base + rs[i].brk || rs[i].base + rs[i].brk + needed <= a
    ensures Tiled(rs[i := rs[i].(brk := rs[i].brk + needed)], blocks[rs[i].base + rs[i].brk := Block(needed, Lost)])
  {
    var p := rs[i].base + rs[i].brk;
    var rs' := rs[i := rs[i].(brk := rs[i].brk + needed)];
    var blocks' := blocks[p := Block(needed, Lost)];
    forall a | a in blocks' ensures blocks'[a].size > 0 && Placed(rs', a, blocks'[a].size) {
      if a == p {
        assert Inside(rs'[i], a, needed);
      } else {
        BumpPlaced(rs, i, needed, a, blocks[a].size);
      }
    }
    forall a, b | a in blocks' && b in blocks' && a != b ensures Disjoint(blocks', a, b) {
      if a != p && b != p {
        assert Disjoint(blocks, a, b);
      }
    }
    forall k, x: Addr | 0 <= k < |rs'| && Used(rs'[k], x) ensures InSomeBlock(blocks', x) {
      BumpCovers(rs, blocks, i, needed, k, x);
    }
  }

  lemma BumpPlaced(rs: seq<Region>, i: nat, needed: nat, a: Addr, n: nat)
    requires i < |rs| && Placed(rs, a, n)
    ensures Placed(rs[i := rs[i].(brk := rs[i].brk + needed)], a, n)
  {
    var j :| 0 <= j < |rs| && Inside(rs[j], a, n);
    assert Inside(rs[i := rs[i].(brk := rs[i].brk + needed)][j], a, n);
  }

  lemma BumpCovers(rs: seq<Region>, blocks: Blocks, i: nat, needed: nat, k: nat, x: Addr)
    requires Tiled(rs, blocks) && i < |rs| && k < |rs| && rs[i].base + rs[i].brk !in blocks
    requires Used(rs[i := rs[i].(brk := rs[i].brk + needed)][k], x)
    ensures InSomeBlock(blocks[rs[i].base + rs[i].brk := Block(needed, Lost)], x)
  {
    var p := rs[i].base + rs[i].brk;
    var blocks' := blocks[p := Block(needed, Lost)];
    if k == i && p <= x {
      assert Covers(blocks', p, x);
    } else {
      assert Used(rs[k], x);
      assert InSomeBlock(blocks, x);
      var a :| Covers(blocks, a, x);
      assert Covers(blocks', a, x);
    }
  }

  /** The tiling depends on the blocks' places and sizes only. */
  lemma RetagTiled(rs: seq<Region>, blocks: Blocks, blocks': Blocks)
    requires Tiled(rs, blocks)
    requires forall a :: a in blocks' <==> a in blocks
    requires forall a :: a in blocks ==> blocks'[a].size == blocks[a].size
    ensures Tiled(rs, blocks')
  {
    forall b, c | b in blocks' && c in blocks' && b != c ensures Disjoint(blocks', b, c) {
      assert Disjoint(blocks, b, c);
    }
    forall i, x: Addr | 0 <= i < |rs| && Used(rs[i], x) ensures InSomeBlock(blocks', x) {
      assert InSomeBlock(blocks, x);
      var b :| Covers(blocks, b, x);
      assert Covers(blocks', b, x);
    }
  }

  /** Pushing a block that is not free on the list of its size: next := head; head := block. */
  lemma PushKeeps(rs: seq<Region>, heads: seq<Addr>, mem: Mem, blocks: Blocks, free: seq<seq<Addr>>, a: Addr, b: nat)
    requires HeapInv(rs, heads, mem, blocks, free)
    requires b < BUCKETS && a in blocks && !blocks[a].state.Listed? && blocks[a].size == BucketToSize(b)
    ensures Mapped(mem, a, WORD)
    ensures HeapInv(rs, heads[b := a], StoreWord(mem, a, heads[b]),
                    blocks[a := blocks[a].(state := Listed(b))], free[b := [a] + free[b]])
  {
    Pow2Positive(b);
    ClientWriteKeeps(rs, heads, mem, blocks, free, a, a, Encode(heads[b], WORD));
    var blocks' := blocks[a := blocks[a].(state := Listed(b))];
    RetagTiled(rs, blocks, blocks');
    forall x | x in blocks' ensures Sized(rs, x, blocks'[x]) {
      assert Sized(rs, x, blocks[x]);
    }
    HeadBelowLimit(rs, heads, mem, blocks, free, b);
    LoadAfterStore(mem, a, heads[b]);
    BlockInRegion(rs, heads, mem, blocks, free, a);
    PushLists(heads, StoreWord(mem, a, heads[b]), blocks, free, a, b);
  }

  /** The list half of a push, once the link word is in place. */
  lemma PushLists(heads: seq<Addr>, mem: Mem, blocks: Blocks, free: seq<seq<Addr>>, a: Addr, b: nat)
    requires FreeLists(heads, mem, blocks, free) && b < BUCKETS
    requires a in blocks && !blocks[a].state.Listed? && a != 0 && Mapped(mem, a, WORD) && LoadWord(mem, a) == heads[b]
    ensures FreeLists(heads[b := a], mem, blocks[a := blocks[a].(state := Listed(b))], free[b := [a] + free[b]])
  {
    var blocks' := blocks[a := blocks[a].(state := Listed(b))];
    var free' := free[b := [a] + free[b]];
    assert free'[b][1..] == free[b];
    assert a !in free[b] by {
      assert a in free[b] <==> OnList(blocks, a, b);
    }
    assert Linked(mem, heads[b], free[b]) && NoDup(free[b]);
    forall c, x | 0 <= c < BUCKETS ensures x in free'[c] <==> OnList(blocks', x, c) {
      assert x in free[c] <==> OnList(blocks, x, c);
    }
  }

  lemma HeadBelowLimit(rs: seq<Region>, heads: seq<Addr>, mem: Mem, blocks: Blocks, free: seq<seq<Addr>>, b: nat)
    requires HeapInv(rs, heads, mem, blocks, free) && b < BUCKETS
    ensures heads[b] < WORD_LIMIT
    ensures heads[b] != 0 <==> free[b] != []
    ensures heads[b] != 0 ==> OnList(blocks, heads[b], b) && Mapped(mem, heads[b], WORD) && free[b][0] == heads[b]
  {
    assert Linked(mem, heads[b], free[b]);
    if free[b] != [] {
      assert heads[b] in free[b];
      assert OnList(blocks, heads[b], b);
      BlockInRegion(rs, heads, mem, blocks, free, heads[b]);
    }
  }

  /** Popping the head of a non-empty list hands that block out. */
  lemma PopKeeps(rs: seq<Region>, heads: seq<Addr>, mem: Mem, blocks: Blocks, free: seq<seq<Addr>>, b: nat, request: nat)
    requires HeapInv(rs, heads, mem, blocks, free)
    requires b < BUCKETS && heads[b] != 0 && 1 <= request < DEFAULT_MMAP_SIZE && BucketOf(request) == b
    ensures OnList(blocks, heads[b], b) && Mapped(mem, heads[b], WORD) && free[b] != []
    ensures HeapInv(rs, heads[b := LoadWord(mem, heads[b])], mem,
                    blocks[heads[b] := blocks[heads[b]].(state := Live(request))], free[b := free[b][1..]])
  {
    HeadBelowLimit(rs, heads, mem, blocks, free, b);
    var a := heads[b];
    var blocks' := blocks[a := blocks[a].(state := Live(request))];
    var free' := free[b := free[b][1..]];
    assert Linked(mem, heads[b], free[b]) && NoDup(free[b]);
    RetagTiled(rs, blocks, blocks');
    forall x | x in blocks' ensures Sized(rs, x, blocks'[x]) {
      assert Sized(rs, x, blocks[x]);
    }
    forall c, x | 0 <= c < BUCKETS ensures x in free'[c] <==> OnList(blocks', x, c) {
      assert x in free[c] <==> OnList(blocks, x, c);
      if c == b && x in free[b] {
        var k :| 0 <= k < |free[b]| && free[b][k] == x;
        if k > 0 {
          assert free'[b][k - 1] == x;
        }
      }
    }
  }

  /** The free blocks' words are the same in mem and mem', so the lists are. */
  lemma FreeListsFrame(rs: seq<Region>, heads: seq<Addr>, mem: Mem, mem': Mem, blocks: Blocks, free: seq<seq<Addr>>)
    requires AllSized(rs, blocks) && FreeLists(heads, mem, blocks, free) && SameFree(mem, mem', blocks)
    ensures FreeLists(heads, mem', blocks, free)
  {
    forall b | 0 <= b < BUCKETS ensures Linked(mem', heads[b], free[b]) {
      forall a | a in free[b] ensures SameBytes(mem, mem', a, WORD) {
        assert OnList(blocks, a, b);
        FreeBlockHoldsWord(rs, blocks, a, b);
      }
      LinkedFrame(mem, mem', heads[b], free[b]);
    }
  }

  /** A block that fills its region can be handed out as a large block. */
  lemma ClaimKeeps(rs: seq<Region>, heads: seq<Addr>, mem: Mem, blocks: Blocks, free: seq<seq<Addr>>, a: Addr, request: nat)
    requires HeapInv(rs, heads, mem, blocks, free)
    requires a in blocks && blocks[a] == Block(request, Lost) && request >= DEFAULT_MMAP_SIZE && OwnRegion(rs, a, request)
    ensures HeapInv(rs, heads, mem, blocks[a := Block(request, Live(request))], free)
  {
    var blocks' := blocks[a := Block(request, Live(request))];
    RetagTiled(rs, blocks, blocks');
    forall x | x in blocks' ensures Sized(rs, x, blocks'[x]) {
      assert Sized(rs, x, blocks[x]);
    }
    forall b, x | 0 <= b < BUCKETS ensures x in free[b] <==> OnList(blocks', x, b) {
      assert x in free[b] <==> OnList(blocks, x, b);
    }
  }

  /** A freshly mapped chunk joins the heap with nothing handed out. */
  lemma MapKeeps(rs: seq<Region>, heads: seq<Addr>, mem: Mem, blocks: Blocks, free: seq<seq<Addr>>, base: Addr, size: nat)
    requires HeapInv(rs, heads, mem, blocks, free)
    requires 0 < base && 0 < size && base + size <= WORD_LIMIT && Unmapped(mem, base, size)
    ensures HeapInv([Region(base, size, 0)] + rs, heads, Map(mem, base, size), blocks, free)
  {
    var rs' := [Region(base, size, 0)] + rs;
    var mem' := Map(mem, base, size);
    MapGeometry(rs, mem, base, size);
    forall a | a in blocks ensures Placed(rs', a, blocks[a].size) && Sized(rs', a, blocks[a]) {
      var j :| 0 <= j < |rs| && Inside(rs[j], a, blocks[a].size);
      assert rs'[j + 1] == rs[j];
      assert Sized(rs, a, blocks[a]);
    }
    forall k, x: Addr | 0 <= k < |rs'| && Used(rs'[k], x) ensures InSomeBlock(blocks, x) {
      assert Used(rs[k - 1], x);
    }
    forall a | a in blocks && blocks[a].state.Listed? ensures SameBytes(mem, mem', a, blocks[a].size) {
      BlockInRegion(rs, heads, mem, blocks, free, a);
    }
    FreeListsFrame(rs, heads, mem, mem', blocks, free);
  }

  lemma MapGeometry(rs: seq<Region>, mem: Mem, base: Addr, size: nat)
    requires Geometry(rs, mem)
    requires 0 < base && 0 < size && base + size <= WORD_LIMIT && Unmapped(mem, base, size)
    ensures Geometry([Region(base, size, 0)] + rs, Map(mem, base, size))
  {
    var rs' := [Region(base, size, 0)] + rs;
    var mem' := Map(mem, base, size);
    forall k | 0 <= k < |rs'| ensures RegionOk(rs'[k], mem') {
      if k > 0 {
        assert RegionOk(rs[k - 1], mem);
      }
    }
    forall k, l | 0 <= k < l < |rs'| ensures Apart(rs'[k], rs'[l]) {
      var s := rs[l - 1];
      assert RegionOk(s, mem);
      if k > 0 {
        assert Apart(rs[k - 1], s);
      } else {
        assert base !in mem && s.base in mem;
        assert s.base < base < s.base + s.size ==> base in mem;
      }
    }
  }

  function Without<T>(s: seq<T>, i: nat): seq<T>
    requires i < |s|
  {
    s[..i] + s[i + 1..]
  }

  /** Where element k of Without(s, i) stood in s. */
  function Before(i: nat, k: nat): nat {
    if k < i then k else k + 1
  }

  lemma RegionsApart(rs: seq<Region>, mem: Mem, i: nat, j: nat)
    requires Geometry(rs, mem) && i < |rs| && j < |rs| && i != j
    ensures Apart(rs[i], rs[j])
  {
    if i < j {
      assert Apart(rs[i], rs[j]);
    } else {
      assert Apart(rs[j], rs[i]);
    }
  }

  /** Unmapping the region of a large live block removes that block and no other. */
  lemma UnmapKeeps(rs: seq<Region>, heads: seq<Addr>, mem: Mem, blocks: Blocks, free: seq<seq<Addr>>, i: nat)
    requires HeapInv(rs, heads, mem, blocks, free)
    requires i < |rs| && rs[i].base in blocks && rs[i].brk == rs[i].size == blocks[rs[i].base].size
    requires blocks[rs[i].base].state.Live?
    ensures HeapInv(Without(rs, i), heads, Unmap(mem, rs[i].base, rs[i].size), blocks - {rs[i].base}, free)
  {
    var a0, n := rs[i].base, rs[i].size;
    var rs' := Without(rs, i);
    var mem' := Unmap(mem, a0, n);
    var blocks' := blocks - {a0};
    UnmapGeometry(rs, mem, i);
    UnmapTiled(rs, mem, blocks, i);
    forall a | a in blocks' ensures Sized(rs', a, blocks'[a]) {
      assert Sized(rs, a, blocks[a]);
      assert OwnRegion(rs, a, blocks[a].size) ==> Region(a, blocks[a].size, blocks[a].size) in rs';
    }
    forall a | a in blocks' && blocks'[a].state.Listed? ensures SameBytes(mem, mem', a, blocks'[a].size) {
      assert Disjoint(blocks, a, a0);
    }
    forall b, a | 0 <= b < BUCKETS ensures a in free[b] <==> OnList(blocks', a, b) {
      assert a in free[b] <==> OnList(blocks, a, b);
    }
    FreeListsFrame(rs', heads, mem, mem', blocks', free);
  }

  lemma UnmapGeometry(rs: seq<Region>, mem: Mem, i: nat)
    requires Geometry(rs, mem) && i < |rs|
    ensures Geometry(Without(rs, i), Unmap(mem, rs[i].base, rs[i].size))
  {
    var rs' := Without(rs, i);
    var mem' := Unmap(mem, rs[i].base, rs[i].size);
    forall k | 0 <= k < |rs'| ensures RegionOk(rs'[k], mem') {
      assert RegionOk(rs[Before(i, k)], mem);
      RegionsApart(rs, mem, i, Before(i, k));
    }
    forall k, l | 0 <= k < l < |rs'| ensures Apart(rs'[k], rs'[l]) {
      RegionsApart(rs, mem, Before(i, k), Before(i, l));
    }
  }

  lemma UnmapTiled(rs: seq<Region>, mem: Mem, blocks: Blocks, i: nat)
    requires Geometry(rs, mem) && Tiled(rs, blocks)
    requires i < |rs| && rs[i].base in blocks && rs[i].brk == rs[i].size == blocks[rs[i].base].size
    ensures Tiled(Without(rs, i), blocks - {rs[i].base})
  {
    var rs' := Without(rs, i);
    var a0 := rs[i].base;
    var blocks' := blocks - {a0};
    forall a | a in blocks' ensures Placed(rs', a, blocks'[a].size) {
      assert Disjoint(blocks, a, a0);
      UnmapPlaced(rs, i, a, blocks[a].size);
    }
    forall a, b | a in blocks' && b in blocks' && a != b ensures Disjoint(blocks', a, b) {
      assert Disjoint(blocks, a, b);
    }
    forall k, x: Addr | 0 <= k < |rs'| && Used(rs'[k], x) ensures InSomeBlock(blocks', x) {
      UnmapCovers(rs, mem, blocks, i, Before(i, k), x);
    }
  }

  lemma UnmapPlaced(rs: seq<Region>, i: nat, a: Addr, n: nat)
    requires i < |rs| && rs[i].brk == rs[i].size && 0 < n
    requires Placed(rs, a, n) && (a + n <= rs[i].base || rs[i].base + rs[i].size <= a)
    ensures Placed(Without(rs, i), a, n)
  {
    var j :| 0 <= j < |rs| && Inside(rs[j], a, n);
    assert Inside(Without(rs, i)[if j < i then j else j - 1], a, n);
  }

  lemma UnmapCovers(rs: seq<Region>, mem: Mem, blocks: Blocks, i: nat, j: nat, x: Addr)
    requires Geometry(rs, mem) && Tiled(rs, blocks)
    requires i < |rs| && rs[i].base in blocks && rs[i].brk == rs[i].size == blocks[rs[i].base].size
    requires j < |rs| && j != i && Used(rs[j], x)
    ensures InSomeBlock(blocks - {rs[i].base}, x)
  {
    assert InSomeBlock(blocks, x);
    var a :| Covers(blocks, a, x);
    RegionsApart(rs, mem, i, j);
    assert RegionOk(rs[j], mem);
    assert Covers(blocks - {rs[i].base}, a, x);
  }
}
