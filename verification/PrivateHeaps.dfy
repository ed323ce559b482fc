/** How cloned allocators share one live buffer per chunk, stated on values.

    Every allocator lists the chunks it uses. Allocators that descend from one another share a
    chunk's struct Mmap and hence its one live buffer; each then also has a saved copy, and
    `current` says whose bytes the live buffer holds. What an allocator would see if it ran is its
    private heap; the steps below say what each operation does to everybody's private heap. */
module PrivateHeaps {
  import opened FiniteSets
  import opened Memory
  import opened KingsleyHeap

  /** What struct Mmap::current and MmapChunk::copy can point at: nothing, the live buffer itself, or
      a saved copy on the host heap. */
  datatype Ptr = Null | LiveBuffer | Copy(handle: nat)

  datatype Mmap = Mmap(refcount: nat, size: nat, buffer: Addr, current: Ptr)
  datatype MmapChunk = MmapChunk(mmap: nat, copy: Ptr, brk: nat)

  /** The memory all allocators work on: the mapped bytes, the Mmap structs and the saved copies. */
  datatype Store = Store(bytes: Mem, mmaps: map<nat, Mmap>, copies: map<nat, seq<Byte>>)

  /** One chunk as its allocator sees it. */
  datatype Piece = Piece(base: Addr, size: nat, brk: nat, contents: seq<Byte>)

  // ---------------------------------------------------------------- views

  ghost predicate ChunkOk(st: Store, c: MmapChunk) {
    && c.mmap in st.mmaps
    && var m := st.mmaps[c.mmap];
    && 0 < m.size && 0 < m.buffer && m.buffer + m.size <= WORD_LIMIT
    && Mapped(st.bytes, m.buffer, m.size)
    && (c.copy == Null || (c.copy.Copy? && c.copy.handle in st.copies && |st.copies[c.copy.handle]| == m.size))
  }

  /** The live buffer holds c's bytes. */
  predicate Owns(st: Store, c: MmapChunk)
    requires c.mmap in st.mmaps
  {
    c.copy == Null || st.mmaps[c.mmap].current == c.copy
  }

  function View(st: Store, c: MmapChunk): seq<Byte>
    requires ChunkOk(st, c)
  {
    var m := st.mmaps[c.mmap];
    if Owns(st, c) then Slice(st.bytes, m.buffer, m.size) else st.copies[c.copy.handle]
  }

  function PieceOf(st: Store, c: MmapChunk): Piece
    requires ChunkOk(st, c)
  {
    Piece(st.mmaps[c.mmap].buffer, st.mmaps[c.mmap].size, c.brk, View(st, c))
  }

  ghost predicate ChunksOk(st: Store, cs: seq<MmapChunk>) {
    forall c :: c in cs ==> ChunkOk(st, c)
  }

  /** The allocator's private heap: what its chunks contain from its point of view. */
  ghost function Private(st: Store, cs: seq<MmapChunk>): (ps: seq<Piece>)
    requires ChunksOk(st, cs)
    ensures |ps| == |cs| && forall i :: 0 <= i < |cs| ==> ps[i] == PieceOf(st, cs[i])
  {
    seq(|cs|, i requires 0 <= i < |cs| => PieceOf(st, cs[i]))
  }

  ghost function RegionsOf(ps: seq<Piece>): (rs: seq<Region>)
    ensures |rs| == |ps| && forall i :: 0 <= i < |ps| ==> rs[i] == Region(ps[i].base, ps[i].size, ps[i].brk)
  {
    seq(|ps|, i requires 0 <= i < |ps| => Region(ps[i].base, ps[i].size, ps[i].brk))
  }

  ghost predicate PiecesOk(ps: seq<Piece>) {
    && (forall i :: 0 <= i < |ps| ==> |ps[i].contents| == ps[i].size)
    && (forall i, j :: 0 <= i < j < |ps| ==> Apart(RegionsOf(ps)[i], RegionsOf(ps)[j]))
  }

  /** The private heap as a memory of its own. */
  ghost function MemOf(ps: seq<Piece>): Mem
    requires forall i :: 0 <= i < |ps| ==> |ps[i].contents| == ps[i].size
  {
    if ps == [] then map[]
    else MemOf(ps[1..]) + map x | x in Range(ps[0].base, ps[0].size) :: ps[0].contents[x - ps[0].base]
  }

  lemma {:induction false} MemOfAt(ps: seq<Piece>, i: nat, x: Addr)
    requires PiecesOk(ps) && i < |ps| && ps[i].base <= x < ps[i].base + ps[i].size
    ensures x in MemOf(ps) && MemOf(ps)[x] == ps[i].contents[x - ps[i].base]
  {
    if i > 0 {
      assert Apart(RegionsOf(ps)[0], RegionsOf(ps)[i]);
      PiecesTail(ps);
      MemOfAt(ps[1..], i - 1, x);
    }
  }

  lemma PiecesTail(ps: seq<Piece>)
    requires PiecesOk(ps) && ps != []
    ensures PiecesOk(ps[1..])
  {
    forall i, j | 0 <= i < j < |ps[1..]| ensures Apart(RegionsOf(ps[1..])[i], RegionsOf(ps[1..])[j]) {
      assert Apart(RegionsOf(ps)[i + 1], RegionsOf(ps)[j + 1]);
    }
  }

  /** The Kingsley invariant, judged by the allocator's private heap alone. */
  ghost predicate PrivateInv(ps: seq<Piece>, heads: seq<Addr>, blocks: Blocks, free: seq<seq<Addr>>) {
    && PiecesOk(ps)
    && HeapInv(RegionsOf(ps), heads, MemOf(ps), blocks, free)
  }

  // ---------------------------------------------------------------- the sharing invariant

  ghost predicate Uses(cs: seq<MmapChunk>, id: nat) {
    exists c :: c in cs && c.mmap == id
  }

  ghost function Sharers<K>(lists: map<K, seq<MmapChunk>>, id: nat): set<K> {
    set k | k in lists && Uses(lists[k], id)
  }

  ghost predicate Holds<K>(lists: map<K, seq<MmapChunk>>, k: K, c: MmapChunk) {
    k in lists && c in lists[k]
  }

  /** p is the copy some allocator has of struct id. */
  ghost predicate SomeCopy<K>(lists: map<K, seq<MmapChunk>>, id: nat, p: Ptr) {
    exists k, d :: k in lists && Holds(lists, k, d) && d.mmap == id && d.copy == p
  }

  ghost predicate DistinctMmaps(cs: seq<MmapChunk>) {
    forall i, j :: 0 <= i < j < |cs| ==> cs[i].mmap != cs[j].mmap
  }

  /** A chunk: its struct exists, refcount counts the sharers exactly, a chunk without a copy has one
      sharer, and current never dangles. */
  ghost predicate Counted<K>(st: Store, lists: map<K, seq<MmapChunk>>, c: MmapChunk) {
    && ChunkOk(st, c)
    && st.mmaps[c.mmap].refcount == |Sharers(lists, c.mmap)|
    && (c.copy == Null ==> st.mmaps[c.mmap].refcount == 1)
    && (st.mmaps[c.mmap].current.Copy? ==> SomeCopy(lists, c.mmap, st.mmaps[c.mmap].current))
  }

  ghost predicate MmapsApart(m: Mmap, n: Mmap) {
    m.buffer + m.size <= n.buffer || n.buffer + n.size <= m.buffer
  }

  /** Two chunks anywhere: different structs have disjoint buffers, and no saved copy serves two chunks. */
  ghost predicate PairOk<K>(st: Store, k: K, c: MmapChunk, l: K, d: MmapChunk) {
    && (c.mmap != d.mmap ==> c.mmap in st.mmaps && d.mmap in st.mmaps && MmapsApart(st.mmaps[c.mmap], st.mmaps[d.mmap]))
    && (c.copy.Copy? && c.copy == d.copy ==> k == l && c == d)
  }

  ghost predicate SharingInv<K>(st: Store, lists: map<K, seq<MmapChunk>>) {
    && (forall k, c {:trigger Holds(lists, k, c)} :: k in lists && Holds(lists, k, c) ==> Counted(st, lists, c))
    && (forall k :: k in lists ==> DistinctMmaps(lists[k]))
    && (forall k, c, l, d {:trigger PairOk(st, k, c, l, d)} :: k in lists && l in lists && Holds(lists, k, c) && Holds(lists, l, d) ==> PairOk(st, k, c, l, d))
  }

  ghost predicate Running(st: Store, cs: seq<MmapChunk>) {
    forall c :: c in cs ==> c.mmap in st.mmaps && Owns(st, c)
  }

  lemma ListOk<K>(st: Store, lists: map<K, seq<MmapChunk>>, k: K)
    requires SharingInv(st, lists) && k in lists
    ensures ChunksOk(st, lists[k])
    ensures PiecesOk(Private(st, lists[k]))
  {
    var cs := lists[k];
    forall c | c in cs ensures ChunkOk(st, c) {
      assert Holds(lists, k, c);
    }
    var ps := Private(st, cs);
    forall i, j | 0 <= i < j < |ps| ensures Apart(RegionsOf(ps)[i], RegionsOf(ps)[j]) {
      assert Holds(lists, k, cs[i]) && Holds(lists, k, cs[j]);
      assert DistinctMmaps(cs);
      assert PairOk(st, k, cs[i], k, cs[j]);
    }
    forall i | 0 <= i < |ps| ensures |ps[i].contents| == ps[i].size {
      assert Holds(lists, k, cs[i]);
    }
  }

  /** Two allocators that share a chunk both have a copy of it. */
  lemma SharedHaveCopies<K>(st: Store, lists: map<K, seq<MmapChunk>>, k: K, c: MmapChunk, l: K, d: MmapChunk)
    requires SharingInv(st, lists) && Holds(lists, k, c) && Holds(lists, l, d)
    requires k != l && c.mmap == d.mmap
    ensures c.copy.Copy? && d.copy.Copy? && c.copy != d.copy
  {
    assert Counted(st, lists, c) && Counted(st, lists, d);
    assert PairOk(st, k, c, l, d);
    TwoSharers(lists, k, c, l, d);
  }

  lemma TwoSharers<K>(lists: map<K, seq<MmapChunk>>, k: K, c: MmapChunk, l: K, d: MmapChunk)
    requires Holds(lists, k, c) && Holds(lists, l, d) && k != l && c.mmap == d.mmap
    ensures |Sharers(lists, c.mmap)| >= 2
  {
    assert Uses(lists[k], c.mmap) && Uses(lists[l], c.mmap);
    SubsetSize({k, l}, Sharers(lists, c.mmap));
  }

  /** Chunks of one allocator with the same struct are the same chunk. */
  lemma SameMmapSameChunk<K>(st: Store, lists: map<K, seq<MmapChunk>>, k: K, c: MmapChunk, d: MmapChunk)
    requires SharingInv(st, lists) && Holds(lists, k, c) && Holds(lists, k, d) && c.mmap == d.mmap
    ensures c == d
  {
    var cs := lists[k];
    assert DistinctMmaps(cs);
    var i :| 0 <= i < |cs| && cs[i] == c;
    var j :| 0 <= j < |cs| && cs[j] == d;
  }

  /** Another chunk of the same struct is another allocator's, and both have a copy. */
  lemma OtherSharer<K>(st: Store, lists: map<K, seq<MmapChunk>>, k: K, c: MmapChunk, l: K, d: MmapChunk)
    requires SharingInv(st, lists) && Holds(lists, k, c) && Holds(lists, l, d)
    requires c.mmap == d.mmap && (k != l || c != d)
    ensures k != l && c.copy.Copy? && d.copy.Copy? && c.copy != d.copy
  {
    if k == l {
      SameMmapSameChunk(st, lists, k, c, d);
    } else {
      SharedHaveCopies(st, lists, k, c, l, d);
    }
  }

  /** current, when it is a copy, is a saved copy of the right length, and only of this struct. */
  lemma CurrentIsCopy<K>(st: Store, lists: map<K, seq<MmapChunk>>, k: K, c: MmapChunk)
    requires SharingInv(st, lists) && Holds(lists, k, c) && ChunkOk(st, c)
    requires st.mmaps[c.mmap].current.Copy?
    ensures var m := st.mmaps[c.mmap]; m.current.handle in st.copies && |st.copies[m.current.handle]| == m.size
    ensures forall l, d {:trigger Holds(lists, l, d)} :: Holds(lists, l, d) && d.copy == st.mmaps[c.mmap].current ==> d.mmap == c.mmap
  {
    assert Counted(st, lists, c);
    var m := st.mmaps[c.mmap];
    var k', c' :| k' in lists && Holds(lists, k', c') && c'.mmap == c.mmap && c'.copy == m.current;
    assert Counted(st, lists, c');
    forall l, d | Holds(lists, l, d) && d.copy == m.current ensures d.mmap == c.mmap {
      assert PairOk(st, k', c', l, d);
    }
  }

  // ---------------------------------------------------------------- writes by the running allocator

  ghost predicate InChunk(st: Store, c: MmapChunk, x: Addr) {
    c.mmap in st.mmaps && st.mmaps[c.mmap].buffer <= x < st.mmaps[c.mmap].buffer + st.mmaps[c.mmap].size
  }

  ghost predicate InChunks(st: Store, cs: seq<MmapChunk>, x: Addr) {
    exists c :: c in cs && InChunk(st, c, x)
  }

  /** Only bytes of the chunks cs differ between st and mem'. */
  ghost predicate WritesOnly(st: Store, cs: seq<MmapChunk>, mem': Mem) {
    && mem'.Keys == st.bytes.Keys
    && forall x {:trigger mem'[x]} :: x in mem' && mem'[x] != st.bytes[x] ==> InChunks(st, cs, x)
  }

  /** Whatever the running allocator writes into its chunks, nobody else's private heap changes. */
  lemma WritesArePrivate<K>(st: Store, lists: map<K, seq<MmapChunk>>, k: K, mem': Mem, l: K)
    requires SharingInv(st, lists) && k in lists && l in lists && k != l
    requires Running(st, lists[k]) && WritesOnly(st, lists[k], mem')
    ensures ChunksOk(st, lists[l]) && ChunksOk(st.(bytes := mem'), lists[l])
    ensures Private(st.(bytes := mem'), lists[l]) == Private(st, lists[l])
  {
    var st' := st.(bytes := mem');
    ListOk(st, lists, l);
    forall d | d in lists[l] ensures ChunkOk(st', d) && View(st', d) == View(st, d) {
      assert ChunkOk(st, d) && Holds(lists, l, d);
      var m := st.mmaps[d.mmap];
      assert Mapped(mem', m.buffer, m.size) by {
        assert forall x :: x in mem'.Keys <==> x in st.bytes.Keys;
      }
      if Owns(st, d) {
        forall x: Addr | m.buffer <= x < m.buffer + m.size ensures mem'[x] == st.bytes[x] {
          OwnedByOne(st, lists, k, l, d, x);
        }
        assert Slice(mem', m.buffer, m.size) == Slice(st.bytes, m.buffer, m.size);
      }
    }
  }

  /** A live byte one allocator sees is in no chunk of another that is running. */
  lemma OwnedByOne<K>(st: Store, lists: map<K, seq<MmapChunk>>, k: K, l: K, d: MmapChunk, x: Addr)
    requires SharingInv(st, lists) && k in lists && k != l && Holds(lists, l, d)
    requires Running(st, lists[k]) && InChunk(st, d, x) && Owns(st, d)
    ensures !InChunks(st, lists[k], x)
  {
    forall c | c in lists[k] ensures !InChunk(st, c, x) {
      assert Holds(lists, k, c);
      assert PairOk(st, k, c, l, d);
      if c.mmap == d.mmap {
        SharedHaveCopies(st, lists, k, c, l, d);
      }
    }
  }

  lemma WritesKeepSharing<K>(st: Store, lists: map<K, seq<MmapChunk>>, mem': Mem)
    requires SharingInv(st, lists) && mem'.Keys == st.bytes.Keys
    ensures SharingInv(st.(bytes := mem'), lists)
  {
    var st' := st.(bytes := mem');
    forall k, c | Holds(lists, k, c) ensures Counted(st', lists, c) {
      assert Counted(st, lists, c);
      assert forall x :: x in mem'.Keys <==> x in st.bytes.Keys;
    }
    forall k, c, l, d | Holds(lists, k, c) && Holds(lists, l, d) ensures PairOk(st', k, c, l, d) {
      assert PairOk(st, k, c, l, d);
    }
  }

  // ---------------------------------------------------------------- SwitchTo

  /** Saving the previous user's bytes. */
  function SaveCurrent(st: Store, m: Mmap): (st': Store)
    requires Mapped(st.bytes, m.buffer, m.size)
    ensures st'.bytes == st.bytes && st'.mmaps == st.mmaps
  {
    if m.current.Copy? then st.(copies := st.copies[m.current.handle := Slice(st.bytes, m.buffer, m.size)]) else st
  }

  /** Bringing c's own copy back and remembering that c owns the live buffer. */
  function RestoreOwn(st: Store, c: MmapChunk): Store
    requires ChunkOk(st, c)
  {
    var m := st.mmaps[c.mmap];
    var bytes := if c.copy.Copy? then Write(st.bytes, m.buffer, st.copies[c.copy.handle]) else st.bytes;
    st.(bytes := bytes, mmaps := st.mmaps[c.mmap := m.(current := c.copy)])
  }

  function SwitchChunk(st: Store, c: MmapChunk): Store
    requires ChunkOk(st, c)
  {
    RestoreOwn(SaveCurrent(st, st.mmaps[c.mmap]), c)
  }

  /** Switching one chunk leaves every private heap as it was, and c in possession of the live buffer. */
  lemma SwitchChunkKeeps<K>(st: Store, lists: map<K, seq<MmapChunk>>, k: K, c: MmapChunk)
    requires SharingInv(st, lists) && Holds(lists, k, c) && ChunkOk(st, c)
    ensures SharingInv(SwitchChunk(st, c), lists)
    ensures Owns(SwitchChunk(st, c), c)
    ensures forall d: MmapChunk :: d.mmap in st.mmaps && d.mmap != c.mmap ==> Owns(SwitchChunk(st, c), d) == Owns(st, d)
    ensures SwitchChunk(st, c).mmaps.Keys == st.mmaps.Keys
    ensures forall l :: l in lists ==> SamePrivate(st, lists[l], SwitchChunk(st, c), lists[l])
  {
    var st' := SwitchChunk(st, c);
    assert Counted(st, lists, c);
    forall l, d | Holds(lists, l, d) ensures Counted(st', lists, d) && View(st', d) == View(st, d) {
      assert Counted(st, lists, d);
      SwitchChunkView(st, lists, k, c, l, d);
      if d.mmap == c.mmap && c.copy.Copy? {
        assert SomeCopy(lists, c.mmap, c.copy);
      }
    }
    forall l | l in lists ensures SamePrivate(st, lists[l], st', lists[l]) {
      forall d | d in lists[l] ensures ChunkOk(st, d) && ChunkOk(st', d) && PieceOf(st', d) == PieceOf(st, d) {
        assert Holds(lists, l, d);
      }
    }
    forall l, d, l', d' | Holds(lists, l, d) && Holds(lists, l', d') ensures PairOk(st', l, d, l', d') {
      assert PairOk(st, l, d, l', d');
    }
  }

  /** The private heap of chunks cs in st is that of chunks cs' in st'. */
  ghost predicate SamePrivate(st: Store, cs: seq<MmapChunk>, st': Store, cs': seq<MmapChunk>) {
    && ChunksOk(st, cs) && ChunksOk(st', cs')
    && Private(st', cs') == Private(st, cs)
  }

  lemma SwitchChunkView<K>(st: Store, lists: map<K, seq<MmapChunk>>, k: K, c: MmapChunk, l: K, d: MmapChunk)
    requires SharingInv(st, lists) && Holds(lists, k, c) && Holds(lists, l, d)
    requires ChunkOk(st, c) && ChunkOk(st, d)
    ensures ChunkOk(SwitchChunk(st, c), d) && View(SwitchChunk(st, c), d) == View(st, d)
  {
    var st' := SwitchChunk(st, c);
    var m, n := st.mmaps[c.mmap], st.mmaps[d.mmap];
    if m.current.Copy? {
      CurrentIsCopy(st, lists, k, c);
    }
    assert PairOk(st, k, c, l, d);
    if d.mmap == c.mmap && (k != l || c != d) {
      OtherSharer(st, lists, k, c, l, d);
    }
    if d.mmap != c.mmap && Owns(st, d) {
      assert Slice(st'.bytes, n.buffer, n.size) == Slice(st.bytes, n.buffer, n.size);
    }
  }

  // ---------------------------------------------------------------- one chunk's brk or copy changes

  /** Lists that differ only in brk values use the same structs and copies. */
  ghost predicate SameUse<K>(lists: map<K, seq<MmapChunk>>, lists': map<K, seq<MmapChunk>>) {
    && lists'.Keys == lists.Keys
    && forall k :: k in lists ==> |lists'[k]| == |lists[k]| && forall i :: 0 <= i < |lists[k]| ==> lists'[k][i] == lists[k][i].(brk := lists'[k][i].brk)
  }

  lemma SameUseKeeps<K>(st: Store, lists: map<K, seq<MmapChunk>>, lists': map<K, seq<MmapChunk>>)
    requires SharingInv(st, lists) && SameUse(lists, lists')
    ensures SharingInv(st, lists')
  {
    forall k, c | Holds(lists', k, c) ensures Counted(st, lists', c) {
      var i :| 0 <= i < |lists'[k]| && lists'[k][i] == c;
      var c0 := lists[k][i];
      assert Holds(lists, k, c0);
      SameUseSharers(lists, lists', c.mmap);
      if st.mmaps[c.mmap].current.Copy? {
        var l, d :| l in lists && Holds(lists, l, d) && d.mmap == c.mmap && d.copy == st.mmaps[c.mmap].current;
        var j :| 0 <= j < |lists[l]| && lists[l][j] == d;
        assert Holds(lists', l, lists'[l][j]);
      }
    }
    forall k | k in lists' ensures DistinctMmaps(lists'[k]) {
      assert DistinctMmaps(lists[k]);
    }
    forall k, c, l, d | Holds(lists', k, c) && Holds(lists', l, d) ensures PairOk(st, k, c, l, d) {
      var i :| 0 <= i < |lists'[k]| && lists'[k][i] == c;
      var j :| 0 <= j < |lists'[l]| && lists'[l][j] == d;
      assert Holds(lists, k, lists[k][i]) && Holds(lists, l, lists[l][j]);
      assert PairOk(st, k, lists[k][i], l, lists[l][j]);
      if k == l && c.mmap == d.mmap {
        assert DistinctMmaps(lists[k]);
        assert i == j;
      }
    }
  }

  lemma SameUseSharers<K>(lists: map<K, seq<MmapChunk>>, lists': map<K, seq<MmapChunk>>, id: nat)
    requires SameUse(lists, lists')
    ensures Sharers(lists', id) == Sharers(lists, id)
  {
    forall k | k in lists ensures Uses(lists'[k], id) <==> Uses(lists[k], id) {
      if Uses(lists[k], id) {
        var i :| 0 <= i < |lists[k]| && lists[k][i].mmap == id;
        assert lists'[k][i] in lists'[k];
      }
      if Uses(lists'[k], id) {
        var i :| 0 <= i < |lists'[k]| && lists'[k][i].mmap == id;
        assert lists[k][i] in lists[k];
      }
    }
  }

  // ---------------------------------------------------------------- MmapAlloc and munmap

  /** MmapAlloc: a new struct with its own buffer at address base, in front of allocator k's list. */
  function MapChunk(st: Store, id: nat, base: Addr, size: nat): Store {
    st.(bytes := Map(st.bytes, base, size), mmaps := st.mmaps[id := Mmap(1, size, base, LiveBuffer)])
  }

  lemma MapChunkKeeps<K>(st: Store, lists: map<K, seq<MmapChunk>>, k: K, id: nat, base: Addr, size: nat)
    requires SharingInv(st, lists) && k in lists && id !in st.mmaps
    requires 0 < base && 0 < size && base + size <= WORD_LIMIT && Unmapped(st.bytes, base, size)
    ensures SharingInv(MapChunk(st, id, base, size), lists[k := [MmapChunk(id, Null, 0)] + lists[k]])
    ensures forall l :: l in lists ==> SamePrivate(st, lists[l], MapChunk(st, id, base, size), lists[l])
    ensures ChunkOk(MapChunk(st, id, base, size), MmapChunk(id, Null, 0))
  {
    var st' := MapChunk(st, id, base, size);
    var n := MmapChunk(id, Null, 0);
    var lists' := lists[k := [n] + lists[k]];
    forall l | l in lists ensures SamePrivate(st, lists[l], st', lists[l]) {
      forall d | d in lists[l] ensures ChunkOk(st, d) && ChunkOk(st', d) && PieceOf(st', d) == PieceOf(st, d) {
        assert Holds(lists, l, d);
        MapViews(st, d, id, base, size);
      }
    }
    forall l, d | Holds(lists', l, d) ensures Counted(st', lists', d) {
      MapCounted(st, lists, k, id, base, size, l, d);
    }
    forall l | l in lists' ensures DistinctMmaps(lists'[l]) {
      assert DistinctMmaps(lists[l]);
      if l == k {
        forall j | 0 <= j < |lists[k]| ensures lists[k][j].mmap != id {
          assert Holds(lists, k, lists[k][j]);
        }
      }
    }
    forall l, d, l', d' | Holds(lists', l, d) && Holds(lists', l', d') ensures PairOk(st', l, d, l', d') {
      MapHolds(lists, k, n, l, d);
      MapHolds(lists, k, n, l', d');
      if Holds(lists, l, d) {
        MapViews(st, d, id, base, size);
      }
      if Holds(lists, l', d') {
        MapViews(st, d', id, base, size);
      }
      assert Holds(lists, l, d) && Holds(lists, l', d') ==> PairOk(st, l, d, l', d');
    }
  }

  lemma MapHolds<K>(lists: map<K, seq<MmapChunk>>, k: K, n: MmapChunk, l: K, d: MmapChunk)
    requires k in lists
    ensures Holds(lists[k := [n] + lists[k]], l, d) <==> Holds(lists, l, d) || (l == k && d == n)
  {
    assert forall c :: c in [n] + lists[k] <==> c == n || c in lists[k];
  }

  lemma MapCounted<K>(st: Store, lists: map<K, seq<MmapChunk>>, k: K, id: nat, base: Addr, size: nat, l: K, d: MmapChunk)
    requires SharingInv(st, lists) && k in lists && id !in st.mmaps
    requires 0 < base && 0 < size && base + size <= WORD_LIMIT && Unmapped(st.bytes, base, size)
    requires Holds(lists[k := [MmapChunk(id, Null, 0)] + lists[k]], l, d)
    ensures Counted(MapChunk(st, id, base, size), lists[k := [MmapChunk(id, Null, 0)] + lists[k]], d)
  {
    var n := MmapChunk(id, Null, 0);
    var lists' := lists[k := [n] + lists[k]];
    MapHolds(lists, k, n, l, d);
    MapSharers(lists, k, n, d.mmap);
    if Holds(lists, l, d) {
      assert Counted(st, lists, d);
      MapViews(st, d, id, base, size);
      if st.mmaps[d.mmap].current.Copy? {
        var l', d' :| l' in lists && Holds(lists, l', d') && d'.mmap == d.mmap && d'.copy == st.mmaps[d.mmap].current;
        MapHolds(lists, k, n, l', d');
        assert Holds(lists', l', d');
      }
    } else {
      forall l', d' | Holds(lists, l', d') ensures d'.mmap != id {
        assert Counted(st, lists, d');
      }
      forall l' | l' in lists ensures !Uses(lists[l'], id) {
        assert forall d' :: d' in lists[l'] ==> Holds(lists, l', d');
      }
      assert Sharers(lists', id) == {k};
    }
  }

  lemma MapViews(st: Store, d: MmapChunk, id: nat, base: Addr, size: nat)
    requires ChunkOk(st, d) && id !in st.mmaps
    requires 0 < base && 0 < size && Unmapped(st.bytes, base, size)
    ensures var st' := MapChunk(st, id, base, size);
            ChunkOk(st', d) && View(st', d) == View(st, d) && MmapsApart(st.mmaps[d.mmap], st'.mmaps[id])
  {
    var st' := MapChunk(st, id, base, size);
    var m := st.mmaps[d.mmap];
    assert m.buffer in st.bytes && base !in st.bytes;
    assert m.buffer < base < m.buffer + m.size ==> base in st.bytes;
    assert MmapsApart(m, st'.mmaps[id]);
    assert Slice(st'.bytes, m.buffer, m.size) == Slice(st.bytes, m.buffer, m.size);
  }

  lemma MapSharers<K>(lists: map<K, seq<MmapChunk>>, k: K, n: MmapChunk, id: nat)
    requires k in lists
    ensures Sharers(lists[k := [n] + lists[k]], id) == Sharers(lists, id) + (if n.mmap == id then {k} else {})
  {
    var lists' := lists[k := [n] + lists[k]];
    assert n in lists'[k];
    assert forall c :: c in lists'[k] <==> c == n || c in lists[k];
    assert Uses(lists'[k], id) <==> n.mmap == id || Uses(lists[k], id);
  }

  /** Dropping entry i of allocator k's list removes k, and only k, from the sharers of its struct. */
  lemma DropSharers<K>(st: Store, lists: map<K, seq<MmapChunk>>, k: K, i: nat, id: nat)
    requires SharingInv(st, lists) && k in lists && i < |lists[k]|
    ensures Sharers(lists[k := Without(lists[k], i)], id) == Sharers(lists, id) - (if id == lists[k][i].mmap then {k} else {})
  {
    var lists' := lists[k := Without(lists[k], i)];
    var c := lists[k][i];
    assert DistinctMmaps(lists[k]);
    if Uses(lists[k], id) && id != c.mmap {
      var j :| 0 <= j < |lists[k]| && lists[k][j].mmap == id;
      assert lists'[k][if j < i then j else j - 1] == lists[k][j];
    }
    assert Uses(lists'[k], id) <==> Uses(lists[k], id) && id != c.mmap;
    assert id == c.mmap ==> Uses(lists[k], id);
  }

  lemma WithoutHolds<K>(st: Store, lists: map<K, seq<MmapChunk>>, k: K, i: nat, l: K, d: MmapChunk)
    requires SharingInv(st, lists) && k in lists && i < |lists[k]|
    ensures Holds(lists[k := Without(lists[k], i)], l, d) <==> Holds(lists, l, d) && !(l == k && d == lists[k][i])
  {
    assert DistinctMmaps(lists[k]);
    if l == k && Holds(lists, k, d) && d != lists[k][i] {
      var j :| 0 <= j < |lists[k]| && lists[k][j] == d;
      assert Without(lists[k], i)[if j < i then j else j - 1] == d;
    }
  }

  /** What remains after one entry of k's list is gone: every other chunk, counted as before except for
      those of the same struct. */
  lemma DropKeeps<K>(st: Store, lists: map<K, seq<MmapChunk>>, k: K, i: nat, st': Store)
    requires SharingInv(st, lists) && k in lists && i < |lists[k]|
    requires forall l, d {:trigger Holds(lists, l, d)} :: Holds(lists, l, d) && !(l == k && d == lists[k][i]) ==>
               && ChunkOk(st, d) && ChunkOk(st', d) && PieceOf(st', d) == PieceOf(st, d)
               && (if d.mmap == lists[k][i].mmap
                   then st'.mmaps[d.mmap].refcount == st.mmaps[d.mmap].refcount - 1
                        && st'.mmaps[d.mmap].current == (if st.mmaps[d.mmap].current == lists[k][i].copy then Null else st.mmaps[d.mmap].current)
                   else st'.mmaps[d.mmap] == st.mmaps[d.mmap])
    ensures SharingInv(st', lists[k := Without(lists[k], i)])
    ensures forall l :: l in lists && l != k ==> SamePrivate(st, lists[l], st', lists[l])
  {
    var c := lists[k][i];
    var lists' := lists[k := Without(lists[k], i)];
    forall l, d | Holds(lists', l, d) ensures Counted(st', lists', d) {
      WithoutHolds(st, lists, k, i, l, d);
      assert Counted(st, lists, d);
      DropSharers(st, lists, k, i, d.mmap);
      if d.mmap == c.mmap {
        assert Holds(lists, k, c);
        OtherSharer(st, lists, k, c, l, d);
        assert Uses(lists[k], c.mmap);
      }
      if st'.mmaps[d.mmap].current.Copy? {
        var l', d' :| l' in lists && Holds(lists, l', d') && d'.mmap == d.mmap && d'.copy == st.mmaps[d.mmap].current;
        WithoutHolds(st, lists, k, i, l', d');
        assert Holds(lists', l', d');
      }
    }
    forall l | l in lists' ensures DistinctMmaps(lists'[l]) {
      assert DistinctMmaps(lists[l]);
      if l == k {
        assert forall j :: 0 <= j < |lists'[k]| ==> lists'[k][j] == lists[k][Before(i, j)];
      }
    }
    forall l, d, l', d' | Holds(lists', l, d) && Holds(lists', l', d') ensures PairOk(st', l, d, l', d') {
      WithoutHolds(st, lists, k, i, l, d);
      WithoutHolds(st, lists, k, i, l', d');
      assert PairOk(st, l, d, l', d');
    }
    forall l | l in lists && l != k ensures SamePrivate(st, lists[l], st', lists[l]) {
      forall d | d in lists[l] ensures ChunkOk(st, d) && ChunkOk(st', d) && PieceOf(st', d) == PieceOf(st, d) {
        assert Holds(lists, l, d);
      }
    }
  }

  /** ~KingsleyAlloc for one chunk: give up the copy, disown current, drop the reference, and unmap the
      buffer with the last one. */
  function ReleaseChunk(st: Store, c: MmapChunk): Store
    requires c.mmap in st.mmaps && st.mmaps[c.mmap].refcount >= 1
  {
    var m0 := st.mmaps[c.mmap];
    var copies := if c.copy.Copy? then st.copies - {c.copy.handle} else st.copies;
    var current := if c.copy.Copy? && c.copy == m0.current then Null else m0.current;
    var m := m0.(refcount := m0.refcount - 1, current := current);
    if m.refcount == 0 then Store(Unmap(st.bytes, m.buffer, m.size), st.mmaps - {c.mmap}, copies)
    else Store(st.bytes, st.mmaps[c.mmap := m], copies)
  }

  lemma ReleaseKeeps<K>(st: Store, lists: map<K, seq<MmapChunk>>, k: K, i: nat)
    requires SharingInv(st, lists) && k in lists && i < |lists[k]|
    ensures Counted(st, lists, lists[k][i]) && st.mmaps[lists[k][i].mmap].refcount >= 1
    ensures SharingInv(ReleaseChunk(st, lists[k][i]), lists[k := Without(lists[k], i)])
    ensures forall l :: l in lists && l != k ==> SamePrivate(st, lists[l], ReleaseChunk(st, lists[k][i]), lists[l])
  {
    var c := lists[k][i];
    assert Holds(lists, k, c);
    assert Counted(st, lists, c);
    assert k in Sharers(lists, c.mmap) by {
      assert Uses(lists[k], c.mmap);
    }
    var st' := ReleaseChunk(st, c);
    forall l, d | Holds(lists, l, d) && !(l == k && d == c)
      ensures ChunkOk(st, d) && ChunkOk(st', d) && PieceOf(st', d) == PieceOf(st, d)
              && (if d.mmap == c.mmap
                  then st'.mmaps[d.mmap].refcount == st.mmaps[d.mmap].refcount - 1
                       && st'.mmaps[d.mmap].current == (if st.mmaps[d.mmap].current == c.copy then Null else st.mmaps[d.mmap].current)
                  else st'.mmaps[d.mmap] == st.mmaps[d.mmap])
    {
      assert Counted(st, lists, d);
      assert PairOk(st, k, c, l, d);
      if d.mmap == c.mmap {
        OtherSharer(st, lists, k, c, l, d);
        TwoSharers(lists, k, c, l, d);
      }
      UnmapView(st, st', c, d);
    }
    DropKeeps(st, lists, k, i, st');
  }

  lemma UnmapView(st: Store, st': Store, c: MmapChunk, d: MmapChunk)
    requires ChunkOk(st, d) && c.mmap in st.mmaps && st.mmaps[c.mmap].refcount >= 1 && st' == ReleaseChunk(st, c)
    requires d.copy.Copy? ==> c.copy != d.copy
    requires if d.mmap == c.mmap then st.mmaps[c.mmap].refcount >= 2 && c.copy.Copy? && d.copy.Copy?
             else MmapsApart(st.mmaps[c.mmap], st.mmaps[d.mmap])
    ensures ChunkOk(st', d) && PieceOf(st', d) == PieceOf(st, d)
  {
    var n := st.mmaps[d.mmap];
    assert Mapped(st'.bytes, n.buffer, n.size);
    assert Slice(st'.bytes, n.buffer, n.size) == Slice(st.bytes, n.buffer, n.size);
  }

  /** The large branch of Free: munmap the buffer and forget the chunk. The struct stays behind. */
  lemma ForgetKeeps<K>(st: Store, lists: map<K, seq<MmapChunk>>, k: K, i: nat)
    requires SharingInv(st, lists) && k in lists && i < |lists[k]|
    requires lists[k][i].mmap in st.mmaps && st.mmaps[lists[k][i].mmap].refcount == 1
    ensures var m := st.mmaps[lists[k][i].mmap]; var st' := st.(bytes := Unmap(st.bytes, m.buffer, m.size));
            && SharingInv(st', lists[k := Without(lists[k], i)])
            && (forall l :: l in lists && l != k ==> SamePrivate(st, lists[l], st', lists[l]))
            && (forall d :: d in lists[k] && d != lists[k][i] ==> ChunkOk(st, d) && ChunkOk(st', d) && PieceOf(st', d) == PieceOf(st, d))
  {
    var c := lists[k][i];
    var m := st.mmaps[c.mmap];
    var st' := st.(bytes := Unmap(st.bytes, m.buffer, m.size));
    assert Holds(lists, k, c);
    forall l, d | Holds(lists, l, d) && !(l == k && d == c)
      ensures d.mmap != c.mmap && ChunkOk(st, d) && ChunkOk(st', d) && PieceOf(st', d) == PieceOf(st, d)
    {
      assert Counted(st, lists, c) && Counted(st, lists, d);
      if d.mmap == c.mmap {
        OtherSharer(st, lists, k, c, l, d);
        TwoSharers(lists, k, c, l, d);
      }
      assert PairOk(st, k, c, l, d);
      var n := st.mmaps[d.mmap];
      assert Slice(st'.bytes, n.buffer, n.size) == Slice(st.bytes, n.buffer, n.size);
    }
    DropKeeps(st, lists, k, i, st');
    forall d | d in lists[k] && d != c ensures ChunkOk(st, d) && ChunkOk(st', d) && PieceOf(st', d) == PieceOf(st, d) {
      assert Holds(lists, k, d);
    }
  }

  lemma AnotherSharer<K>(st: Store, lists: map<K, seq<MmapChunk>>, k: K, c: MmapChunk) returns (l: K, d: MmapChunk)
    requires SharingInv(st, lists) && Holds(lists, k, c) && c.mmap in st.mmaps && st.mmaps[c.mmap].refcount != 1
    ensures l != k && Holds(lists, l, d) && d.mmap == c.mmap
  {
    assert Counted(st, lists, c) && Uses(lists[k], c.mmap);
    var sharers := Sharers(lists, c.mmap);
    assert k in sharers && |{k}| == 1 && sharers != {k};
    l :| l in sharers && l != k;
    d :| d in lists[l] && d.mmap == c.mmap;
  }

  /** A second user of the chunk is left with a buffer that is no longer mapped: the sharing records
      survive exactly when there is none. */
  lemma ForgetExact<K>(st: Store, lists: map<K, seq<MmapChunk>>, k: K, i: nat)
    requires SharingInv(st, lists) && k in lists && i < |lists[k]| && lists[k][i].mmap in st.mmaps
    ensures var m := st.mmaps[lists[k][i].mmap]; var st' := st.(bytes := Unmap(st.bytes, m.buffer, m.size));
            SharingInv(st', lists[k := Without(lists[k], i)]) <==> m.refcount == 1
  {
    hide SharingInv;
    var c := lists[k][i];
    var m := st.mmaps[c.mmap];
    if m.refcount == 1 {
      ForgetKeeps(st, lists, k, i);
    } else {
      assert Holds(lists, k, c);
      var l, d := AnotherSharer(st, lists, k, c);
      SharerUnmapped(st, lists, k, c, l, d, lists[k := Without(lists[k], i)]);
    }
  }

  lemma SharerUnmapped<K>(st: Store, lists: map<K, seq<MmapChunk>>, k: K, c: MmapChunk, l: K, d: MmapChunk, lists': map<K, seq<MmapChunk>>)
    requires SharingInv(st, lists) && Holds(lists, k, c) && Holds(lists, l, d) && c.mmap == d.mmap && c.mmap in st.mmaps
    requires l in lists' && lists'[l] == lists[l]
    ensures var m := st.mmaps[c.mmap]; var st' := st.(bytes := Unmap(st.bytes, m.buffer, m.size));
            !ChunkOk(st', d) && !SharingInv(st', lists')
  {
    assert Counted(st, lists, d);
    var m := st.mmaps[c.mmap];
    var st' := st.(bytes := Unmap(st.bytes, m.buffer, m.size));
    assert m.buffer !in st'.bytes;
    assert Holds(lists', l, d) && !Counted(st', lists', d);
  }

  /** Dispose for one chunk of k: whoever else shares it keeps its view, because c owned the live buffer. */
  lemma DisownKeeps<K>(st: Store, lists: map<K, seq<MmapChunk>>, k: K, c: MmapChunk)
    requires SharingInv(st, lists) && Holds(lists, k, c) && c.mmap in st.mmaps && c.copy == st.mmaps[c.mmap].current
    ensures var st' := st.(mmaps := st.mmaps[c.mmap := st.mmaps[c.mmap].(current := Null)]);
            && SharingInv(st', lists)
            && forall l :: l in lists && l != k ==> SamePrivate(st, lists[l], st', lists[l])
  {
    var st' := st.(mmaps := st.mmaps[c.mmap := st.mmaps[c.mmap].(current := Null)]);
    forall l, d | Holds(lists, l, d) ensures Counted(st', lists, d) && (l != k ==> PieceOf(st', d) == PieceOf(st, d)) {
      assert Counted(st, lists, d);
      if l != k && d.mmap == c.mmap {
        OtherSharer(st, lists, k, c, l, d);
      }
    }
    forall l, d, l', d' | Holds(lists, l, d) && Holds(lists, l', d') ensures PairOk(st', l, d, l', d') {
      assert PairOk(st, l, d, l', d');
    }
    forall l | l in lists && l != k ensures SamePrivate(st, lists[l], st', lists[l]) {
      forall d | d in lists[l] ensures ChunkOk(st, d) && ChunkOk(st', d) && PieceOf(st', d) == PieceOf(st, d) {
        assert Holds(lists, l, d);
      }
    }
  }

  // ---------------------------------------------------------------- Clone

  /** A malloced copy before anything is written to it. */
  function Uninitialised(n: nat): seq<Byte> {
    seq(n, _ => 0)
  }

  /** Clone for one chunk. own and other are the handles the host's malloc returns. */
  function CloneChunk(st: Store, c: MmapChunk, own: nat, other: nat): (r: (Store, MmapChunk, MmapChunk))
    requires ChunkOk(st, c)
  {
    var m := st.mmaps[c.mmap];
    var m1 := m.(refcount := m.refcount + 1);
    var first := m1.refcount == 2 && c.copy == Null;
    var m2 := if first then m1.(current := Copy(own)) else m1;
    var c' := if first then c.(copy := Copy(own)) else c;
    var copies1 := if first then st.copies[own := Uninitialised(m.size)] else st.copies;
    var copies2 := copies1[other := Slice(st.bytes, m.buffer, m.size)];
    (Store(st.bytes, st.mmaps[c.mmap := m2], copies2), c', MmapChunk(c.mmap, Copy(other), c.brk))
  }

  ghost function CloneLists<K>(lists: map<K, seq<MmapChunk>>, k: K, i: nat, c': MmapChunk, n: K, d: MmapChunk): map<K, seq<MmapChunk>>
    requires k in lists && n in lists && i < |lists[k]|
  {
    lists[k := lists[k][i := c']][n := lists[n] + [d]]
  }

  lemma CloneSharers<K>(lists: map<K, seq<MmapChunk>>, k: K, i: nat, c': MmapChunk, n: K, d: MmapChunk, id: nat)
    requires k in lists && n in lists && k != n && i < |lists[k]|
    requires c'.mmap == lists[k][i].mmap == d.mmap
    ensures Sharers(CloneLists(lists, k, i, c', n, d), id) == Sharers(lists, id) + (if id == d.mmap then {n} else {})
  {
    var lists' := CloneLists(lists, k, i, c', n, d);
    assert lists'[n][|lists[n]|] == d;
    assert forall e :: e in lists'[n] <==> e in lists[n] || e == d;
    assert Uses(lists'[n], id) <==> Uses(lists[n], id) || id == d.mmap;
    assert lists'[k][i] == c';
    if Uses(lists[k], id) {
      var j :| 0 <= j < |lists[k]| && lists[k][j].mmap == id;
      assert lists'[k][j].mmap == id;
    }
    if Uses(lists'[k], id) {
      var j :| 0 <= j < |lists'[k]| && lists'[k][j].mmap == id;
      assert lists[k][j].mmap == id;
    }
  }

  /** A chunk in the lists after one clone step is an old one, the parent's, or the child's new one. */
  lemma CloneHolds<K>(lists: map<K, seq<MmapChunk>>, k: K, i: nat, c': MmapChunk, n: K, d: MmapChunk, l: K, e: MmapChunk)
    requires k in lists && n in lists && k != n && i < |lists[k]| && DistinctMmaps(lists[k]) && c'.mmap == lists[k][i].mmap
    ensures Holds(CloneLists(lists, k, i, c', n, d), l, e) <==>
              (Holds(lists, l, e) && !(l == k && e == lists[k][i])) || (l == k && e == c') || (l == n && e == d)
  {
    var lists' := CloneLists(lists, k, i, c', n, d);
    assert lists'[k][i] == c' && lists'[n][|lists[n]|] == d;
    if l == k && Holds(lists, k, e) && e != lists[k][i] {
      var j :| 0 <= j < |lists[k]| && lists[k][j] == e;
      assert lists'[k][j] == e;
    }
    if l == n && Holds(lists, n, e) {
      var j :| 0 <= j < |lists[n]| && lists[n][j] == e;
      assert lists'[n][j] == e;
    }
  }

  /** Cloning one chunk of the running allocator k into the child n: the child's view of it is the parent's,
      and nobody's private heap changes. */
  lemma CloneChunkKeeps<K>(st: Store, lists: map<K, seq<MmapChunk>>, k: K, i: nat, n: K, own: nat, other: nat)
    requires SharingInv(st, lists) && k in lists && n in lists && k != n && i < |lists[k]|
    requires ChunkOk(st, lists[k][i]) && Owns(st, lists[k][i]) && !Uses(lists[n], lists[k][i].mmap)
    requires own !in st.copies && other !in st.copies && own != other
    ensures var (st', c', d) := CloneChunk(st, lists[k][i], own, other);
            var lists' := CloneLists(lists, k, i, c', n, d);
            && SharingInv(st', lists')
            && (forall l :: l in lists && l != n ==> SamePrivate(st, lists[l], st', lists'[l]))
            && SamePrivate(st, lists[n], st', lists[n])
            && ChunkOk(st', d) && PieceOf(st', d) == PieceOf(st, lists[k][i])
            && Owns(st', c')
            && (forall e: MmapChunk :: e.mmap in st.mmaps && e.mmap != d.mmap ==> Owns(st', e) == Owns(st, e))
  {
    var c := lists[k][i];
    var (st', c', d) := CloneChunk(st, c, own, other);
    var lists' := CloneLists(lists, k, i, c', n, d);
    assert Holds(lists, k, c);
    assert Counted(st, lists, c);
    assert DistinctMmaps(lists[k]);
    forall l, e | Holds(lists', l, e) ensures Counted(st', lists', e) {
      CloneCounted(st, lists, k, i, n, own, other, l, e);
    }
    forall l | l in lists' ensures DistinctMmaps(lists'[l]) {
      assert DistinctMmaps(lists[l]);
      if l == n {
        forall j | 0 <= j < |lists[n]| ensures lists[n][j].mmap != d.mmap {
          assert lists[n][j] in lists[n];
        }
      }
    }
    forall l, e, l', e' | Holds(lists', l, e) && Holds(lists', l', e') ensures PairOk(st', l, e, l', e') {
      ClonePair(st, lists, k, i, n, own, other, l, e, l', e');
    }
    forall l, e | Holds(lists, l, e) && !(l == k && e == c) ensures ChunkOk(st, e) && ChunkOk(st', e) && PieceOf(st', e) == PieceOf(st, e) {
      CloneOldView(st, lists, k, i, own, other, l, e);
    }
    assert PieceOf(st', c') == PieceOf(st, c);
    forall l | l in lists && l != n ensures SamePrivate(st, lists[l], st', lists'[l]) {
      forall j | 0 <= j < |lists[l]|
        ensures ChunkOk(st, lists[l][j]) && ChunkOk(st', lists'[l][j]) && PieceOf(st', lists'[l][j]) == PieceOf(st, lists[l][j]) {
        assert Holds(lists, l, lists[l][j]);
        assert l == k && j != i ==> lists[l][j] != c;
      }
    }
    forall j | 0 <= j < |lists[n]| ensures ChunkOk(st, lists[n][j]) && ChunkOk(st', lists[n][j]) && PieceOf(st', lists[n][j]) == PieceOf(st, lists[n][j]) {
      assert Holds(lists, n, lists[n][j]);
    }
  }

  lemma CloneOldView<K>(st: Store, lists: map<K, seq<MmapChunk>>, k: K, i: nat, own: nat, other: nat, l: K, e: MmapChunk)
    requires SharingInv(st, lists) && k in lists && i < |lists[k]|
    requires ChunkOk(st, lists[k][i]) && Owns(st, lists[k][i])
    requires own !in st.copies && other !in st.copies && own != other
    requires Holds(lists, l, e) && !(l == k && e == lists[k][i])
    ensures var st' := CloneChunk(st, lists[k][i], own, other).0;
            ChunkOk(st, e) && ChunkOk(st', e) && PieceOf(st', e) == PieceOf(st, e)
  {
    assert Holds(lists, k, lists[k][i]);
    assert Counted(st, lists, e);
    if e.mmap == lists[k][i].mmap {
      OtherSharer(st, lists, k, lists[k][i], l, e);
    }
  }

  /** current still points at some sharer's copy after a clone step. */
  lemma CloneSomeCopy<K>(st: Store, lists: map<K, seq<MmapChunk>>, k: K, i: nat, n: K, own: nat, other: nat, id: nat)
    requires SharingInv(st, lists) && k in lists && n in lists && k != n && i < |lists[k]| && ChunkOk(st, lists[k][i])
    requires id in st.mmaps && (st.mmaps[id].current.Copy? ==> SomeCopy(lists, id, st.mmaps[id].current))
    ensures var (st', c', d) := CloneChunk(st, lists[k][i], own, other);
            st'.mmaps[id].current.Copy? ==> SomeCopy(CloneLists(lists, k, i, c', n, d), id, st'.mmaps[id].current)
  {
    var c := lists[k][i];
    var (st', c', d) := CloneChunk(st, c, own, other);
    var lists' := CloneLists(lists, k, i, c', n, d);
    assert DistinctMmaps(lists[k]);
    var cur := st'.mmaps[id].current;
    CloneHolds(lists, k, i, c', n, d, k, c');
    if cur.Copy? && !(id == c.mmap && cur == c'.copy) {
      var l, e :| l in lists && Holds(lists, l, e) && e.mmap == id && e.copy == cur;
      CloneHolds(lists, k, i, c', n, d, l, e);
      assert Holds(lists', l, e);
    }
  }

  lemma CloneCounted<K>(st: Store, lists: map<K, seq<MmapChunk>>, k: K, i: nat, n: K, own: nat, other: nat, l: K, e: MmapChunk)
    requires SharingInv(st, lists) && k in lists && n in lists && k != n && i < |lists[k]|
    requires ChunkOk(st, lists[k][i]) && Owns(st, lists[k][i]) && !Uses(lists[n], lists[k][i].mmap)
    requires own !in st.copies && other !in st.copies && own != other
    requires var (st', c', d) := CloneChunk(st, lists[k][i], own, other); Holds(CloneLists(lists, k, i, c', n, d), l, e)
    ensures var (st', c', d) := CloneChunk(st, lists[k][i], own, other); Counted(st', CloneLists(lists, k, i, c', n, d), e)
  {
    hide CloneLists;
    var c := lists[k][i];
    var (st', c', d) := CloneChunk(st, c, own, other);
    assert DistinctMmaps(lists[k]);
    CloneHolds(lists, k, i, c', n, d, l, e);
    CloneSharers(lists, k, i, c', n, d, e.mmap);
    assert n !in Sharers(lists, c.mmap);
    assert Holds(lists, k, c);
    assert Counted(st, lists, c);
    if Holds(lists, l, e) && !(l == k && e == c) {
      CloneOldView(st, lists, k, i, own, other, l, e);
      assert Counted(st, lists, e);
      if e.mmap == c.mmap {
        OtherSharer(st, lists, k, c, l, e);
      }
    }
    CloneSomeCopy(st, lists, k, i, n, own, other, e.mmap);
  }

  lemma ClonePair<K>(st: Store, lists: map<K, seq<MmapChunk>>, k: K, i: nat, n: K, own: nat, other: nat,
                           l: K, e: MmapChunk, l': K, e': MmapChunk)
    requires SharingInv(st, lists) && k in lists && n in lists && k != n && i < |lists[k]|
    requires ChunkOk(st, lists[k][i]) && own !in st.copies && other !in st.copies && own != other
    requires var (st', c', d) := CloneChunk(st, lists[k][i], own, other); var lists' := CloneLists(lists, k, i, c', n, d);
             Holds(lists', l, e) && Holds(lists', l', e')
    ensures PairOk(CloneChunk(st, lists[k][i], own, other).0, l, e, l', e')
  {
    var c := lists[k][i];
    var (st', c', d) := CloneChunk(st, c, own, other);
    assert Holds(lists, k, c);
    assert DistinctMmaps(lists[k]);
    CloneHolds(lists, k, i, c', n, d, l, e);
    CloneHolds(lists, k, i, c', n, d, l', e');
    var ol, oe := if Holds(lists, l, e) && !(l == k && e == c) then l else k, if Holds(lists, l, e) && !(l == k && e == c) then e else c;
    var ol', oe' := if Holds(lists, l', e') && !(l' == k && e' == c) then l' else k, if Holds(lists, l', e') && !(l' == k && e' == c) then e' else c;
    assert Counted(st, lists, oe) && Counted(st, lists, oe');
    assert PairOk(st, ol, oe, ol', oe');
  }

  // ---------------------------------------------------------------- the running allocator's heap

  /** For the running allocator the private heap is the mapped memory itself. */
  lemma RunningHeap(st: Store, cs: seq<MmapChunk>, heads: seq<Addr>, blocks: Blocks, free: seq<seq<Addr>>)
    requires ChunksOk(st, cs) && Running(st, cs) && PrivateInv(Private(st, cs), heads, blocks, free)
    ensures HeapInv(RegionsOf(Private(st, cs)), heads, st.bytes, blocks, free)
  {
    var ps := Private(st, cs);
    forall a | a in blocks && blocks[a].state.Listed? ensures SameBytes(MemOf(ps), st.bytes, a, blocks[a].size) {
      RunningBytes(st, cs, blocks, a);
    }
    forall i | 0 <= i < |ps| ensures RegionOk(RegionsOf(ps)[i], st.bytes) {
      assert RegionOk(RegionsOf(ps)[i], MemOf(ps));
      assert ChunkOk(st, cs[i]);
    }
    HeapInvFrame(RegionsOf(ps), heads, MemOf(ps), st.bytes, blocks, free);
  }

  lemma RunningPrivate(st: Store, cs: seq<MmapChunk>, heads: seq<Addr>, blocks: Blocks, free: seq<seq<Addr>>)
    requires ChunksOk(st, cs) && Running(st, cs) && PiecesOk(Private(st, cs))
    requires HeapInv(RegionsOf(Private(st, cs)), heads, st.bytes, blocks, free)
    ensures PrivateInv(Private(st, cs), heads, blocks, free)
  {
    var ps := Private(st, cs);
    forall a | a in blocks && blocks[a].state.Listed? ensures SameBytes(st.bytes, MemOf(ps), a, blocks[a].size) {
      RunningBytes(st, cs, blocks, a);
    }
    forall i | 0 <= i < |ps| ensures RegionOk(RegionsOf(ps)[i], MemOf(ps)) {
      assert RegionOk(RegionsOf(ps)[i], st.bytes);
      forall x: Addr | ps[i].base <= x < ps[i].base + ps[i].size ensures x in MemOf(ps) {
        MemOfAt(ps, i, x);
      }
    }
    HeapInvFrame(RegionsOf(ps), heads, st.bytes, MemOf(ps), blocks, free);
  }

  lemma RunningBytes(st: Store, cs: seq<MmapChunk>, blocks: Blocks, a: Addr)
    requires ChunksOk(st, cs) && Running(st, cs) && PiecesOk(Private(st, cs))
    requires Tiled(RegionsOf(Private(st, cs)), blocks) && a in blocks
    requires Geometry(RegionsOf(Private(st, cs)), MemOf(Private(st, cs))) || Geometry(RegionsOf(Private(st, cs)), st.bytes)
    ensures forall x: Addr :: a <= x < a + blocks[a].size ==> x in st.bytes && x in MemOf(Private(st, cs)) && MemOf(Private(st, cs))[x] == st.bytes[x]
  {
    var ps := Private(st, cs);
    var i :| 0 <= i < |ps| && Inside(RegionsOf(ps)[i], a, blocks[a].size);
    var r, mem := RegionsOf(ps)[i], MemOf(ps);
    assert RegionOk(r, st.bytes) || RegionOk(r, mem);
    assert ChunkOk(st, cs[i]) && cs[i] in cs;
    forall x: Addr | a <= x < a + blocks[a].size ensures x in st.bytes && x in MemOf(ps) && MemOf(ps)[x] == st.bytes[x] {
      MemOfAt(ps, i, x);
      assert ps[i].contents == Slice(st.bytes, ps[i].base, ps[i].size);
    }
  }

  /** Clone copies the head of bucket 0 only: what was free in the other buckets is lost to the child. */
  ghost function ChildBlocks(blocks: Blocks): Blocks {
    map a | a in blocks :: if blocks[a].state.Listed? && blocks[a].state.bucket > 0 then blocks[a].(state := Lost) else blocks[a]
  }

  ghost function ChildFree(free: seq<seq<Addr>>): (f: seq<seq<Addr>>)
    requires |free| == BUCKETS
    ensures |f| == BUCKETS && f[0] == free[0] && forall b :: 0 < b < BUCKETS ==> f[b] == []
  {
    seq(BUCKETS, b => if b == 0 then free[0] else [])
  }

  ghost function ChildHeads(heads: seq<Addr>): (h: seq<Addr>)
    requires |heads| == BUCKETS
    ensures |h| == BUCKETS && h[0] == heads[0] && forall b :: 0 < b < BUCKETS ==> h[b] == 0
  {
    seq(BUCKETS, b => if b == 0 then heads[0] else 0)
  }

  /** The child has lost nothing exactly when its parent had lost nothing and every free list but bucket 0's
      was empty. */
  lemma ChildLosesNothing(rs: seq<Region>, heads: seq<Addr>, mem: Mem, blocks: Blocks, free: seq<seq<Addr>>)
    requires HeapInv(rs, heads, mem, blocks, free)
    ensures NoneLost(ChildBlocks(blocks)) <==> NoneLost(blocks) && forall b :: 0 < b < BUCKETS ==> heads[b] == 0
  {
    hide Geometry, Tiled;
    forall b | 0 < b < BUCKETS ensures heads[b] == 0 <==> forall a :: !OnList(blocks, a, b) {
      assert Linked(mem, heads[b], free[b]) && (free[b] != [] ==> free[b][0] in free[b]);
    }
    forall a | a in blocks
      ensures ChildBlocks(blocks)[a].state.Lost? <==> blocks[a].state.Lost? || exists b :: 0 < b < BUCKETS && OnList(blocks, a, b)
    {
      assert Sized(rs, a, blocks[a]);
      assert blocks[a].state.Listed? ==> OnList(blocks, a, blocks[a].state.bucket);
    }
    if NoneLost(ChildBlocks(blocks)) {
      forall b, a | 0 < b < BUCKETS ensures !OnList(blocks, a, b) {
        assert OnList(blocks, a, b) ==> a in ChildBlocks(blocks);
      }
    }
  }

  /** The child's heap is sound: the same blocks tile the same regions, none of them handed out twice. */
  lemma ChildHeapInv(ps: seq<Piece>, heads: seq<Addr>, blocks: Blocks, free: seq<seq<Addr>>)
    requires PrivateInv(ps, heads, blocks, free)
    ensures PrivateInv(ps, ChildHeads(heads), ChildBlocks(blocks), ChildFree(free))
  {
    var rs, mem := RegionsOf(ps), MemOf(ps);
    var blocks', free', heads' := ChildBlocks(blocks), ChildFree(free), ChildHeads(heads);
    RetagTiled(rs, blocks, blocks');
    forall a | a in blocks' ensures Sized(rs, a, blocks'[a]) {
      assert Sized(rs, a, blocks[a]);
    }
    ChildLists(mem, heads, blocks, free);
  }

  lemma ChildLists(mem: Mem, heads: seq<Addr>, blocks: Blocks, free: seq<seq<Addr>>)
    requires FreeLists(heads, mem, blocks, free)
    ensures FreeLists(ChildHeads(heads), mem, ChildBlocks(blocks), ChildFree(free))
  {
    forall b, a | 0 <= b < BUCKETS ensures a in ChildFree(free)[b] <==> OnList(ChildBlocks(blocks), a, b) {
      assert a in free[b] <==> OnList(blocks, a, b);
    }
    assert Linked(mem, heads[0], free[0]) && NoDup(free[0]);
  }
}
