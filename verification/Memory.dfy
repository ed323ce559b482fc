/** Raw memory as the allocator sees it: a finite map from mapped addresses to bytes.
    Pointers and size headers are eight little-endian bytes inside that memory, so a stray
    write really can overwrite one. */
module Memory {

  type Addr = nat
  type Byte = x: int | 0 <= x < 256
  type Mem = map<Addr, Byte>

  /** sizeof (void*) and sizeof (size_t). */
  const WORD: nat := 8
  /** Addresses and header values below this bound fit one word. */
  const WORD_LIMIT: nat := 0x1_0000_0000_0000_0000

  ghost predicate Mapped(mem: Mem, a: Addr, n: nat) {
    forall x :: a <= x < a + n ==> x in mem
  }

  ghost predicate Unmapped(mem: Mem, a: Addr, n: nat) {
    forall x :: a <= x < a + n ==> x !in mem
  }

  /** mem and mem' hold the same mapped bytes throughout [a, a+n). */
  ghost predicate SameBytes(mem: Mem, mem': Mem, a: Addr, n: nat) {
    forall x {:trigger x in mem} {:trigger x in mem'} {:trigger mem'[x]} :: a <= x < a + n && x in mem ==> x in mem' && mem'[x] == mem[x]
  }

  /** The n bytes at a (the source operand of a memcpy). */
  function Slice(mem: Mem, a: Addr, n: nat): (s: seq<Byte>)
    requires Mapped(mem, a, n)
    ensures |s| == n
    ensures forall i :: 0 <= i < n ==> s[i] == mem[a + i]
  {
    seq(n, i requires 0 <= i < n => mem[a + i])
  }

  /** memory after memcpy (a, s, |s|). */
  function Write(mem: Mem, a: Addr, s: seq<Byte>): (mem': Mem)
    requires Mapped(mem, a, |s|)
    ensures mem'.Keys == mem.Keys
    ensures forall x {:trigger mem'[x]} :: x in mem ==> mem'[x] == if a <= x < a + |s| then s[x - a] else mem[x]
    ensures Slice(mem', a, |s|) == s
  {
    map x | x in mem :: if a <= x < a + |s| then s[x - a] else mem[x]
  }

  /** memory after munmap (a, n). */
  function Unmap(mem: Mem, a: Addr, n: nat): (mem': Mem)
    ensures forall x :: x in mem' <==> x in mem && !(a <= x < a + n)
    ensures forall x {:trigger mem'[x]} :: x in mem' ==> mem'[x] == mem[x]
  {
    map x | x in mem && !(a <= x < a + n) :: mem[x]
  }

  /** memory after the kernel mapped n bytes (zero pages) at a. */
  function Map(mem: Mem, a: Addr, n: nat): (mem': Mem)
    ensures forall x :: x in mem' <==> x in mem || a <= x < a + n
    ensures forall x {:trigger mem'[x]} :: x in mem && !(a <= x < a + n) ==> mem'[x] == mem[x]
  {
    mem + map x | x in Range(a, n) :: 0
  }

  function Range(a: Addr, n: nat): (r: set<Addr>)
    ensures forall x :: x in r <==> a <= x < a + n
  {
    if n == 0 then {} else Range(a, n - 1) + {a + n - 1}
  }

  /** v in k little-endian bytes. */
  function Encode(v: nat, k: nat): (s: seq<Byte>)
    ensures |s| == k
  {
    if k == 0 then [] else [v % 256] + Encode(v / 256, k - 1)
  }

  function Decode(s: seq<Byte>): nat {
    if s == [] then 0 else s[0] + 256 * Decode(s[1..])
  }

  function Pow256(k: nat): nat {
    if k == 0 then 1 else 256 * Pow256(k - 1)
  }

  lemma {:induction false} EncodeRoundTrip(v: nat, k: nat)
    requires v < Pow256(k)
    ensures Decode(Encode(v, k)) == v
  {
    if k != 0 {
      EncodeRoundTrip(v / 256, k - 1);
      assert Encode(v, k)[1..] == Encode(v / 256, k - 1);
    }
  }

  /** The word stored at a. */
  function LoadWord(mem: Mem, a: Addr): nat
    requires Mapped(mem, a, WORD)
  {
    Decode(Slice(mem, a, WORD))
  }

  function StoreWord(mem: Mem, a: Addr, v: nat): (mem': Mem)
    requires Mapped(mem, a, WORD)
    ensures mem'.Keys == mem.Keys
    ensures forall x {:trigger mem'[x]} :: x in mem && !(a <= x < a + WORD) ==> mem'[x] == mem[x]
  {
    Write(mem, a, Encode(v, WORD))
  }

  lemma LoadAfterStore(mem: Mem, a: Addr, v: nat)
    requires Mapped(mem, a, WORD) && v < WORD_LIMIT
    ensures LoadWord(StoreWord(mem, a, v), a) == v
  {
    assert Pow256(8) == WORD_LIMIT by {
      assert Pow256(4) == 0x1_0000_0000;
    }
    EncodeRoundTrip(v, WORD);
    var m := StoreWord(mem, a, v);
    assert Slice(m, a, WORD) == Encode(v, WORD);
  }

  /** A word is unchanged when its eight bytes are. */
  lemma LoadFrame(mem: Mem, mem': Mem, a: Addr)
    requires Mapped(mem, a, WORD) && SameBytes(mem, mem', a, WORD)
    ensures Mapped(mem', a, WORD) && LoadWord(mem', a) == LoadWord(mem, a)
  {
    forall x | a <= x < a + WORD ensures x in mem' && mem'[x] == mem[x] {
      assert x in mem;
    }
    assert Slice(mem', a, WORD) == Slice(mem, a, WORD);
  }
}
