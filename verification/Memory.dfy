/** Physical memory behind devices and caches: 4 GB of bytes, its low alias, big-endian words. */
module Memory {
  import opened Words
  import opened ByteOrder

  const DRAM_SIZE := 0x1_0000_0000

  /** mc_alias: the bottom 512 KB of physical space is the base of local memory. */
  function Loc(route: bool, pa: u32): (a: u32) {
    if route && pa < 0x80000 then pa + 0x0800_0000 else pa
  }

  /** Raw byte n past a raw address; nothing lives past the end of memory. */
  function RawByte(mem: seq<u8>, a: u32, n: nat): u8
    requires |mem| == DRAM_SIZE
  {
    if a + n < DRAM_SIZE then mem[a + n] else 0
  }

  /** rd_be32. */
  function Word(mem: seq<u8>, route: bool, pa: u32): u32
    requires |mem| == DRAM_SIZE
  {
    var a := Loc(route, pa);
    RawByte(mem, a, 0) * 0x1000000 + RawByte(mem, a, 1) * 0x10000 + RawByte(mem, a, 2) * 0x100 + RawByte(mem, a, 3)
  }

  /** The raw addresses a word occupies. */
  predicate InWord(route: bool, pa: u32, a: int) {
    Loc(route, pa) <= a < Loc(route, pa) + 4
  }

  lemma WordUnchanged(mem: seq<u8>, mem2: seq<u8>, route: bool, pa: u32)
    requires |mem| == |mem2| == DRAM_SIZE
    requires forall a :: 0 <= a < DRAM_SIZE && InWord(route, pa, a) ==> mem[a] == mem2[a]
    ensures Word(mem, route, pa) == Word(mem2, route, pa)
  {
    forall n | 0 <= n < 4 ensures RawByte(mem, Loc(route, pa), n) == RawByte(mem2, Loc(route, pa), n) {
      assert Loc(route, pa) + n < DRAM_SIZE ==> InWord(route, pa, Loc(route, pa) + n);
    }
  }

  // ---- buffers ----

  /** The raw addresses of a buffer. */
  function Addrs(route: bool, buf: u32, n: nat): (s: seq<u32>)
    ensures |s| == n
    decreases n
  {
    if n == 0 then [] else [Loc(route, buf)] + Addrs(route, Plus(buf, 1), n - 1)
  }

  /** Data stored at the addresses in turn. */
  function Scatter(mem: seq<u8>, addrs: seq<u32>, data: seq<u8>): (m: seq<u8>)
    requires |mem| == DRAM_SIZE && |addrs| == |data|
    ensures |m| == DRAM_SIZE
    decreases |addrs|
  {
    if addrs == [] then mem else Scatter(mem[addrs[0] := data[0]], addrs[1..], data[1..])
  }

  function Gather(mem: seq<u8>, addrs: seq<u32>): (s: seq<u8>)
    requires |mem| == DRAM_SIZE
    ensures |s| == |addrs|
  {
    seq(|addrs|, i requires 0 <= i < |addrs| => mem[addrs[i]])
  }

  lemma {:induction false} ScatterAt(mem: seq<u8>, addrs: seq<u32>, data: seq<u8>, x: u32)
    requires |mem| == DRAM_SIZE && |addrs| == |data|
    ensures x !in addrs ==> Scatter(mem, addrs, data)[x] == mem[x]
    ensures Distinct(addrs) ==> forall i :: 0 <= i < |addrs| && addrs[i] == x ==> Scatter(mem, addrs, data)[x] == data[i]
    decreases |addrs|
  {
    if addrs != [] {
      ScatterAt(mem[addrs[0] := data[0]], addrs[1..], data[1..], x);
    }
  }

  lemma GatherSplit(mem: seq<u8>, a: seq<u32>, b: seq<u32>)
    requires |mem| == DRAM_SIZE
    ensures Gather(mem, a + b) == Gather(mem, a) + Gather(mem, b)
  {
  }

  lemma GatherOne(mem: seq<u8>, a: u32)
    requires |mem| == DRAM_SIZE
    ensures Gather(mem, [a]) == [mem[a]]
  {
  }

  // ---- storing a word ----

  function PutByte(mem: seq<u8>, a: u32, n: nat, b: u8): (m: seq<u8>)
    requires |mem| == DRAM_SIZE
    ensures |m| == DRAM_SIZE
  {
    if a + n < DRAM_SIZE then mem[a + n := b] else mem
  }

  /** wr_be32. */
  function PutWord(mem: seq<u8>, route: bool, pa: u32, v: u32): (m: seq<u8>)
    requires |mem| == DRAM_SIZE
    ensures |m| == DRAM_SIZE
  {
    var a := Loc(route, pa);
    PutByte(PutByte(PutByte(PutByte(mem, a, 0, v / 0x1000000), a, 1, v / 0x10000 % 256), a, 2, v / 0x100 % 256), a, 3, v % 256)
  }

  lemma PutsWord(mem: seq<u8>, route: bool, pa: u32, v: u32)
    requires |mem| == DRAM_SIZE
    ensures forall x: u32 :: !InWord(route, pa, x) ==> PutWord(mem, route, pa, v)[x] == mem[x]
  {
    hide Loc;
  }

  /** A stored word reads back. */
  lemma PutsBack(mem: seq<u8>, route: bool, pa: u32, v: u32)
    requires |mem| == DRAM_SIZE && Loc(route, pa) + 3 < DRAM_SIZE
    ensures Word(PutWord(mem, route, pa, v), route, pa) == v
  {
    hide Loc;
    var (a, m) := (Loc(route, pa), PutWord(mem, route, pa, v));
    assert m[a] == v / 0x1000000 && m[a + 1] == v / 0x10000 % 256 && m[a + 2] == v / 0x100 % 256 && m[a + 3] == v % 256;
    Digits(v);
  }

  lemma Digits(v: u32)
    ensures v / 0x1000000 * 0x1000000 + v / 0x10000 % 256 * 0x10000 + v / 0x100 % 256 * 0x100 + v % 256 == v
  {
    var a := v / 256;
    var b := a / 256;
    QuotientUnique(v, 0x10000, b, a % 256 * 256 + v % 256);
    QuotientUnique(v, 0x1000000, b / 256, b % 256 * 0x10000 + a % 256 * 256 + v % 256);
  }

  /** A memory word is its four bytes, most significant first. */
  lemma WordIsBig(mem: seq<u8>, route: bool, pa: u32)
    requires |mem| == DRAM_SIZE && Loc(route, pa) + 4 <= DRAM_SIZE
    ensures var a := Loc(route, pa); Word(mem, route, pa) == FromBig(mem[a..a + 4])
  {
    var a := Loc(route, pa);
    var s := mem[a..a + 4];
    BigFour(s);
  }

  /** And so is it stored. */
  lemma PutIsBig(mem: seq<u8>, route: bool, pa: u32, v: u32)
    requires |mem| == DRAM_SIZE && Loc(route, pa) + 4 <= DRAM_SIZE
    ensures var a := Loc(route, pa); PutWord(mem, route, pa, v)[a..a + 4] == Big(v, 4)
  {
    hide Loc;
    var a, m := Loc(route, pa), PutWord(mem, route, pa, v);
    PutsBack(mem, route, pa, v);
    WordIsBig(m, route, pa);
    BigOfFrom(m[a..a + 4]);
  }

  /** With the alias on, a word stored in the first 512 KB is the word 128 MB further on, and the other
      way round. */
  lemma AliasIsSame(mem: seq<u8>, pa: u32, v: u32)
    requires |mem| == DRAM_SIZE && pa < 0x8_0000
    ensures Word(PutWord(mem, true, pa, v), true, pa + 0x800_0000) == v
    ensures Word(PutWord(mem, true, pa + 0x800_0000, v), true, pa) == v
  {
    PutsBack(mem, true, pa, v);
    PutsBack(mem, true, pa + 0x800_0000, v);
  }

  /** Everywhere else, and without the alias, a word is the bytes at its address. */
  lemma UnaliasedWord(mem: seq<u8>, route: bool, pa: u32)
    requires |mem| == DRAM_SIZE && pa + 4 <= DRAM_SIZE && (pa < 0x8_0000 ==> !route)
    ensures Word(mem, route, pa) == FromBig(mem[pa..pa + 4])
  {
    WordIsBig(mem, route, pa);
  }
}
