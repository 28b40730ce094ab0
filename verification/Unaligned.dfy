/** The unaligned load and store pairs, big-endian: LWL/LWR, LDL/LDR, SWL/SWR, SDL/SDR. */
module Unaligned {
  import opened Words
  import opened ByteOrder
  import opened Memory

  // ---- one instruction, on numbers: n is the width in bytes, r the aligned memory word, x the
  // register, m the byte offset of the address in its aligned word ----

  /** SWL, SDL: the word's high bytes stay; below them the register shifted down. */
  function MergeStoreLeft(n: nat, r: nat, x: nat, m: nat): nat
    requires m < n
  {
    ShiftUp(DropLow(r, n - m), n - m) + DropLow(x, m)
  }

  /** SWR, SDR: the register shifted up, within the word, over the word's low bytes. */
  function MergeStoreRight(n: nat, r: nat, x: nat, m: nat): nat
    requires m < n
  {
    KeepLow(ShiftUp(x, n - 1 - m), n) + KeepLow(r, n - 1 - m)
  }

  /** LWL, LDL: the word's low bytes shifted up over the register's low bytes. */
  function MergeLoadLeft(n: nat, r: nat, x: nat, m: nat): nat
    requires m < n
  {
    ShiftUp(KeepLow(r, n - m), m) + KeepLow(x, m)
  }

  /** LWR, LDR: the register's high bytes stay; below them the word shifted down. */
  function MergeLoadRight(n: nat, r: nat, x: nat, m: nat): nat
    requires m < n
  {
    ShiftUp(DropLow(x, m + 1), m + 1) + DropLow(r, n - 1 - m)
  }

  // ---- the same, on bytes ----

  lemma StoreLeftBytes(r: seq<u8>, x: seq<u8>, m: nat)
    requires |r| == |x| && m < |r|
    ensures MergeStoreLeft(|r|, FromBig(r), FromBig(x), m) == FromBig(r[..m] + x[..|x| - m])
  {
    hide FromBig, ShiftUp, KeepLow, DropLow;
    BigDrop(r, |r| - m);
    BigDrop(x, m);
    BigSplit(r[..m], x[..|x| - m]);
  }

  /** A register shifted up k bytes within its width. */
  lemma ShiftedWord(x: seq<u8>, k: nat)
    requires k <= |x|
    ensures KeepLow(ShiftUp(FromBig(x), k), |x|) == ShiftUp(FromBig(x[k..]), k)
  {
    hide FromBig, ShiftUp, KeepLow, Zeros;
    var up := x + Zeros(k);
    BigZeros(k);
    BigSplit(x, Zeros(k));
    BigSplit(x[k..], Zeros(k));
    BigKeep(up, |x|);
    assert up[|up| - |x|..] == x[k..] + Zeros(k);
  }

  lemma StoreRightBytes(r: seq<u8>, x: seq<u8>, m: nat)
    requires |r| == |x| && m < |r|
    ensures MergeStoreRight(|r|, FromBig(r), FromBig(x), m) == FromBig(x[|x| - 1 - m..] + r[m + 1..])
  {
    hide FromBig, ShiftUp, KeepLow;
    var k := |r| - 1 - m;
    ShiftedWord(x, k);
    BigKeep(r, k);
    assert r[|r| - k..] == r[m + 1..];
    BigSplit(x[k..], r[m + 1..]);
  }

  lemma LoadLeftBytes(r: seq<u8>, x: seq<u8>, m: nat)
    requires |r| == |x| && m < |r|
    ensures MergeLoadLeft(|r|, FromBig(r), FromBig(x), m) == FromBig(r[m..] + x[|x| - m..])
  {
    hide FromBig, ShiftUp, KeepLow, DropLow;
    BigKeep(r, |r| - m);
    BigKeep(x, m);
    BigSplit(r[m..], x[|x| - m..]);
  }

  lemma LoadRightBytes(r: seq<u8>, x: seq<u8>, m: nat)
    requires |r| == |x| && m < |r|
    ensures MergeLoadRight(|r|, FromBig(r), FromBig(x), m) == FromBig(x[..|x| - 1 - m] + r[..m + 1])
  {
    hide FromBig, ShiftUp, KeepLow, DropLow;
    BigDrop(r, |r| - 1 - m);
    BigDrop(x, m + 1);
    BigSplit(x[..|x| - 1 - m], r[..m + 1]);
  }

  // ---- one instruction on memory ----

  predicate Width(n: nat) { n == 4 || n == 8 }

  /** The raw address of the aligned word around an address. */
  function Aligned(route: bool, ea: u32, n: nat): (p: u32)
    requires Width(n)
    ensures p + n <= DRAM_SIZE
  {
    Loc(route, ea / n * n)
  }

  function ReadAligned(mem: seq<u8>, p: u32, n: nat): nat
    requires |mem| == DRAM_SIZE && p + n <= DRAM_SIZE
  {
    FromBig(mem[p..p + n])
  }

  function WriteAligned(mem: seq<u8>, p: u32, n: nat, v: nat): (m: seq<u8>)
    requires |mem| == DRAM_SIZE && p + n <= DRAM_SIZE
    ensures |m| == DRAM_SIZE
  {
    mem[..p] + Big(v, n) + mem[p + n..]
  }

  /** The register's low n bytes are what a store sees. */
  function StoreLeft(mem: seq<u8>, route: bool, ea: u32, n: nat, x: nat): (m: seq<u8>)
    requires |mem| == DRAM_SIZE && Width(n)
    ensures |m| == DRAM_SIZE
  {
    var p := Aligned(route, ea, n);
    WriteAligned(mem, p, n, MergeStoreLeft(n, ReadAligned(mem, p, n), KeepLow(x, n), ea % n))
  }

  function StoreRight(mem: seq<u8>, route: bool, ea: u32, n: nat, x: nat): (m: seq<u8>)
    requires |mem| == DRAM_SIZE && Width(n)
    ensures |m| == DRAM_SIZE
  {
    var p := Aligned(route, ea, n);
    WriteAligned(mem, p, n, MergeStoreRight(n, ReadAligned(mem, p, n), KeepLow(x, n), ea % n))
  }

  /** A 32-bit result is sign-extended. */
  function Extend(n: nat, v: nat): nat {
    if n == 4 && v >= 0x8000_0000 && v < U32 then v + 0xffff_ffff_0000_0000 else v
  }

  function LoadLeft(mem: seq<u8>, route: bool, ea: u32, n: nat, x: nat): nat
    requires |mem| == DRAM_SIZE && Width(n)
  {
    Extend(n, MergeLoadLeft(n, ReadAligned(mem, Aligned(route, ea, n), n), KeepLow(x, n), ea % n))
  }

  function LoadRight(mem: seq<u8>, route: bool, ea: u32, n: nat, x: nat): nat
    requires |mem| == DRAM_SIZE && Width(n)
  {
    Extend(n, MergeLoadRight(n, ReadAligned(mem, Aligned(route, ea, n), n), KeepLow(x, n), ea % n))
  }

  function Bytes(x: nat, n: nat): (s: seq<u8>)
    ensures |s| == n
  {
    Big(KeepLow(x, n), n)
  }

  lemma {:induction false} KeepBound(x: nat, n: nat)
    ensures KeepLow(x, n) < Pow256(n)
  {
    if n > 0 {
      KeepBound(x / 256, n - 1);
    }
  }

  lemma BytesBack(x: nat, n: nat)
    ensures FromBig(Bytes(x, n)) == KeepLow(x, n)
  {
    KeepBound(x, n);
    BigRoundTrip(KeepLow(x, n), n);
  }

  lemma SpliceAt(mem: seq<u8>, p: nat, s: seq<u8>, y: nat)
    requires p + |s| <= |mem| && y < |mem|
    ensures (mem[..p] + s + mem[p + |s|..])[y] == if p <= y < p + |s| then s[y - p] else mem[y]
  {
  }

  lemma WrittenAt(mem: seq<u8>, p: u32, s: seq<u8>, y: u32)
    requires |mem| == DRAM_SIZE && p + |s| <= DRAM_SIZE
    ensures WriteAligned(mem, p, |s|, FromBig(s))[y] == if p <= y < p + |s| then s[y - p] else mem[y]
  {
    hide Big, FromBig;
    BigOfFrom(s);
    SpliceAt(mem, p, s, y);
  }

  /** SWL, SDL write the register's leading bytes from the address to the end of its word. */
  lemma StoreLeftAt(mem: seq<u8>, route: bool, ea: u32, n: nat, x: nat, y: u32)
    requires |mem| == DRAM_SIZE && Width(n)
    ensures var (p, m) := (Aligned(route, ea, n), ea % n);
      StoreLeft(mem, route, ea, n, x)[y] == if p + m <= y < p + n then Bytes(x, n)[y - p - m] else mem[y]
  {
    hide Big, FromBig, MergeStoreLeft, WriteAligned, KeepLow, Aligned;
    var (p, m, b) := (Aligned(route, ea, n), ea % n, Bytes(x, n));
    var r := mem[p..p + n];
    BytesBack(x, n);
    StoreLeftBytes(r, b, m);
    WrittenAt(mem, p, r[..m] + b[..n - m], y);
  }

  /** SWR, SDR write the register's trailing bytes from the start of the word to the address. */
  lemma StoreRightAt(mem: seq<u8>, route: bool, ea: u32, n: nat, x: nat, y: u32)
    requires |mem| == DRAM_SIZE && Width(n)
    ensures var (p, m) := (Aligned(route, ea, n), ea % n);
      StoreRight(mem, route, ea, n, x)[y] == if p <= y <= p + m then Bytes(x, n)[n - 1 - m + (y - p)] else mem[y]
  {
    hide Big, FromBig, MergeStoreRight, WriteAligned, KeepLow, Aligned;
    var (p, m, b) := (Aligned(route, ea, n), ea % n, Bytes(x, n));
    var r := mem[p..p + n];
    BytesBack(x, n);
    StoreRightBytes(r, b, m);
    WrittenAt(mem, p, b[n - 1 - m..] + r[m + 1..], y);
  }

  // ---- the pair, at any virtual address ----

  /** A mapping of 4 KB pages to frames. */
  type Frame = f: int | 0 <= f < 0x10_0000
  type Mapping = int -> Frame

  function Pa(pages: Mapping, va: nat): u32 {
    pages(va / 4096) * 4096 + va % 4096
  }

  /** The virtual address i bytes on. */
  function On(va: nat, i: nat): (w: nat)
    ensures w < U64
  {
    (va + i) % U64
  }

  /** The raw address of byte i of an unaligned datum. */
  function ByteAt(pages: Mapping, route: bool, va: nat, i: nat): u32 {
    Loc(route, Pa(pages, On(va, i)))
  }

  lemma OnPages(va: nat, i: nat)
    requires va < U64 && i < 8
    ensures var w := On(va, i);
      if va % 4096 + i < 4096 then w / 4096 == va / 4096 && w % 4096 == va % 4096 + i
      else w % 4096 == va % 4096 + i - 4096 && w / 4096 == (va / 4096 + 1) % (U64 / 4096)
  {
    var (q, o) := (va / 4096, va % 4096);
    if o + i < 4096 {
      QuotientUnique(va + i, U64, 0, va + i);
      QuotientUnique(va + i, 4096, q, o + i);
    } else if q + 1 < U64 / 4096 {
      QuotientUnique(va + i, U64, 0, va + i);
      QuotientUnique(va + i, 4096, q + 1, o + i - 4096);
      QuotientUnique(q + 1, U64 / 4096, 0, q + 1);
    } else {
      QuotientUnique(va + i, U64, 1, o + i - 4096);
      QuotientUnique(o + i - 4096, 4096, 0, o + i - 4096);
      QuotientUnique(q + 1, U64 / 4096, 1, 0);
    }
  }

  lemma AlignedBase(ea: u32, n: nat)
    requires Width(n)
    ensures var b := ea - ea % n; 0 <= b && b + n <= U32 && b % n == 0 && ea / n * n == b
  {
    if n == 4 {
      assert ea == 4 * (ea / 4) + ea % 4;
    } else {
      assert ea == 8 * (ea / 8) + ea % 8;
    }
  }

  lemma InAligned(route: bool, ea: u32, n: nat, k: nat)
    requires Width(n) && k < n
    ensures var (p, base) := (Aligned(route, ea, n), ea - ea % n);
      0 <= base && base + k < U32 && Loc(route, base + k) == p + k && p % n == 0 && p % 4096 == base % 4096
  {
    hide Loc, Width;
    AlignedBase(ea, n);
    LocKeeps(route, ea - ea % n, n, k);
  }

  /** The alias moves whole pages. */
  lemma LocKeeps(route: bool, b: u32, n: nat, k: nat)
    requires Width(n) && k < n && b % n == 0 && b + n <= U32
    ensures Loc(route, b + k) == Loc(route, b) + k && Loc(route, b) % n == 0 && Loc(route, b) % 4096 == b % 4096
  {
    if n == 4 {
    } else {
    }
  }

  lemma PageResidue(x: nat)
    ensures x % 4096 % 4 == x % 4 && x % 4096 % 8 == x % 8
  {
    Residue(x / 4096, x % 4096);
  }

  lemma Residue(q: nat, r: nat)
    ensures (4096 * q + r) % 4 == r % 4 && (4096 * q + r) % 8 == r % 8
  {
    QuotientUnique(4096 * q + r, 4, 1024 * q + r / 4, r % 4);
    QuotientUnique(4096 * q + r, 8, 512 * q + r / 8, r % 8);
  }

  /** Bytes of one aligned word share a page. */
  lemma SamePage(o: nat, n: nat, i: nat)
    requires o < 4096 && Width(n) && i < n
    ensures var m := o % n;
      && (i < n - m ==> o + i < 4096)
      && (i >= n - m ==> (o + i < 4096 <==> o + (n - 1) < 4096) && (o + i >= 4096 ==> o + (n - m) == 4096))
  {
    if n == 4 {
      assert o == 4 * (o / 4) + o % 4;
    } else {
      assert o == 8 * (o / 8) + o % 8;
    }
  }

  lemma LowOffset(pages: Mapping, va: nat)
    requires va < U64
    ensures Pa(pages, va) % 4096 == va % 4096
  {
  }

  lemma ByteFrame(pages: Mapping, va: nat, n: nat, i: nat)
    requires va < U64 && Width(n) && i < n
    ensures var (e1, e2, w) := (Pa(pages, va), Pa(pages, On(va, n - 1)), Pa(pages, On(va, i)));
      w == if i < n - va % n then e1 + i else e2 - (n - 1 - i)
  {
    hide On;
    OnPages(va, i);
    OnPages(va, n - 1);
    PageResidue(va);
    SamePage(va % 4096, n, i);
  }

  lemma EndOffsets(pages: Mapping, va: nat, n: nat)
    requires va < U64 && Width(n)
    ensures Pa(pages, va) % 4096 == va % 4096 && Pa(pages, On(va, n - 1)) % 4096 == (va % 4096 + (n - 1)) % 4096
  {
    hide On, Pa;
    OnPages(va, n - 1);
    LowOffset(pages, va);
    LowOffset(pages, On(va, n - 1));
  }

  /** Offsets of both ends of the datum in their words. */
  lemma Ends(o: nat, n: nat, e1: u32, e2: u32)
    requires o < 4096 && Width(n) && e1 % 4096 == o && e2 % 4096 == (o + (n - 1)) % 4096
    ensures var m := o % n;
      && e1 % n == m && e2 % n == (if m == 0 then n - 1 else m - 1)
      && (m > 0 ==> (e1 - m) % 4096 != (e2 - (m - 1)) % 4096)
      && (m == 0 ==> e2 % 4096 == e1 % 4096 + (n - 1))
  {
    PageResidue(e1);
    PageResidue(e2);
    if n == 4 {
      Ends4(o, e1, e2);
    } else {
      Ends8(o, e1, e2);
    }
  }

  lemma Ends4(o: nat, e1: u32, e2: u32)
    requires o < 4096 && e1 % 4096 == o && e2 % 4096 == (o + 3) % 4096
    ensures var m := o % 4;
      && (o + 3) % 4096 % 4 == (if m == 0 then 3 else m - 1)
      && (m > 0 ==> (e1 - m) % 4096 != (e2 - (m - 1)) % 4096)
      && (m == 0 ==> (o + 3) % 4096 == o + 3)
  {
    var (k, m) := (o / 4, o % 4);
    if m == 0 {
      QuotientUnique(o + 3, 4096, 0, o + 3);
      QuotientUnique(o + 3, 4, k, 3);
    } else {
      QuotientUnique(e1 - m, 4096, e1 / 4096, o - m);
      if o + 3 < 4096 {
        QuotientUnique(o + 3, 4096, 0, o + 3);
        QuotientUnique(o + 3, 4, k + 1, m - 1);
        QuotientUnique(e2 - (m - 1), 4096, e2 / 4096, o + 4 - m);
      } else {
        QuotientUnique(o + 3, 4096, 1, m - 1);
        QuotientUnique(m - 1, 4, 0, m - 1);
        QuotientUnique(e2 - (m - 1), 4096, e2 / 4096, 0);
      }
    }
  }

  lemma Ends8(o: nat, e1: u32, e2: u32)
    requires o < 4096 && e1 % 4096 == o && e2 % 4096 == (o + 7) % 4096
    ensures var m := o % 8;
      && (o + 7) % 4096 % 8 == (if m == 0 then 7 else m - 1)
      && (m > 0 ==> (e1 - m) % 4096 != (e2 - (m - 1)) % 4096)
      && (m == 0 ==> (o + 7) % 4096 == o + 7)
  {
    var (k, m) := (o / 8, o % 8);
    if m == 0 {
      QuotientUnique(o + 7, 4096, 0, o + 7);
      QuotientUnique(o + 7, 8, k, 7);
    } else {
      QuotientUnique(e1 - m, 4096, e1 / 4096, o - m);
      if o + 7 < 4096 {
        QuotientUnique(o + 7, 4096, 0, o + 7);
        QuotientUnique(o + 7, 8, k + 1, m - 1);
        QuotientUnique(e2 - (m - 1), 4096, e2 / 4096, o + 8 - m);
      } else {
        QuotientUnique(o + 7, 4096, 1, m - 1);
        QuotientUnique(m - 1, 8, 0, m - 1);
        QuotientUnique(e2 - (m - 1), 4096, e2 / 4096, 0);
      }
    }
  }

  lemma WordsApart(p1: u32, p2: u32, n: nat)
    requires Width(n) && p1 % n == 0 && p2 % n == 0 && p1 % 4096 != p2 % 4096
    ensures p1 + n <= p2 || p2 + n <= p1
  {
    if n == 4 {
      assert p1 == 4 * (p1 / 4) && p2 == 4 * (p2 / 4);
    } else {
      assert p1 == 8 * (p1 / 8) && p2 == 8 * (p2 / 8);
    }
  }

  lemma PairEnds(pages: Mapping, route: bool, va: nat, n: nat)
    requires va < U64 && Width(n)
    ensures var (e1, e2) := (Pa(pages, va), Pa(pages, On(va, n - 1)));
      var (p1, p2, m) := (Aligned(route, e1, n), Aligned(route, e2, n), va % n);
      && e1 % n == m && e2 % n == (if m == 0 then n - 1 else m - 1)
      && (if m == 0 then p1 == p2 else p1 + n <= p2 || p2 + n <= p1)
  {
    hide Pa, Aligned, Loc, On;
    var (e1, e2, m) := (Pa(pages, va), Pa(pages, On(va, n - 1)), va % n);
    assert va % 4096 % n == m by { PageResidue(va); }
    EndOffsets(pages, va, n);
    Ends(va % 4096, n, e1, e2);
    if m > 0 {
      AlignedApart(route, e1, e2, n, m);
    } else {
      ByteFrame(pages, va, n, n - 1);
      SameAligned(route, e1, e2, n);
    }
  }

  lemma AlignedApart(route: bool, e1: u32, e2: u32, n: nat, m: nat)
    requires Width(n) && 0 < m < n && e1 % n == m && e2 % n == m - 1 && (e1 - m) % 4096 != (e2 - (m - 1)) % 4096
    ensures var (p1, p2) := (Aligned(route, e1, n), Aligned(route, e2, n)); p1 + n <= p2 || p2 + n <= p1
  {
    hide Aligned, Loc;
    InAligned(route, e1, n, 0);
    InAligned(route, e2, n, 0);
    WordsApart(Aligned(route, e1, n), Aligned(route, e2, n), n);
  }

  /** Where the bytes lie: the tail of one aligned word, then the head of another, or one whole word. */
  lemma Places(pages: Mapping, route: bool, va: nat, n: nat, i: nat)
    requires va < U64 && Width(n) && i < n
    ensures var (e1, e2) := (Pa(pages, va), Pa(pages, On(va, n - 1)));
      var (p1, p2, m) := (Aligned(route, e1, n), Aligned(route, e2, n), va % n);
      ByteAt(pages, route, va, i) == if i < n - m then p1 + m + i else p2 + i - (n - m)
  {
    hide Pa, Aligned, Loc;
    var (e1, e2, m) := (Pa(pages, va), Pa(pages, On(va, n - 1)), va % n);
    PairEnds(pages, route, va, n);
    ByteFrame(pages, va, n, i);
    if i < n - m {
      InAligned(route, e1, n, m + i);
    } else {
      InAligned(route, e2, n, i - (n - m));
    }
  }

  lemma SameAligned(route: bool, e1: u32, e2: u32, n: nat)
    requires Width(n) && e1 % n == 0 && e2 == e1 + (n - 1)
    ensures Aligned(route, e1, n) == Aligned(route, e2, n)
  {
    hide Loc;
    QuotientUnique(e2, n, e1 / n, n - 1);
  }

  /** SWL at an address and SWR at its last byte; SDL and SDR likewise. */
  function StorePair(mem: seq<u8>, route: bool, pages: Mapping, va: nat, n: nat, x: nat): (m: seq<u8>)
    requires |mem| == DRAM_SIZE && Width(n)
    ensures |m| == DRAM_SIZE
  {
    StoreRight(StoreLeft(mem, route, Pa(pages, va), n, x), route, Pa(pages, On(va, n - 1)), n, x)
  }

  /** LWL at an address and LWR at its last byte; LDL and LDR likewise. x is the register before. */
  function LoadPair(mem: seq<u8>, route: bool, pages: Mapping, va: nat, n: nat, x: nat): nat
    requires |mem| == DRAM_SIZE && Width(n)
  {
    LoadRight(mem, route, Pa(pages, On(va, n - 1)), n, LoadLeft(mem, route, Pa(pages, va), n, x))
  }

  /** The pair writes exactly the datum's bytes, wherever it lies, also across words and pages. */
  lemma StorePairExact(mem: seq<u8>, route: bool, pages: Mapping, va: nat, n: nat, x: nat)
    requires |mem| == DRAM_SIZE && va < U64 && Width(n)
    ensures var m := StorePair(mem, route, pages, va, n, x);
      && (forall i :: 0 <= i < n ==> m[ByteAt(pages, route, va, i)] == Bytes(x, n)[i])
      && (forall y: u32 :: (forall i :: 0 <= i < n ==> y != ByteAt(pages, route, va, i)) ==> m[y] == mem[y])
  {
    hide Pa, Aligned, StoreLeft, StoreRight, Bytes, ByteAt;
    var (e1, e2, m) := (Pa(pages, va), Pa(pages, On(va, n - 1)), va % n);
    var (p1, p2) := (Aligned(route, e1, n), Aligned(route, e2, n));
    PairEnds(pages, route, va, n);
    var left := StoreLeft(mem, route, e1, n, x);
    forall i | 0 <= i < n ensures StorePair(mem, route, pages, va, n, x)[ByteAt(pages, route, va, i)] == Bytes(x, n)[i] {
      Places(pages, route, va, n, i);
      StoreLeftAt(mem, route, e1, n, x, ByteAt(pages, route, va, i));
      StoreRightAt(left, route, e2, n, x, ByteAt(pages, route, va, i));
    }
    forall y: u32 | forall i :: 0 <= i < n ==> y != ByteAt(pages, route, va, i)
      ensures StorePair(mem, route, pages, va, n, x)[y] == mem[y]
    {
      StoreLeftAt(mem, route, e1, n, x, y);
      StoreRightAt(left, route, e2, n, x, y);
      if p1 + m <= y < p1 + n {
        Places(pages, route, va, n, y - p1 - m);
      }
      if m > 0 && p2 <= y < p2 + m {
        Places(pages, route, va, n, y - p2 + (n - m));
      }
    }
  }

  /** The bytes of the datum as memory holds them. */
  function Datum(mem: seq<u8>, route: bool, pages: Mapping, va: nat, n: nat): (s: seq<u8>)
    requires |mem| == DRAM_SIZE
    ensures |s| == n
  {
    seq(n, i requires 0 <= i < n => mem[ByteAt(pages, route, va, i)])
  }

  lemma DatumSplits(mem: seq<u8>, route: bool, pages: Mapping, va: nat, n: nat)
    requires |mem| == DRAM_SIZE && va < U64 && Width(n)
    ensures var (p1, p2, m) := (Aligned(route, Pa(pages, va), n), Aligned(route, Pa(pages, On(va, n - 1)), n), va % n);
      Datum(mem, route, pages, va, n) == mem[p1 + m..p1 + n] + mem[p2..p2 + m]
  {
    hide Pa, Aligned, ByteAt;
    var (p1, p2, m) := (Aligned(route, Pa(pages, va), n), Aligned(route, Pa(pages, On(va, n - 1)), n), va % n);
    forall i | 0 <= i < n ensures Datum(mem, route, pages, va, n)[i] == (mem[p1 + m..p1 + n] + mem[p2..p2 + m])[i] {
      Places(pages, route, va, n, i);
    }
  }

  /** The pair loads the datum's value whatever the register held. */
  lemma LoadPairExact(mem: seq<u8>, route: bool, pages: Mapping, va: nat, n: nat, x: nat)
    requires |mem| == DRAM_SIZE && va < U64 && Width(n)
    ensures LoadPair(mem, route, pages, va, n, x) == Extend(n, FromBig(Datum(mem, route, pages, va, n)))
  {
    hide Pa, Aligned, FromBig, KeepLow, MergeLoadLeft, MergeLoadRight, Datum, Extend, Big;
    var (e1, e2, m) := (Pa(pages, va), Pa(pages, On(va, n - 1)), va % n);
    PairEnds(pages, route, va, n);
    var (p1, p2, b) := (Aligned(route, e1, n), Aligned(route, e2, n), Bytes(x, n));
    BytesBack(x, n);
    LoadLeftBytes(mem[p1..p1 + n], b, m);
    var left := mem[p1 + m..p1 + n] + b[n - m..];
    assert mem[p1..p1 + n][m..] == mem[p1 + m..p1 + n];
    KeepsLow(n, left);
    LoadRightBytes(mem[p2..p2 + n], left, e2 % n);
    DatumSplits(mem, route, pages, va, n);
    Joined(mem, p1, p2, n, m, left);
  }

  lemma Joined(mem: seq<u8>, p1: nat, p2: nat, n: nat, m: nat, left: seq<u8>)
    requires p1 + n <= |mem| && p2 + n <= |mem| && m < n && |left| == n && left[..n - m] == mem[p1 + m..p1 + n]
    requires m == 0 ==> p1 == p2
    ensures var k := if m == 0 then n - 1 else m - 1;
      left[..n - 1 - k] + mem[p2..p2 + n][..k + 1] == mem[p1 + m..p1 + n] + mem[p2..p2 + m]
  {
    if m == 0 {
      assert mem[p2..p2 + n][..n] == mem[p1..p1 + n];
    } else {
      assert mem[p2..p2 + n][..m] == mem[p2..p2 + m];
    }
  }

  /** What a later instruction sees of a loaded register: its n bytes. */
  lemma KeepsLow(n: nat, s: seq<u8>)
    requires Width(n) && |s| == n
    ensures KeepLow(Extend(n, FromBig(s)), n) == FromBig(s)
  {
    BigBound(s);
    BigKeep(s, n);
    assert s[0..] == s;
    if n == 4 && FromBig(s) >= 0x8000_0000 && FromBig(s) < U32 {
      HighIgnored(FromBig(s), 0xffff_ffff, 4);
      assert ShiftUp(0xffff_ffff, 4) == 0xffff_ffff_0000_0000;
    }
  }

  lemma {:induction false} HighIgnored(v: nat, h: nat, k: nat)
    ensures KeepLow(v + ShiftUp(h, k), k) == KeepLow(v, k)
    decreases k
  {
    if k > 0 {
      var (q, up) := (v / 256, ShiftUp(h, k - 1));
      HighIgnored(q, h, k - 1);
      QuotientUnique(v + 256 * up, 256, q + up, v % 256);
    }
  }

  /** A value stored by the pair at any address is loaded back by the pair, sign-extended. */
  lemma PairRoundTrip(mem: seq<u8>, route: bool, pages: Mapping, va: nat, n: nat, x: nat, y: nat)
    requires |mem| == DRAM_SIZE && va < U64 && Width(n)
    ensures LoadPair(StorePair(mem, route, pages, va, n, x), route, pages, va, n, y) == Extend(n, KeepLow(x, n))
  {
    hide StorePair, LoadPair, ByteAt, KeepLow, FromBig, Bytes;
    var m := StorePair(mem, route, pages, va, n, x);
    StorePairExact(mem, route, pages, va, n, x);
    LoadPairExact(m, route, pages, va, n, y);
    assert Datum(m, route, pages, va, n) == Bytes(x, n);
    BytesBack(x, n);
  }
}
