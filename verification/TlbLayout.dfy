/** Where a mapped address goes, read off the bits of the words of its TLB entry, for every legal
    page size; and what the unmapped segments and the exceptions come to in addresses. */
module TlbLayout {
  import opened Words
  import opened Bitwise
  import opened Tlb
  import opened Mmu

  // ---- bits of sums ----

  /** Above n low bits b lie the bits of a. */
  lemma {:induction false} JoinBits(a: nat, b: nat, n: nat, k: nat)
    requires b < Pow2(n)
    ensures BitAt(a * Pow2(n) + b, k) <==> if k < n then BitAt(b, k) else BitAt(a, k - n)
    decreases n
  {
    if n > 0 {
      Halves(a, b, n);
      if k > 0 {
        JoinBits(a, b / 2, n - 1, k - 1);
      }
    }
  }

  lemma Halves(a: nat, b: nat, n: nat)
    requires n > 0 && b < Pow2(n)
    ensures b / 2 < Pow2(n - 1)
    ensures (a * Pow2(n) + b) / 2 == a * Pow2(n - 1) + b / 2 && (a * Pow2(n) + b) % 2 == b % 2
  {
    var p := Pow2(n - 1);
    assert a * Pow2(n) == 2 * (a * p);
  }

  /** The n low bits of a word and nothing above them. */
  lemma LowBitsStay(x: nat, n: nat, k: nat)
    ensures BitAt(x % Pow2(n), k) <==> k < n && BitAt(x, k)
  {
    hide BitAt, Pow2;
    var p := Pow2(n);
    JoinBits(x / p, x % p, n, k);
    assert x / p * p + x % p == x;
    if k >= n {
      HighBits(x % p, n, k);
    }
  }

  /** Or-ing in bits where a number has none adds them. */
  lemma {:induction false} OrAdds(a: nat, b: nat, n: nat)
    requires b < Pow2(n)
    ensures Or(a * Pow2(n), b) == a * Pow2(n) + b
    decreases n
  {
    if a > 0 && b > 0 {
      Halves(a, 0, n);
      Halves(a, b, n);
      OrAdds(a, b / 2, n - 1);
    }
  }

  // ---- one entry ----

  /** A page of the R4000: 4 KB times a power of four, up to 16 MB. */
  predicate PageSize(size: nat) {
    size in {0x1000, 0x4000, 0x1_0000, 0x4_0000, 0x10_0000, 0x40_0000, 0x100_0000}
  }

  /** Entries keep it in PageMask, less 4 KB and doubled. */
  predicate Maps(e: Entry, size: nat) {
    PageSize(size) && e.pageMask == 2 * (size - 0x1000)
  }

  lemma PageSizes(size: nat)
    requires PageSize(size)
    ensures ValidPageMask(2 * (size - 0x1000)) && K40 % (2 * size) == 0 && K40 / (2 * size) > 0
  {
  }

  /** The fields of EntryLo: PFN, cache attribute, and the dirty, valid and global bits. */
  datatype Lo = Lo(high: nat, pfn: nat, c: nat, d: bool, v: bool, g: bool)

  predicate InFields(w: Lo) {
    w.pfn < 0x1000_0000 && w.c < 8
  }

  function Weight(b: bool, weight: nat): nat {
    if b then weight else 0
  }

  function LoWord(w: Lo): nat {
    w.high * 0x4_0000_0000 + w.pfn * 64 + w.c * 8 + Weight(w.d, 4) + Weight(w.v, 2) + Weight(w.g, 1)
  }

  lemma LoFields(lo: u64, w: Lo)
    requires InFields(w) && lo == LoWord(w)
    ensures Pfn(lo) == w.pfn && Cacheable(lo) == (w.c == 3) && DirtyBit(lo) == w.d && ValidBit(lo) == w.v
    ensures (lo % 2 == 1) == w.g
  {
    var frames := w.high * 0x1000_0000 + w.pfn;
    var low := w.c * 8 + Weight(w.d, 4) + Weight(w.v, 2) + Weight(w.g, 1);
    QuotientUnique(lo, 64, frames, low);
    QuotientUnique(frames, 0x1000_0000, w.high, w.pfn);
    LowFields(frames, w);
  }

  lemma LowFields(frames: nat, w: Lo)
    requires w.c < 8
    ensures var lo := frames * 64 + (w.c * 8 + Weight(w.d, 4) + Weight(w.v, 2) + Weight(w.g, 1));
      lo / 8 % 8 == w.c && (lo / 4 % 2 == 1) == w.d && (lo / 2 % 2 == 1) == w.v && (lo % 2 == 1) == w.g
  {
    var d, v, g := Weight(w.d, 1), Weight(w.v, 1), Weight(w.g, 1);
    LowDigits(frames, w.c, d, v, g);
  }

  lemma LowDigits(frames: nat, c: nat, d: nat, v: nat, g: nat)
    requires c < 8 && d < 2 && v < 2 && g < 2
    ensures var lo := frames * 64 + (c * 8 + d * 4 + v * 2 + g);
      lo / 8 % 8 == c && lo / 4 % 2 == d && lo / 2 % 2 == v && lo % 2 == g
  {
    var lo := frames * 64 + (c * 8 + d * 4 + v * 2 + g);
    Digit(lo, 8, 8, frames, c, d * 4 + v * 2 + g);
    Digit(lo, 4, 2, frames * 8 + c, d, v * 2 + g);
    Digit(lo, 2, 2, frames * 16 + (c * 2 + d), v, g);
    QuotientUnique(lo, 2, frames * 32 + (c * 4 + d * 2 + v), g);
  }

  /** A digit between those above and below it. */
  lemma Digit(x: nat, n: nat, m: nat, above: nat, digit: nat, below: nat)
    requires n > 0 && digit < m && below < n && x == n * (m * above + digit) + below
    ensures x / n % m == digit
  {
    QuotientUnique(x, n, m * above + digit, below);
    QuotientUnique(m * above + digit, m, above, digit);
  }

  /** An address by its region, the pair it lies in, the page of the pair and the offset there. */
  datatype Place = Place(region: nat, gap: nat, pair: nat, odd: bool, o: nat)

  predicate At(va: u64, size: nat, p: Place) {
    && va == p.region * K62 + (p.gap * K40 + (p.pair * (2 * size) + (Weight(p.odd, size) + p.o)))
    && p.region < 4 && p.gap < 0x40_0000 && p.pair * (2 * size) < K40 && p.o < size
  }

  lemma PlaceParts(va: u64, size: nat, p: Place)
    requires PageSize(size) && At(va, size, p)
    ensures va / K62 == p.region && va % K40 / (2 * size) == p.pair
  {
    PageSizes(size);
    var off := Weight(p.odd, size) + p.o;
    var low := p.pair * (2 * size) + off;
    BelowTop(size, p.pair, off);
    QuotientUnique(va, K62, p.region, p.gap * K40 + low);
    QuotientUnique(va, K40, p.region * 0x40_0000 + p.gap, low);
    QuotientUnique(low, 2 * size, p.pair, off);
  }

  /** A pair that begins below 2^40 ends there. */
  lemma BelowTop(size: nat, pair: nat, off: nat)
    requires size > 0 && K40 % (2 * size) == 0 && pair * (2 * size) < K40 && off < 2 * size
    ensures pair * (2 * size) + off < K40
  {
    var two := 2 * size;
    var pairs := K40 / two;
    assert K40 == two * pairs;
    if pair >= pairs {
      MulMono(two, pairs, pair);
    }
    MulMono(two, pair + 1, pairs);
  }

  lemma PageParts(va: u64, size: nat, p: Place)
    requires PageSize(size) && At(va, size, p)
    ensures va / size % 2 == Weight(p.odd, 1) && va % size == p.o
  {
    PageSizes(size);
    PageDigits(va, size, K40 / (2 * size), K40, p.region * 0x40_0000 + p.gap, p.pair, Weight(p.odd, 1), p.o);
  }

  lemma PageDigits(va: nat, size: nat, pairs: nat, span: nat, top: nat, pair: nat, odd: nat, o: nat)
    requires span == 2 * size * pairs && odd < 2 && o < size
    requires va == span * top + (pair * (2 * size) + ((if odd == 1 then size else 0) + o))
    ensures va / size % 2 == odd && va % size == o
  {
    var above := pairs * top + pair;
    Regroup(size, pairs, top, pair);
    assert va == size * (2 * above + odd) + o;
    QuotientUnique(va, size, 2 * above + odd, o);
    QuotientUnique(2 * above + odd, 2, above, odd);
  }

  lemma Regroup(size: nat, pairs: nat, top: nat, pair: nat)
    ensures 2 * size * pairs * top + pair * (2 * size) == size * (2 * (pairs * top + pair))
  {
  }

  // ---- which entry, which page of it, which address ----

  /** An entry of region r and pair q claims exactly the addresses of that region and that pair, of
      its own address space unless both halves are global. */
  lemma ClaimsIff(e: Entry, asid: nat, va: u64, size: nat, p: Place, r: nat, q: nat, low: nat)
    requires Maps(e, size) && At(va, size, p)
    requires e.hi == r * K62 + (q * (2 * size) + low) && q * (2 * size) < K40 && low < 2 * size
    ensures ValidPageMask(e.pageMask)
    ensures Matches(e, asid, va) <==>
      p.region == r && p.pair == q && (asid == low % 256 || (e.lo0 % 2 == 1 && e.lo1 % 2 == 1))
  {
    PageSizes(size);
    PlaceParts(va, size, p);
    BelowTop(size, q, low);
    QuotientUnique(e.hi, K62, r, q * (2 * size) + low);
    QuotientUnique(e.hi, K40, r * 0x40_0000, q * (2 * size) + low);
    QuotientUnique(q * (2 * size) + low, 2 * size, q, low);
    AsidLow(e.hi, r, q, size, low);
  }

  lemma AsidLow(hi: nat, r: nat, q: nat, size: nat, low: nat)
    requires PageSize(size) && hi == r * K62 + (q * (2 * size) + low) && low < 2 * size
    ensures hi % 256 == low % 256
  {
    var n := 2 * size;
    Whole(n, K62 / n, r);
    assert hi == n * (r * (K62 / n) + q) + low by {
      assert n * (K62 / n) == K62;
    }
    QuotientUnique(hi, n, r * (K62 / n) + q, low);
    Nested(hi, n, 256, n / 256);
  }

  /** Entry i claims the address and none before it does. */
  predicate FirstMatch(tlb: seq<Entry>, asid: nat, va: u64, i: nat)
    requires ValidTlb(tlb)
  {
    i < TLB_SIZE && Matches(tlb[i], asid, va) && forall j :: 0 <= j < i ==> !Matches(tlb[j], asid, va)
  }

  lemma FindsFirst(tlb: seq<Entry>, asid: nat, va: u64, i: nat)
    requires ValidTlb(tlb) && FirstMatch(tlb, asid, va, i)
    ensures FindFrom(tlb, asid, va, 0) == i
  {
    hide Matches;
  }

  /** The bits of a physical address: those of the offset, below bit 32, with the frame number's or-ed
      in from bit 12 on. */
  ghost predicate FramedBits(pa: nat, pfn: nat, o: nat) {
    forall k: nat :: BitAt(pa, k) <==> k < 32 && (BitAt(o, k) || (k >= 12 && BitAt(pfn, k - 12)))
  }

  /** Of the first entry that claims it, an address in the even page of the pair is mapped by EntryLo0
      and one in the odd page by EntryLo1: Invalid without V, Modified for a store without D, else
      framed by PFN and cached if C is 3. */
  lemma PageOfPair(tlb: seq<Entry>, asid: nat, va: u64, op: Op, i: nat, size: nat, p: Place, w: Lo)
    requires ValidTlb(tlb) && FirstMatch(tlb, asid, va, i) && Maps(tlb[i], size) && At(va, size, p)
    requires InFields(w) && (if p.odd then tlb[i].lo1 else tlb[i].lo0) == LoWord(w)
    ensures var r := Scan(tlb, asid, va, op);
      if !w.v then r == Invalid(i)
      else if op == Store && !w.d then r == Modified(i)
      else r.To? && r.cached == (w.c == 3 && op != Fetch) && FramedBits(r.pa, w.pfn, p.o)
           && (w.pfn % (size / 0x1000) == 0 ==> r.pa == (w.pfn * 0x1000 + p.o) % U32)
  {
    hide Matches, FindFrom, At, FramedBits, LoWord, Pfn, ValidBit, DirtyBit, Cacheable, Or, InFields;
    FindsFirst(tlb, asid, va, i);
    PageParts(va, size, p);
    PageOffset(va, size);
    LoFields(if p.odd then tlb[i].lo1 else tlb[i].lo0, w);
    FrameBitsOf(w.pfn, p.o);
    FrameAdds(w.pfn, size, p.o);
  }

  lemma PageOffset(va: u64, size: nat)
    requires PageSize(size)
    ensures va % size % PAGE == va % PAGE
  {
    Nested(va, size, PAGE, size / PAGE);
  }

  /** A remainder survives a coarser remainder. */
  lemma Nested(x: nat, n: nat, a: nat, b: nat)
    requires a > 0 && b > 0 && n == a * b
    ensures x % n % a == x % a
  {
    var q, o := x / n, x % n;
    Whole(a, b, q);
    QuotientUnique(x, a, q * b + o / a, o % a);
  }

  lemma Whole(a: nat, b: nat, q: nat)
    ensures a * (q * b) == a * b * q
  {
  }

  lemma FrameBitsOf(pfn: nat, o: nat)
    ensures FramedBits((Or(pfn, o / PAGE) * PAGE + o % PAGE) % U32, pfn, o)
  {
    hide BitAt, Pow2, Or;
    PageIsPow2();
    forall k: nat
      ensures BitAt((Or(pfn, o / PAGE) * PAGE + o % PAGE) % U32, k) <==>
        k < 32 && (BitAt(o, k) || (k >= 12 && BitAt(pfn, k - 12)))
    {
      FrameBit(pfn, o / PAGE, o % PAGE, k);
      LowBitsStay(Or(pfn, o / PAGE) * PAGE + o % PAGE, 32, k);
    }
  }

  lemma FrameBit(pfn: nat, page: nat, o: nat, k: nat)
    requires o < PAGE
    ensures BitAt(Or(pfn, page) * PAGE + o, k) <==>
      BitAt(page * PAGE + o, k) || (k >= 12 && BitAt(pfn, k - 12))
  {
    hide BitAt, Pow2, Or;
    PageIsPow2();
    JoinBits(Or(pfn, page), o, 12, k);
    JoinBits(page, o, 12, k);
    if k >= 12 {
      OrBits(pfn, page, k - 12);
    }
  }

  lemma PageIsPow2()
    ensures Pow2(12) == PAGE && Pow2(32) == U32
  {
    assert Pow2(8) == 0x100;
    assert Pow2(16) == 0x10000;
    assert Pow2(24) == 0x100_0000;
  }

  lemma PagesArePow2(size: nat) returns (n: nat)
    requires PageSize(size)
    ensures Pow2(n) == size / 0x1000 && size == Pow2(n) * 0x1000
  {
    n := if size == 0x1000 then 0 else if size == 0x4000 then 2 else if size == 0x1_0000 then 4
         else if size == 0x4_0000 then 6 else if size == 0x10_0000 then 8 else if size == 0x40_0000 then 10 else 12;
    assert Pow2(6) == 64;
  }

  lemma Multiple(x: nat, k: nat)
    requires k > 0 && x % k == 0
    ensures x / k * k == x
  {
  }

  /** A frame number aligned to the page size is added to the offset. */
  lemma FrameAdds(pfn: nat, size: nat, o: nat)
    requires PageSize(size) && o < size
    ensures pfn % (size / 0x1000) == 0 ==> Or(pfn, o / PAGE) * PAGE + o % PAGE == pfn * 0x1000 + o
  {
    var n := PagesArePow2(size);
    hide Pow2, Or, PageSize;
    var k := Pow2(n);
    if pfn % k == 0 {
      Multiple(pfn, k);
      OrAdds(pfn / k, o / PAGE, n);
    }
  }

  // ---- the unmapped segments ----

  /** kseg0 and kseg1, zero- or sign-extended, and xkphys name physical addresses; everything else goes
      through the TLB. */
  lemma Segments(tlb: seq<Entry>, asid: nat, va: u64, op: Op)
    requires ValidTlb(tlb)
    ensures var r := Translate(tlb, asid, va, op);
      if 0x8000_0000 <= va < 0xa000_0000 then r == To(va - 0x8000_0000, op != Fetch)
      else if 0xa000_0000 <= va < 0xc000_0000 then r == To(va - 0xa000_0000, false)
      else if 0x8000_0000_0000_0000 <= va < 0xc000_0000_0000_0000 then r == To(va % U32, false)
      else if 0xffff_ffff_8000_0000 <= va < 0xffff_ffff_a000_0000 then
        r == To(va - 0xffff_ffff_8000_0000, op != Fetch)
      else if 0xffff_ffff_a000_0000 <= va < 0xffff_ffff_c000_0000 then
        r == To(va - 0xffff_ffff_a000_0000, false)
      else r == Scan(tlb, asid, va, op)
  {
    hide Scan;
  }

  // ---- the exceptions ----

  /** Where an access that fails goes and what Cause and EPC say: a refill with EXL clear goes to
      0x80000000, from a 64-bit address 0x80 further, everything else 0x180 further; with BEV set into
      the boot ROM. EPC, with EXL clear, is the instruction or the branch whose slot it is in. */
  lemma ExceptionEntry(m: Mmu, va: u64, op: Op, o: Outcome)
    requires !o.To?
    ensures var r := Take(m, va, op, o);
      && r.cp0.exl && !r.cp0.erl && r.tlbFault && r.cp0.badVAddr == va && r.tlb == m.tlb
      && r.cp0.excCode == (if o.Modified? then 1 else if op == Store then 3 else 2)
      && (if m.cp0.exl then r.cp0.epc == m.cp0.epc && r.cp0.bd == m.cp0.bd
          else r.cp0.bd == m.inDelaySlot && r.cp0.epc == (if m.inDelaySlot then (m.pc - 4) % U64 else m.pc))
      && r.pc == VectorAddress(m.cp0.bev, if o != Refill || m.cp0.exl then 0x180
                  else if va < 0x1_0000_0000 || va >= 0xffff_ffff_0000_0000 then 0 else 0x80)
  {
    hide FaultState, Vector, ExcPc, Compat;
    EpcAt(m);
    FaultStateKeeps(ExcPc(m), va);
    WideAddress(va);
    VectorsAt(m.cp0.bev, o == Refill && !m.cp0.exl, !Compat(va));
  }

  lemma EpcAt(m: Mmu)
    ensures var c := ExcPc(m);
      && c.bev == m.cp0.bev && (m.cp0.exl ==> c == m.cp0)
      && (!m.cp0.exl ==> c.bd == m.inDelaySlot && c.epc == if m.inDelaySlot then (m.pc - 4) % U64 else m.pc)
  {
  }

  lemma FaultStateKeeps(c: Cp0, va: u64)
    ensures var f := FaultState(c, va); f.badVAddr == va && f.epc == c.epc && f.bd == c.bd && f.bev == c.bev
  {
  }

  lemma WideAddress(va: u64)
    ensures Compat(va) <==> va < 0x1_0000_0000 || va >= 0xffff_ffff_0000_0000
  {
  }

  function VectorAddress(bev: bool, offset: nat): nat {
    (if bev then 0xffff_ffff_bfc0_0200 else 0xffff_ffff_8000_0000) + offset
  }

  lemma VectorsAt(bev: bool, refill: bool, wide: bool)
    ensures Vector(bev, refill, wide) == VectorAddress(bev, if !refill then 0x180 else if wide then 0x80 else 0)
  {
  }

  /** The two context registers hold the page table's base and the faulting pair times 16. */
  lemma ContextHolds(c: u64, va: u64, base: nat, was: nat, high: nat, vpn: nat, o: nat)
    requires c == base * 0x80_0000 + was && was < 0x80_0000
    requires va == high * 0x1_0000_0000 + (vpn * 0x2000 + o) && vpn < 0x8_0000 && o < 0x2000
    ensures FaultContext(c, va) == base * 0x80_0000 + vpn * 16
  {
    QuotientUnique(c, 0x80_0000, base, was);
    QuotientUnique(va, 0x2000, high * 0x8_0000 + vpn, o);
    QuotientUnique(high * 0x8_0000 + vpn, 0x8_0000, high, vpn);
  }

  lemma XContextHolds(c: u64, va: u64, base: nat, was: nat, r: nat, gap: nat, vpn: nat, o: nat)
    requires c == base * 0x2_0000_0000 + was && was < 0x2_0000_0000
    requires va == r * K62 + (gap * K40 + (vpn * 0x2000 + o)) && gap < 0x40_0000 && vpn < 0x800_0000 && o < 0x2000
    ensures FaultXContext(c, va) == base * 0x2_0000_0000 + (r * 0x8000_0000 + vpn * 16)
  {
    QuotientUnique(c, 0x2_0000_0000, base, was);
    QuotientUnique(va, K62, r, gap * K40 + (vpn * 0x2000 + o));
    QuotientUnique(va, 0x2000, (r * 0x40_0000 + gap) * 0x800_0000 + vpn, o);
    QuotientUnique((r * 0x40_0000 + gap) * 0x800_0000 + vpn, 0x800_0000, r * 0x40_0000 + gap, vpn);
  }

  // ---- writing an entry ----

  lemma PlainQuiet(m: Mmu, before: seq<Event>, e: Event)
    requires ValidMmu(m) && !e.Access? && !Plain(m, before).stopped
    ensures var t := Plain(m, before);
      Plain(m, before + [e]) == match Quiet(t.m, e) case Done(w) => t.(m := w) case Stopped => t.(stopped := true)
  {
    hide Quiet, ValidMmu;
    assert (before + [e])[..|before|] == before;
  }

  lemma PlainNothing(m: Mmu)
    requires ValidMmu(m)
    ensures Plain(m, []) == Trace([], m, false)
  {
  }

  /** The program that writes an entry: EntryHi, PageMask, both EntryLo and Index, then TLBWI. */
  function Program(hi: u64, page: u64, lo0: u64, lo1: u64, i: nat): seq<Event> {
    [] + [HiWrite(hi)] + [PageWrite(page)] + [LoWrite(lo0, lo1)] + [IndexWrite(i)] + [TlbWI]
  }

  lemma ProgramRuns(m: Mmu, hi: u64, page: u64, lo0: u64, lo1: u64, i: nat)
    requires ValidMmu(m)
    ensures var q := SetIndex(SetEntryLo(SetPageMask(SetEntryHi(m, hi), page), lo0, lo1), i);
      ValidMmu(q) && Plain(m, Program(hi, page, lo0, lo1, i)) ==
      match WriteIndexed(q) case Done(w) => Trace([], w, false) case Stopped => Trace([], q, true)
  {
    hide Plain, MaskHi, MaskPage, ArchHi, ValidTlb, WriteIndexed;
    var e1 := [] + [HiWrite(hi)];
    var e2 := e1 + [PageWrite(page)];
    var e3 := e2 + [LoWrite(lo0, lo1)];
    var e4 := e3 + [IndexWrite(i)];
    PlainNothing(m);
    PlainQuiet(m, [], HiWrite(hi));
    PlainQuiet(m, e1, PageWrite(page));
    PlainQuiet(m, e2, LoWrite(lo0, lo1));
    PlainQuiet(m, e3, IndexWrite(i));
    PlainQuiet(m, e4, TlbWI);
  }

  /** It leaves in entry i R, VPN2 and ASID of the first value, bits 24 to 13 of the second as the page
      mask, and the low 30 bits of the two others; an illegal mask stops the program. */
  lemma WritesEntry(m: Mmu, hi: u64, page: u64, lo0: u64, lo1: u64, i: nat,
                    r: nat, gap: nat, vpn: nat, mid: nat, asid: nat, high: nat, mask: nat, low: nat)
    requires ValidMmu(m) && i < 48
    requires hi == r * K62 + (gap * K40 + (vpn * 0x2000 + (mid * 0x100 + asid)))
    requires r < 4 && gap < 0x40_0000 && vpn < 0x800_0000 && mid < 0x20 && asid < 0x100
    requires page == high * 0x200_0000 + (mask * 0x2000 + low) && mask < 0x1000 && low < 0x2000
    ensures var t := Plain(m, Program(hi, page, lo0, lo1, i));
      if mask * 0x2000 in {0, 0x6000, 0x1e000, 0x7e000, 0x1fe000, 0x7fe000, 0x1ffe000} then
        !t.stopped && t.m.tlb == m.tlb[i := Entry(r * K62 + (vpn * 0x2000 + asid), lo0 % 0x4000_0000, lo1 % 0x4000_0000,
                                                  mask * 0x2000)]
      else t.stopped && t.m.tlb == m.tlb
  {
    hide Plain, Program, MaskHi, MaskPage, ValidMmu, WriteIndexed;
    ProgramRuns(m, hi, page, lo0, lo1, i);
    HiOf(hi, r, gap, vpn, mid, asid);
    MaskOf(page, high, mask, low);
    WritesStaged(SetIndex(SetEntryLo(SetPageMask(SetEntryHi(m, hi), page), lo0, lo1), i), i);
  }

  lemma WritesStaged(m: Mmu, i: nat)
    requires ValidMmu(m) && i < 48 && m.cp0.index == i
    ensures var (w, c) := (WriteIndexed(m), m.cp0);
      if c.pageMask in {0, 0x6000, 0x1e000, 0x7e000, 0x1fe000, 0x7fe000, 0x1ffe000} then
        w.Done? && w.m.tlb == m.tlb[i := Entry(c.entryHi, c.lo0, c.lo1, c.pageMask)]
      else w.Stopped?
  {
    hide ArchHi;
  }

  lemma HiOf(hi: u64, r: nat, gap: nat, vpn: nat, mid: nat, asid: nat)
    requires hi == r * K62 + (gap * K40 + (vpn * 0x2000 + (mid * 0x100 + asid)))
    requires r < 4 && gap < 0x40_0000 && vpn < 0x800_0000 && mid < 0x20 && asid < 0x100
    ensures MaskHi(hi) == r * K62 + (vpn * 0x2000 + asid)
  {
    var low := vpn * 0x2000 + (mid * 0x100 + asid);
    QuotientUnique(hi, K62, r, gap * K40 + low);
    QuotientUnique(hi, K40, r * 0x40_0000 + gap, low);
    QuotientUnique(low, 0x2000, vpn, mid * 0x100 + asid);
    QuotientUnique(hi, 0x100, (r * 0x40_0000 + gap) * 0x1_0000_0000 + vpn * 0x20 + mid, asid);
  }

  lemma MaskOf(page: u64, high: nat, mask: nat, low: nat)
    requires page == high * 0x200_0000 + (mask * 0x2000 + low) && mask < 0x1000 && low < 0x2000
    ensures MaskPage(page) == mask * 0x2000
  {
    QuotientUnique(page, 0x200_0000, high, mask * 0x2000 + low);
    QuotientUnique(mask * 0x2000 + low, 0x2000, mask, low);
  }
}
