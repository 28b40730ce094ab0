/** The R4000 address translation on values: the 48-entry TLB scanned first match first, and the
    micro-TLB in front of it. Bit fields are written with division and remainder. */
module Tlb {
  import opened Words
  import opened Bitwise

  const TLB_SIZE := 48
  const UTLB_SIZE := 64
  const PAGE := 0x1000
  const K40 := 0x100_0000_0000
  const K62 := 0x4000_0000_0000_0000

  /** EntryHi R[63:62] VPN2[39:13] ASID[7:0]; EntryLo PFN[33:6] C[5:3] D[2] V[1] G[0]. */
  datatype Entry = Entry(hi: u64, lo0: u64, lo1: u64, pageMask: nat)

  datatype Op = Fetch | Load | Store

  const PAGE_MASKS: set<nat> := {0, 0x6000, 0x1e000, 0x7e000, 0x1fe000, 0x7fe000, 0x1ffe000}

  /** Only these masks get past a TLB write. */
  predicate ValidPageMask(pm: nat) {
    pm in PAGE_MASKS
  }

  /** Size of the even/odd page pair an entry maps. */
  function Pair(e: Entry): nat {
    e.pageMask + 2 * PAGE
  }

  /** EntryHi as CP0 writes leave it: nothing in [61:40] and [12:8]. */
  predicate ArchHi(hi: u64) {
    hi % K62 < K40 && hi % 0x2000 < 0x100
  }

  predicate ValidEntry(e: Entry) {
    ValidPageMask(e.pageMask) && ArchHi(e.hi)
  }

  predicate ValidTlb(tlb: seq<Entry>) {
    |tlb| == TLB_SIZE && forall i :: 0 <= i < TLB_SIZE ==> ValidEntry(tlb[i])
  }

  function Asid(hi: u64): nat { hi % 256 }

  predicate Global(e: Entry) { e.lo0 % 2 == 1 && e.lo1 % 2 == 1 }

  /** The lookup's match: R, VPN2 above the pair, and ASID unless global. */
  predicate Matches(e: Entry, asid: nat, va: u64)
    requires ValidPageMask(e.pageMask)
  {
    && va % K40 / Pair(e) == e.hi % K40 / Pair(e) && va / K62 == e.hi / K62
    && (Global(e) || asid == Asid(e.hi))
  }

  /** First matching entry from i on; TLB_SIZE when there is none. */
  function FindFrom(tlb: seq<Entry>, asid: nat, va: u64, i: nat): (k: nat)
    requires ValidTlb(tlb) && i <= TLB_SIZE
    ensures i <= k <= TLB_SIZE
    ensures k < TLB_SIZE ==> Matches(tlb[k], asid, va)
    ensures forall j :: i <= j < k ==> !Matches(tlb[j], asid, va)
    decreases TLB_SIZE - i
  {
    if i == TLB_SIZE || Matches(tlb[i], asid, va) then i else FindFrom(tlb, asid, va, i + 1)
  }

  /** The half of the entry the address selects. */
  function Half(e: Entry, va: u64): u64
    requires ValidPageMask(e.pageMask)
  {
    if va / (Pair(e) / 2) % 2 == 1 then e.lo1 else e.lo0
  }

  predicate ValidBit(lo: u64) { lo / 2 % 2 == 1 }
  predicate DirtyBit(lo: u64) { lo / 4 % 2 == 1 }
  predicate Cacheable(lo: u64) { lo / 8 % 8 == 3 }
  function Pfn(lo: u64): nat { lo / 64 % 0x1000_0000 }

  /** The 4 KB frame of an address: the frame number, or-ed with the page offset above 4 KB. */
  function Frame(e: Entry, va: u64): nat
    requires ValidPageMask(e.pageMask)
  {
    Or(Pfn(Half(e, va)), va % (Pair(e) / 2) / PAGE)
  }

  /** What a translation comes to; faults name the entry. Physical addresses are 32-bit words. */
  datatype Outcome = To(pa: nat, cached: bool) | Refill | Invalid(i: nat) | Modified(i: nat)

  function Pa(frame: nat, va: u64): nat {
    (frame * PAGE + va % PAGE) % U32
  }

  /** The mapped part of va_translate without the micro-TLB. */
  function Scan(tlb: seq<Entry>, asid: nat, va: u64, op: Op): Outcome
    requires ValidTlb(tlb)
  {
    var i := FindFrom(tlb, asid, va, 0);
    if i == TLB_SIZE then Refill
    else
      var lo := Half(tlb[i], va);
      if !ValidBit(lo) then Invalid(i)
      else if op == Store && !DirtyBit(lo) then Modified(i)
      else To(Pa(Frame(tlb[i], va), va), Cacheable(lo) && op != Fetch)
  }

  // ---- unmapped segments ----

  predicate Compat(va: u64) {
    va / U32 == 0 || va / U32 == 0xffff_ffff
  }

  /** kseg0, kseg1 and xkphys bypass the TLB. */
  predicate Unmapped(va: u64) {
    if Compat(va) then va % U32 / 0x2000_0000 == 4 || va % U32 / 0x2000_0000 == 5 else va / K62 == 2
  }

  function Direct(va: u64, op: Op): Outcome {
    if Compat(va) then To(va % 0x2000_0000, va % U32 / 0x2000_0000 == 4 && op != Fetch)
    else To(va % U32, false)
  }

  function Translate(tlb: seq<Entry>, asid: nat, va: u64, op: Op): Outcome
    requires ValidTlb(tlb)
  {
    if Unmapped(va) then Direct(va, op) else Scan(tlb, asid, va, op)
  }

  // ---- the micro-TLB ----

  datatype Micro = Micro(vpn: nat, asid: nat, ppn: nat, dirty: bool, valid: bool, cached: bool)

  function Slot(va: u64): (j: nat)
    ensures j < UTLB_SIZE
  {
    va / PAGE % UTLB_SIZE
  }

  predicate MicroHit(m: Micro, asid: nat, va: u64, op: Op) {
    m.valid && m.vpn == va / PAGE && m.asid == asid && !(op == Store && !m.dirty)
  }

  /** What a valid scan leaves in the slot of its page. */
  function MicroOf(e: Entry, asid: nat, va: u64): Micro
    requires ValidPageMask(e.pageMask)
  {
    var lo := Half(e, va);
    Micro(va / PAGE, asid, Frame(e, va) % U32, DirtyBit(lo), true, Cacheable(lo))
  }

  /** va_translate: segments, then the micro-TLB, then the scan, which refills the slot. */
  function FastTranslate(tlb: seq<Entry>, utlb: seq<Micro>, asid: nat, va: u64, op: Op): (r: (Outcome, seq<Micro>))
    requires ValidTlb(tlb) && |utlb| == UTLB_SIZE
    ensures |r.1| == UTLB_SIZE
  {
    var m := utlb[Slot(va)];
    if Unmapped(va) then (Direct(va, op), utlb)
    else if MicroHit(m, asid, va, op) then (To(m.ppn * PAGE % U32 + va % PAGE, m.cached && op != Fetch), utlb)
    else
      var r := Scan(tlb, asid, va, op);
      if r.To? then (r, utlb[Slot(va) := MicroOf(tlb[FindFrom(tlb, asid, va, 0)], asid, va)]) else (r, utlb)
  }

  /** The slot agrees with the scan of its page. */
  predicate MicroOk(tlb: seq<Entry>, m: Micro)
    requires ValidTlb(tlb)
  {
    m.valid ==>
      && m.vpn * PAGE < U64
      && var va := m.vpn * PAGE;
      var i := FindFrom(tlb, m.asid, va, 0);
      i < TLB_SIZE && ValidBit(Half(tlb[i], va)) && m == MicroOf(tlb[i], m.asid, va)
  }

  predicate UtlbOk(tlb: seq<Entry>, utlb: seq<Micro>)
    requires ValidTlb(tlb)
  {
    |utlb| == UTLB_SIZE && forall j :: 0 <= j < UTLB_SIZE ==> MicroOk(tlb, utlb[j])
  }

  // ---- addresses of one 4 KB page are translated alike ----

  /** Division and remainder by k pages see an address only through its page. */
  lemma SamePageDiv(va: nat, k: nat)
    requires k > 0
    ensures var n, base := PAGE * k, va / PAGE * PAGE;
      base / n == va / n == va / PAGE / k && base % n / PAGE == va % n / PAGE == va / PAGE % k
  {
    var p, o := va / PAGE, va % PAGE;
    var q, r := p / k, p % k;
    assert PAGE * p == PAGE * k * q + PAGE * r by {
      assert p == k * q + r;
    }
    QuotientUnique(va, PAGE * k, q, PAGE * r + o);
    QuotientUnique(PAGE * p, PAGE * k, q, PAGE * r);
  }

  /** Half a page pair in pages: 1, 4, 16, ... */
  function PagesOf(e: Entry): (k: nat)
    requires ValidPageMask(e.pageMask)
    ensures k > 0 && Pair(e) == PAGE * (2 * k) && Pair(e) / 2 == PAGE * k
  {
    Pair(e) / (2 * PAGE)
  }

  /** Two addresses of one 4 KB page match alike, select the same half and give the same frame. */
  lemma SamePageEntry(e: Entry, asid: nat, va: u64)
    requires ValidPageMask(e.pageMask)
    ensures var base := va / PAGE * PAGE;
      && Matches(e, asid, base) == Matches(e, asid, va)
      && Half(e, base) == Half(e, va) && Frame(e, base) == Frame(e, va)
  {
    var k, base := PagesOf(e), va / PAGE * PAGE;
    var low := va % K40;
    assert base / K62 == va / K62 && base % K40 == low / PAGE * PAGE by {
      SamePageDiv(va, K62 / PAGE);
      SamePageDiv(va, K40 / PAGE);
      LowPage(va);
    }
    hide Pair, Or;
    SamePageDiv(low, 2 * k);
    SamePageDiv(va, k);
  }

  lemma LowPage(va: nat)
    ensures va / PAGE * PAGE % K40 == va % K40 / PAGE * PAGE
  {
    var h, low := va / K40, va % K40;
    QuotientUnique(va, PAGE, K40 / PAGE * h + low / PAGE, low % PAGE);
    QuotientUnique(K40 * h + low / PAGE * PAGE, K40, h, low / PAGE * PAGE);
  }

  lemma {:induction false} SamePageFind(tlb: seq<Entry>, asid: nat, va: u64, i: nat)
    requires ValidTlb(tlb) && i <= TLB_SIZE
    ensures FindFrom(tlb, asid, va / PAGE * PAGE, i) == FindFrom(tlb, asid, va, i)
    decreases TLB_SIZE - i
  {
    hide Matches;
    if i < TLB_SIZE {
      SamePageEntry(tlb[i], asid, va);
      SamePageFind(tlb, asid, va, i + 1);
    }
  }

  // ---- the micro-TLB never changes an answer ----

  lemma FrameBits(frame: nat, o: nat)
    requires o < PAGE
    ensures (frame * PAGE + o) % U32 == frame % 0x10_0000 * PAGE + o
  {
    QuotientUnique(frame * PAGE + o, U32, frame / 0x10_0000, frame % 0x10_0000 * PAGE + o);
  }

  /** A 32-bit frame number loses nothing of a 32-bit physical address. */
  lemma WrappedPa(frame: nat, va: u64)
    ensures frame % U32 * PAGE % U32 + va % PAGE == Pa(frame, va)
  {
    FrameBits(frame, va % PAGE);
    FrameBits(frame % U32, 0);
    var h, g := frame / U32, frame % U32;
    QuotientUnique(frame, 0x10_0000, U32 / 0x10_0000 * h + g / 0x10_0000, g % 0x10_0000);
  }

  lemma WholePage(va: u64)
    ensures va / PAGE * PAGE / PAGE == va / PAGE
  {
  }

  /** The slot a successful scan leaves holds the answer for every address of the page. */
  lemma SlotOfPage(tlb: seq<Entry>, asid: nat, va: u64)
    requires ValidTlb(tlb)
    ensures var i := FindFrom(tlb, asid, va, 0);
      && FindFrom(tlb, asid, va / PAGE * PAGE, 0) == i
      && (i < TLB_SIZE ==> MicroOf(tlb[i], asid, va / PAGE * PAGE) == MicroOf(tlb[i], asid, va)
                           && Half(tlb[i], va / PAGE * PAGE) == Half(tlb[i], va))
  {
    hide Matches, Half, Frame, DirtyBit, Cacheable, Pair;
    SamePageFind(tlb, asid, va, 0);
    WholePage(va);
    var i := FindFrom(tlb, asid, va, 0);
    if i < TLB_SIZE {
      SamePageEntry(tlb[i], asid, va);
    }
  }

  lemma HitIsScan(tlb: seq<Entry>, m: Micro, asid: nat, va: u64, op: Op)
    requires ValidTlb(tlb)
    ensures MicroOk(tlb, m) && MicroHit(m, asid, va, op) ==>
      To(m.ppn * PAGE % U32 + va % PAGE, m.cached && op != Fetch) == Scan(tlb, asid, va, op)
  {
    hide Matches, Half, Frame, Pa, ValidBit, DirtyBit, Cacheable, Pair;
    SlotOfPage(tlb, asid, va);
    var i := FindFrom(tlb, asid, va, 0);
    if i < TLB_SIZE {
      WrappedPa(Frame(tlb[i], va), va);
    }
  }

  lemma MissFills(tlb: seq<Entry>, asid: nat, va: u64, op: Op)
    requires ValidTlb(tlb) && Scan(tlb, asid, va, op).To?
    ensures MicroOk(tlb, MicroOf(tlb[FindFrom(tlb, asid, va, 0)], asid, va))
  {
    hide Matches, Half, Frame, Pa, ValidBit, DirtyBit, Cacheable, Pair;
    SlotOfPage(tlb, asid, va);
  }

  /** Slots that agree with the scan keep doing so, and translation through them is the scan. */
  lemma FastIsScan(tlb: seq<Entry>, utlb: seq<Micro>, asid: nat, va: u64, op: Op)
    requires ValidTlb(tlb) && UtlbOk(tlb, utlb)
    ensures FastTranslate(tlb, utlb, asid, va, op).0 == Translate(tlb, asid, va, op)
    ensures UtlbOk(tlb, FastTranslate(tlb, utlb, asid, va, op).1)
  {
    hide MicroOk, MicroHit, Scan, Unmapped, Direct, MicroOf, FindFrom;
    var m := utlb[Slot(va)];
    if MicroHit(m, asid, va, op) {
      HitIsScan(tlb, m, asid, va, op);
    }
    if Scan(tlb, asid, va, op).To? {
      MissFills(tlb, asid, va, op);
    }
  }

  lemma EmptyUtlbOk(tlb: seq<Entry>, utlb: seq<Micro>)
    requires ValidTlb(tlb) && |utlb| == UTLB_SIZE && forall j :: 0 <= j < UTLB_SIZE ==> !utlb[j].valid
    ensures UtlbOk(tlb, utlb)
  {
  }
}
