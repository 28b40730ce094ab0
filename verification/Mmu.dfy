/** CP0 and the TLB instructions on values: fault state, exception entry and return, TLBR, TLBWI,
    TLBWR and TLBP, and what a whole run of them keeps. */
module Mmu {
  import opened Words
  import opened Tlb

  /** Status and Cause are kept as the fields exceptions use. */
  datatype Cp0 = Cp0(
    index: nat, probeFailed: bool, random: nat, wired: nat,
    entryHi: u64, lo0: u64, lo1: u64, pageMask: nat,
    badVAddr: u64, context: u64, xcontext: u64, epc: u64, errorEpc: u64,
    bd: bool, excCode: nat, exl: bool, erl: bool, bev: bool)

  datatype Mmu = Mmu(tlb: seq<Entry>, cp0: Cp0, pc: u64, inDelaySlot: bool, tlbFault: bool)

  predicate ValidMmu(m: Mmu) {
    ValidTlb(m.tlb) && ArchHi(m.cp0.entryHi)
  }

  // ---- CP0 writes ----

  function Sext32(v: nat): u64 {
    var w := v % U32;
    if w < 0x8000_0000 then w else w + (U64 - U32)
  }

  function Add(a: u64, d: int): u64 {
    (a + d) % U64
  }

  lemma HiParts(r: nat, vpn: nat, asid: nat)
    requires r < 4 && vpn < K40 / 0x2000 && asid < 256
    ensures var hi := r * K62 + (vpn * 0x2000 + asid);
      && hi < U64 && hi / K62 == r && hi % K62 == vpn * 0x2000 + asid < K40
      && hi % K40 / 0x2000 == vpn && hi % 0x2000 == asid && hi % 256 == asid
  {
    var low := vpn * 0x2000 + asid;
    var hi := r * K62 + low;
    QuotientUnique(hi, K62, r, low);
    QuotientUnique(hi, K40, K62 / K40 * r, low);
    QuotientUnique(low, 0x2000, vpn, asid);
    QuotientUnique(hi, 0x2000, K62 / 0x2000 * r + vpn, asid);
    QuotientUnique(hi, 256, K62 / 256 * r + 32 * vpn, asid);
  }

  /** EntryHi with the reserved fields dropped: R, VPN2 and ASID stay. */
  function MaskHi(v: u64): (r: u64)
    ensures ArchHi(r)
    ensures r / K62 == v / K62 && r % K40 / 0x2000 == v % K40 / 0x2000 && Asid(r) == Asid(v)
  {
    HiParts(v / K62, v % K40 / 0x2000, v % 0x100);
    v / K62 * K62 + (v % K40 / 0x2000 * 0x2000 + v % 0x100)
  }

  function MaskPage(v: u64): nat { v % 0x200_0000 / 0x2000 * 0x2000 }
  function MaskLo(v: u64): u64 { v % 0x4000_0000 }

  /** MTC0 and DMTC0 of the TLB registers. */
  function SetEntryHi(m: Mmu, v: u64): (r: Mmu)
    ensures ValidTlb(m.tlb) ==> ValidMmu(r)
  {
    m.(cp0 := m.cp0.(entryHi := MaskHi(v)))
  }

  function SetPageMask(m: Mmu, v: u64): Mmu { m.(cp0 := m.cp0.(pageMask := MaskPage(v))) }
  function SetEntryLo(m: Mmu, lo0: u64, lo1: u64): Mmu { m.(cp0 := m.cp0.(lo0 := MaskLo(lo0), lo1 := MaskLo(lo1))) }
  function SetIndex(m: Mmu, v: nat): Mmu {
    m.(cp0 := m.cp0.(index := v % 0x8000_0000, probeFailed := v / 0x8000_0000 % 2 == 1))
  }

  // ---- exceptions ----

  /** EntryHi of a faulting address: R and VPN2 of the address, ASID kept. */
  function FaultHi(hi: u64, va: u64): (r: u64)
    ensures ArchHi(r) && Asid(r) == Asid(hi) && r / K62 == va / K62
    ensures r % K40 / 0x2000 == va % K40 / 0x2000
  {
    var low := va % K40 / 0x2000 * 0x2000 + Asid(hi);
    HiParts(va / K62, va % K40 / 0x2000, Asid(hi));
    va / K62 * K62 + low
  }

  /** Context: PTEBase kept, VA[31:13] at bit 4. */
  function FaultContext(c: u64, va: u64): u64 {
    c / 0x80_0000 * 0x80_0000 + va / 0x2000 % 0x8_0000 * 16
  }

  /** XContext: PTEBase kept, R at bit 31, VA[39:13] at bit 4. */
  function FaultXContext(c: u64, va: u64): u64 {
    c / 0x2_0000_0000 * 0x2_0000_0000 + va / K62 * 0x8000_0000 + va / 0x2000 % 0x800_0000 * 16
  }

  /** tlb_set_fault_state. */
  function FaultState(c: Cp0, va: u64): Cp0 {
    c.(badVAddr := va, entryHi := FaultHi(c.entryHi, va),
       context := FaultContext(c.context, va), xcontext := FaultXContext(c.xcontext, va))
  }

  /** set_exc_pc: EPC and BD move only when EXL is clear. */
  function ExcPc(m: Mmu): (c: Cp0)
    ensures m.cp0.exl ==> c == m.cp0
  {
    if m.cp0.exl then m.cp0
    else if m.inDelaySlot then m.cp0.(epc := Add(m.pc, -4), bd := true)
    else m.cp0.(epc := m.pc, bd := false)
  }

  function Vector(bev: bool, refill: bool, xtlb: bool): u64 {
    var base := if bev then 0xBFC0_0200 else 0x8000_0000;
    Sext32(base + if !refill then 0x180 else if xtlb then 0x80 else 0)
  }

  /** raise_tlb. */
  function RaiseTlb(m: Mmu, va: u64, code: nat, refill: bool): Mmu {
    var was := m.cp0.exl;
    var c := FaultState(ExcPc(m), va);
    m.(cp0 := c.(excCode := code, exl := true, erl := false),
       pc := Vector(c.bev, refill && !was, !Compat(va)), tlbFault := true)
  }

  /** The state after a translation that came to outcome o: unchanged, or the exception taken. */
  function Take(m: Mmu, va: u64, op: Op, o: Outcome): Mmu {
    match o
    case To(_, _) => m
    case Refill => RaiseTlb(m, va, if op == Store then 3 else 2, true)
    case Invalid(_) => RaiseTlb(m, va, if op == Store then 3 else 2, false)
    case Modified(_) => RaiseTlb(m, va, 1, false)
  }

  /** ERET. */
  function Eret(m: Mmu): Mmu {
    if m.cp0.erl then m.(pc := m.cp0.errorEpc, cp0 := m.cp0.(erl := false))
    else m.(pc := m.cp0.epc, cp0 := m.cp0.(exl := false))
  }

  // ---- TLB instructions ----

  function Staged(c: Cp0): Entry {
    Entry(c.entryHi, c.lo0, c.lo1, c.pageMask)
  }

  /** TLBR. */
  function ReadEntry(m: Mmu): (r: Mmu)
    requires ValidMmu(m)
    ensures ValidMmu(r)
  {
    var i := m.cp0.index % 64;
    if i < TLB_SIZE then
      var e := m.tlb[i];
      m.(cp0 := m.cp0.(entryHi := e.hi, lo0 := e.lo0, lo1 := e.lo1, pageMask := e.pageMask))
    else m
  }

  /** A TLB write asserts the page mask it stores; an illegal one stops the program. */
  datatype Written = Done(m: Mmu) | Stopped

  function WriteAt(m: Mmu, i: nat): (r: Written)
    requires ValidMmu(m)
    ensures r.Done? ==> ValidMmu(r.m)
  {
    if i >= TLB_SIZE then Done(m)
    else if ValidPageMask(m.cp0.pageMask) then Done(m.(tlb := m.tlb[i := Staged(m.cp0)]))
    else Stopped
  }

  /** TLBWI. */
  function WriteIndexed(m: Mmu): (r: Written)
    requires ValidMmu(m)
    ensures r.Done? ==> ValidMmu(r.m)
  {
    WriteAt(m, m.cp0.index % 64)
  }

  /** TLBWR; Random counts down to Wired and wraps to the last entry. */
  function WriteRandom(m: Mmu): (r: Written)
    requires ValidMmu(m)
    ensures r.Done? ==> ValidMmu(r.m)
  {
    var wired, random := m.cp0.wired % 64, m.cp0.random % 64;
    match WriteAt(m, random)
    case Done(w) => Done(w.(cp0 := w.cp0.(random := if random <= wired then TLB_SIZE - 1 else random - 1)))
    case Stopped => Stopped
  }

  /** TLBP's own match: the whole of EntryHi above the page pair. */
  predicate Probes(e: Entry, hi: u64)
    requires ValidPageMask(e.pageMask)
  {
    hi / Pair(e) == e.hi / Pair(e) && (Global(e) || Asid(hi) == Asid(e.hi))
  }

  function ProbeFrom(tlb: seq<Entry>, hi: u64, i: nat): (k: nat)
    requires ValidTlb(tlb) && i <= TLB_SIZE
    ensures i <= k <= TLB_SIZE
    ensures k < TLB_SIZE ==> Probes(tlb[k], hi)
    ensures forall j :: i <= j < k ==> !Probes(tlb[j], hi)
    decreases TLB_SIZE - i
  {
    if i == TLB_SIZE || Probes(tlb[i], hi) then i else ProbeFrom(tlb, hi, i + 1)
  }

  /** TLBP: index and P clear on a match, P set and the index kept otherwise. */
  function Probe(m: Mmu): (r: Mmu)
    requires ValidMmu(m)
    ensures ValidMmu(r)
  {
    var k := ProbeFrom(m.tlb, m.cp0.entryHi, 0);
    m.(cp0 := if k < TLB_SIZE then m.cp0.(index := k, probeFailed := false) else m.cp0.(probeFailed := true))
  }

  // ---- a probe after a fault finds what the lookup found ----

  /** An architectural EntryHi splits at any page pair. */
  lemma HiQuotient(hi: u64, k: nat)
    requires k > 0 && K40 % (0x2000 * k) == 0 && K62 % (0x2000 * k) == 0 && hi % K62 < K40
    ensures var p := 0x2000 * k;
      hi / p == hi / K62 * (K62 / p) + hi % K40 / p && 0 <= hi % K40 / p < K62 / p
  {
    var p := 0x2000 * k;
    var c := K62 / p;
    var r, x := hi / K62, hi % K62;
    assert x == hi % K40;
    var u, v := x / p, x % p;
    assert K62 == p * c;
    assert hi == p * (r * c + u) + v by {
      assert hi == K62 * r + x && x == p * u + v;
      assert p * (r * c + u) == p * c * r + p * u;
    }
    QuotientUnique(hi, p, r * c + u, v);
    if u >= c {
      MulMono(p, c, u);
    }
  }

  /** After a fault at va, TLBP matches an entry exactly when the lookup did. */
  lemma ProbesIsMatches(e: Entry, hi: u64, va: u64)
    requires ValidEntry(e)
    ensures Probes(e, FaultHi(hi, va)) == Matches(e, Asid(hi), va)
  {
    var f, k := FaultHi(hi, va), PagesOf(e);
    PairDivides(e);
    hide FaultHi, Pair, PagesOf, Global;
    HiQuotient(f, k);
    HiQuotient(e.hi, k);
    var p := 0x2000 * k;
    SamePairs(f % K40, va % K40, k);
    if f / p == e.hi / p {
      SameQuotient(K62 / p, f / K62, f % K40 / p, e.hi / K62, e.hi % K40 / p);
    }
  }

  lemma PairDivides(e: Entry)
    requires ValidPageMask(e.pageMask)
    ensures var p := Pair(e); K40 % p == 0 && K62 % p == 0 && p == 0x2000 * PagesOf(e)
  {
  }

  lemma SamePairs(a: nat, b: nat, k: nat)
    requires k > 0 && a / 0x2000 == b / 0x2000
    ensures a / (0x2000 * k) == b / (0x2000 * k)
  {
    var q, r := a / 0x2000 / k, a / 0x2000 % k;
    assert 0x2000 * (a / 0x2000) == 0x2000 * k * q + 0x2000 * r by {
      assert a / 0x2000 == k * q + r;
    }
    QuotientUnique(a, 0x2000 * k, q, 0x2000 * r + a % 0x2000);
    QuotientUnique(b, 0x2000 * k, q, 0x2000 * r + b % 0x2000);
  }

  lemma {:induction false} ProbeIsFind(tlb: seq<Entry>, hi: u64, va: u64, i: nat)
    requires ValidTlb(tlb) && i <= TLB_SIZE
    ensures ProbeFrom(tlb, FaultHi(hi, va), i) == FindFrom(tlb, Asid(hi), va, i)
    decreases TLB_SIZE - i
  {
    hide Probes, Matches, FaultHi;
    if i < TLB_SIZE {
      ProbesIsMatches(tlb[i], hi, va);
      ProbeIsFind(tlb, hi, va, i + 1);
    }
  }

  /** What a TLB exception keeps: the entries, the index, and the form of EntryHi. */
  lemma RaiseKeeps(m: Mmu, va: u64)
    ensures forall code, refill :: var f := RaiseTlb(m, va, code, refill);
      && f.tlb == m.tlb && f.cp0.entryHi == FaultHi(m.cp0.entryHi, va) && ArchHi(f.cp0.entryHi)
      && f.cp0.index == m.cp0.index && f.cp0.probeFailed == m.cp0.probeFailed
  {
    hide FaultHi, FaultContext, FaultXContext, Vector, ArchHi;
  }

  /** TLBP right after a fault: no match after a Refill, the faulting entry after an Invalid or a
      Modified exception. */
  lemma ProbeAfterFault(m: Mmu, va: u64, op: Op)
    requires ValidMmu(m) && !Unmapped(va)
    ensures var o := Translate(m.tlb, Asid(m.cp0.entryHi), va, op);
      var f := Take(m, va, op, o);
      && ValidMmu(f)
      && (o == Refill ==> Probe(f).cp0.probeFailed && Probe(f).cp0.index == m.cp0.index)
      && (o.Invalid? || o.Modified? ==> !Probe(f).cp0.probeFailed && Probe(f).cp0.index == o.i)
  {
    hide FindFrom, ProbeFrom, FaultHi, RaiseTlb, Half, Frame, Pa, ValidBit, DirtyBit, ArchHi, ValidTlb, Unmapped, Asid;
    ProbeIsFind(m.tlb, m.cp0.entryHi, va, 0);
    RaiseKeeps(m, va);
  }

  // ---- whole runs, with and without the micro-TLB ----

  /** What a program does to the translation state. `Move` stands for everything else it executes. */
  datatype Event = Access(va: u64, op: Op) | HiWrite(v: u64) | PageWrite(v: u64) | LoWrite(lo0: u64, lo1: u64)
                 | IndexWrite(index: nat) | TlbR | TlbWI | TlbWR | TlbP | Return | Move(pc: u64, inDelaySlot: bool)
                 | EpcWrite(epc: u64) | StatusWrite(exl: bool, erl: bool, bev: bool) | CauseWrite(bd: bool, code: nat)

  /** Outcomes of the accesses so far, the state, and whether an illegal page mask stopped the run. */
  datatype Trace = Trace(outs: seq<Outcome>, m: Mmu, stopped: bool)

  /** MTC0 and DMTC0 of EPC, Status and Cause. */
  function SetControl(m: Mmu, e: Event): (r: Mmu)
    ensures r == m.(cp0 := r.cp0) && r.cp0.entryHi == m.cp0.entryHi
  {
    match e
    case EpcWrite(v) => m.(cp0 := m.cp0.(epc := v))
    case StatusWrite(exl, erl, bev) => m.(cp0 := m.cp0.(exl := exl, erl := erl, bev := bev))
    case CauseWrite(bd, code) => m.(cp0 := m.cp0.(bd := bd, excCode := code))
    case _ => m
  }

  /** The instructions that do not translate. */
  function Quiet(m: Mmu, e: Event): (r: Written)
    requires ValidMmu(m) && !e.Access?
    ensures r.Done? ==> ValidMmu(r.m)
    ensures r.Done? && !e.TlbWI? && !e.TlbWR? ==> r.m.tlb == m.tlb
  {
    match e
    case HiWrite(v) => Done(SetEntryHi(m, v))
    case PageWrite(v) => Done(SetPageMask(m, v))
    case LoWrite(lo0, lo1) => Done(SetEntryLo(m, lo0, lo1))
    case IndexWrite(v) => Done(SetIndex(m, v))
    case TlbR => Done(ReadEntry(m))
    case TlbWI => WriteIndexed(m)
    case TlbWR => WriteRandom(m)
    case TlbP => Done(Probe(m))
    case Return => Done(Eret(m))
    case Move(pc, slot) => Done(m.(pc := pc, inDelaySlot := slot, tlbFault := false))
    case _ => Done(SetControl(m, e))
  }

  function Plain(m: Mmu, events: seq<Event>): (t: Trace)
    requires ValidMmu(m)
    ensures ValidMmu(t.m)
  {
    if events == [] then Trace([], m, false)
    else
      var n := |events| - 1;
      var t := Plain(m, events[..n]);
      if t.stopped then t
      else if events[n].Access? then
        var o := Translate(t.m.tlb, Asid(t.m.cp0.entryHi), events[n].va, events[n].op);
        TakeKeepsValid(t.m, events[n].va, events[n].op, o);
        Trace(t.outs + [o], Take(t.m, events[n].va, events[n].op, o), false)
      else
        match Quiet(t.m, events[n])
        case Done(w) => t.(m := w)
        case Stopped => t.(stopped := true)
  }

  function Flush(utlb: seq<Micro>): (r: seq<Micro>)
    requires |utlb| == UTLB_SIZE
    ensures |r| == UTLB_SIZE && forall j :: 0 <= j < UTLB_SIZE ==> !r[j].valid
  {
    seq(UTLB_SIZE, j requires 0 <= j < UTLB_SIZE => utlb[j].(valid := false))
  }

  /** The same with the micro-TLB in front, flushed by every TLB write. */
  function Fast(m: Mmu, utlb: seq<Micro>, events: seq<Event>): (t: (Trace, seq<Micro>))
    requires ValidMmu(m) && |utlb| == UTLB_SIZE
    ensures ValidMmu(t.0.m) && |t.1| == UTLB_SIZE
  {
    if events == [] then (Trace([], m, false), utlb)
    else
      var n := |events| - 1;
      var (t, u) := Fast(m, utlb, events[..n]);
      if t.stopped then (t, u)
      else if events[n].Access? then
        var (o, u) := FastTranslate(t.m.tlb, u, Asid(t.m.cp0.entryHi), events[n].va, events[n].op);
        TakeKeepsValid(t.m, events[n].va, events[n].op, o);
        (Trace(t.outs + [o], Take(t.m, events[n].va, events[n].op, o), false), u)
      else
        match Quiet(t.m, events[n])
        case Done(w) => (t.(m := w), if events[n].TlbWI? || events[n].TlbWR? then Flush(u) else u)
        case Stopped => (t.(stopped := true), u)
  }

  lemma TakeKeepsValid(m: Mmu, va: u64, op: Op, o: Outcome)
    requires ValidMmu(m)
    ensures ValidMmu(Take(m, va, op, o)) && Take(m, va, op, o).tlb == m.tlb
  {
    hide RaiseTlb;
    RaiseKeeps(m, va);
  }

  /** For every run of accesses, faults, ASID changes and TLB writes from an empty micro-TLB, each
      access comes to what scanning the 48 entries gives. */
  lemma {:induction false} MicroTlbIsInvisible(m: Mmu, utlb: seq<Micro>, events: seq<Event>)
    requires ValidMmu(m) && |utlb| == UTLB_SIZE && forall j :: 0 <= j < UTLB_SIZE ==> !utlb[j].valid
    ensures var f := Fast(m, utlb, events); f.0 == Plain(m, events) && UtlbOk(f.0.m.tlb, f.1)
  {
    hide Take, FastTranslate, Translate, MicroOk, Quiet, ValidMmu;
    if events == [] {
      ValidParts(m);
      EmptyUtlbOk(m.tlb, utlb);
    } else {
      var n, e := |events| - 1, events[|events| - 1];
      MicroTlbIsInvisible(m, utlb, events[..n]);
      var (t, u) := Fast(m, utlb, events[..n]);
      ValidParts(t.m);
      if !t.stopped && e.Access? {
        FastIsScan(t.m.tlb, u, Asid(t.m.cp0.entryHi), e.va, e.op);
        TakeKeepsValid(t.m, e.va, e.op, Translate(t.m.tlb, Asid(t.m.cp0.entryHi), e.va, e.op));
      } else if !t.stopped && (e.TlbWI? || e.TlbWR?) && Quiet(t.m, e).Done? {
        ValidParts(Quiet(t.m, e).m);
        EmptyUtlbOk(Quiet(t.m, e).m.tlb, Flush(u));
      }
    }
  }

  lemma ValidParts(m: Mmu)
    requires ValidMmu(m)
    ensures ValidTlb(m.tlb)
  {
  }
}
