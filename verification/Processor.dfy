/** The translation unit of the processor object: TLB, micro-TLB and CP0 updated in place. */
module Processor {
  import opened Words
  import opened Tlb
  import opened Mmu

  class Cpu {
    const tlb: array<Entry>
    const utlb: array<Micro>
    var cp0: Cp0
    var pc: u64
    var inDelaySlot: bool
    var tlbFault: bool
    var cacheActive: bool

    constructor (cp0: Cp0, pc: u64)
      requires ArchHi(cp0.entryHi)
      ensures Valid() && this.cp0 == cp0 && this.pc == pc && fresh(tlb) && fresh(utlb)
      ensures Flushed()
    {
      tlb := new Entry[TLB_SIZE](_ => Entry(0, 0, 0, 0));
      utlb := new Micro[UTLB_SIZE](_ => Micro(0, 0, 0, false, false, false));
      this.cp0, this.pc := cp0, pc;
      inDelaySlot, tlbFault, cacheActive := false, false, false;
      new;
      assert forall i :: 0 <= i < TLB_SIZE ==> ValidEntry(tlb[i]);
    }

    ghost function M(): Mmu
      reads this, tlb
    {
      Mmu(tlb[..], cp0, pc, inDelaySlot, tlbFault)
    }

    /** The micro-TLB is empty. */
    ghost predicate Flushed()
      reads utlb
    {
      forall j :: 0 <= j < utlb.Length ==> !utlb[j].valid
    }

    ghost predicate Valid()
      reads this, tlb, utlb
    {
      tlb.Length == TLB_SIZE && utlb.Length == UTLB_SIZE && ValidMmu(M()) && UtlbOk(tlb[..], utlb[..])
    }

    method Raise(va: u64, code: nat, refill: bool)
      requires Valid()
      modifies this`cp0, this`pc, this`tlbFault
      ensures M() == RaiseTlb(old(M()), va, code, refill)
    {
      hide FaultHi, FaultContext, FaultXContext, Vector, ValidMmu, UtlbOk;
      var exlWas := cp0.exl;
      SetFaultState(va);
      SetExcPc();
      cp0 := cp0.(excCode := code, exl := true, erl := false);
      pc := Vector(cp0.bev, refill && !exlWas, !Compat(va));
      tlbFault := true;
    }

    method SetFaultState(va: u64)
      modifies this`cp0
      ensures cp0 == FaultState(old(cp0), va)
    {
      cp0 := cp0.(badVAddr := va);
      cp0 := cp0.(entryHi := FaultHi(cp0.entryHi, va));
      cp0 := cp0.(context := FaultContext(cp0.context, va));
      cp0 := cp0.(xcontext := FaultXContext(cp0.xcontext, va));
    }

    method SetExcPc()
      modifies this`cp0
      ensures cp0 == if old(cp0).exl then old(cp0)
                     else if inDelaySlot then old(cp0).(epc := Add(pc, -4), bd := true)
                     else old(cp0).(epc := pc, bd := false)
    {
      if cp0.exl {
        return;
      }
      if inDelaySlot {
        cp0 := cp0.(epc := Add(pc, -4), bd := true);
      } else {
        cp0 := cp0.(epc := pc, bd := false);
      }
    }

    /** First matching entry, scanning from 0. */
    method FindEntry(asid: nat, va: u64) returns (i: nat)
      requires Valid()
      ensures i == FindFrom(tlb[..], asid, va, 0)
    {
      hide Matches;
      i := 0;
      while i < TLB_SIZE && !Matches(tlb[i], asid, va)
        invariant i <= TLB_SIZE && FindFrom(tlb[..], asid, va, 0) == FindFrom(tlb[..], asid, va, i)
      {
        i := i + 1;
      }
    }

    /** va_translate_inner: the physical address, or 0 with the exception taken. */
    method Translate(va: u64, op: Op) returns (pa: nat, ghost o: Outcome)
      requires Valid()
      modifies this, utlb
      ensures Valid()
      ensures o == Tlb.Translate(old(tlb[..]), Asid(old(cp0.entryHi)), va, op)
      ensures M() == Take(old(M()), va, op, o)
      ensures pa == (if o.To? then o.pa else 0) && cacheActive == (o.To? && o.cached)
    {
      hide MicroOf, Matches, Half, Frame, Pa, RaiseTlb, ValidBit, DirtyBit, Cacheable, MicroOk, FindFrom, ArchHi, Compat;
      ghost var slots, asidNow := utlb[..], Asid(cp0.entryHi);
      FastIsScan(tlb[..], utlb[..], Asid(cp0.entryHi), va, op);
      RaiseKeeps(M(), va);
      cacheActive := false;
      if Unmapped(va) {
        o := Direct(va, op);
        cacheActive := Direct(va, op).cached;
        pa := Direct(va, op).pa;
        return;
      }
      var asid := Asid(cp0.entryHi);
      var ce := utlb[Slot(va)];
      if MicroHit(ce, asid, va, op) {
        o := To(ce.ppn * PAGE % U32 + va % PAGE, ce.cached && op != Fetch);
        cacheActive := ce.cached && op != Fetch;
        return ce.ppn * PAGE % U32 + va % PAGE, o;
      }
      var i := FindEntry(asid, va);
      if i == TLB_SIZE {
        Raise(va, if op == Store then 3 else 2, true);
        return 0, Refill;
      }
      var lo := Half(tlb[i], va);
      if !ValidBit(lo) {
        Raise(va, if op == Store then 3 else 2, false);
        return 0, Invalid(i);
      }
      if op == Store && !DirtyBit(lo) {
        Raise(va, 1, false);
        return 0, Modified(i);
      }
      utlb[Slot(va)] := MicroOf(tlb[i], asid, va);
      assert utlb[..] == slots[Slot(va) := MicroOf(tlb[i], asid, va)];
      cacheActive := Cacheable(lo) && op != Fetch;
      return Pa(Frame(tlb[i], va), va), To(Pa(Frame(tlb[i], va), va), Cacheable(lo) && op != Fetch);
    }

    method UtlbFlush()
      requires utlb.Length == UTLB_SIZE
      modifies utlb
      ensures Flushed()
    {
      for i := 0 to UTLB_SIZE
        invariant forall j :: 0 <= j < i ==> !utlb[j].valid
      {
        utlb[i] := utlb[i].(valid := false);
      }
    }

    /** Store the staged entry; an illegal page mask stops the program (`ok` false). */
    method Install(i: nat) returns (ok: bool)
      requires Valid()
      modifies tlb, utlb
      ensures ok == WriteAt(old(M()), i).Done?
      ensures ok ==> Valid() && M() == WriteAt(old(M()), i).m && Flushed()
    {
      hide Matches, MicroOk;
      ghost var was := tlb[..];
      if i < TLB_SIZE {
        if !ValidPageMask(cp0.pageMask) {
          return false;
        }
        tlb[i] := Staged(cp0);
        assert tlb[..] == was[i := Staged(cp0)];
      }
      UtlbFlush();
      EmptyUtlbOk(tlb[..], utlb[..]);
      ok := true;
    }

    method TlbWriteIndexed() returns (ok: bool)
      requires Valid()
      modifies tlb, utlb
      ensures ok == WriteIndexed(old(M())).Done?
      ensures ok ==> Valid() && M() == WriteIndexed(old(M())).m && Flushed()
    {
      ok := Install(cp0.index % 64);
    }

    method TlbWriteRandom() returns (ok: bool)
      requires Valid()
      modifies this`cp0, tlb, utlb
      ensures ok == WriteRandom(old(M())).Done?
      ensures ok ==> Valid() && M() == WriteRandom(old(M())).m && Flushed()
    {
      hide UtlbOk, WriteAt, ArchHi;
      ok := Install(cp0.random % 64);
      var wired, random := cp0.wired % 64, cp0.random % 64;
      if ok {
        cp0 := cp0.(random := if random <= wired then TLB_SIZE - 1 else random - 1);
      }
    }

    method TlbRead()
      requires Valid()
      modifies this`cp0
      ensures Valid() && M() == ReadEntry(old(M()))
    {
      hide UtlbOk;
      var i := cp0.index % 64;
      if i < TLB_SIZE {
        cp0 := cp0.(entryHi := tlb[i].hi, lo0 := tlb[i].lo0, lo1 := tlb[i].lo1);
        cp0 := cp0.(pageMask := tlb[i].pageMask);
      }
    }

    method FindProbe() returns (i: nat)
      requires Valid()
      ensures i == ProbeFrom(tlb[..], cp0.entryHi, 0)
    {
      hide Probes, UtlbOk, ArchHi;
      i := 0;
      while i < TLB_SIZE && !Probes(tlb[i], cp0.entryHi)
        invariant i <= TLB_SIZE && ProbeFrom(tlb[..], cp0.entryHi, 0) == ProbeFrom(tlb[..], cp0.entryHi, i)
      {
        i := i + 1;
      }
    }

    method TlbProbe()
      requires Valid()
      modifies this`cp0
      ensures Valid() && M() == Probe(old(M()))
    {
      hide UtlbOk, ArchHi, ProbeFrom;
      var i := FindProbe();
      cp0 := if i < TLB_SIZE then cp0.(index := i, probeFailed := false) else cp0.(probeFailed := true);
    }

    method ExceptionReturn()
      requires Valid()
      modifies this`cp0, this`pc
      ensures Valid() && M() == Eret(old(M()))
    {
      hide UtlbOk;
      if cp0.erl {
        pc, cp0 := cp0.errorEpc, cp0.(erl := false);
      } else {
        pc, cp0 := cp0.epc, cp0.(exl := false);
      }
    }
  }
}
