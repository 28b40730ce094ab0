/** Instruction execution on values: loads, stores and branches with their delay slots, over the
    translation state, precise enough for faults and their retry. */
module Hart {
  import opened Words
  import opened ByteOrder
  import opened Memory
  import opened Unaligned
  import opened Tlb
  import opened Mmu

  type RegName = r: int | 0 <= r < 32

  datatype MemOp = LW | LD | SW | SD | LWL | LWR | LDL | LDR | SWL | SWR | SDL | SDR

  datatype Cond = Eq | Ne | Lez | Gtz | Ltz | Gez

  /** `imm` is the sign-extended immediate; of a branch, the byte displacement. */
  datatype Inst =
    | Addiu(rt: RegName, rs: RegName, imm: int)
    | Access(op: MemOp, rt: RegName, rs: RegName, imm: int)
    | Branch(cond: Cond, likely: bool, link: bool, rs: RegName, rt: RegName, imm: int)

  /** The instruction word at each address. */
  type Code = u64 -> Inst

  datatype Hart = Hart(gpr: seq<u64>, mem: seq<u8>, route: bool, mmu: Mmu)

  predicate ValidHart(h: Hart) {
    |h.gpr| == 32 && |h.mem| == DRAM_SIZE && ValidMmu(h.mmu)
  }

  // ---- exceptions of an instruction ----

  /** set_exc_pc and raise_common: an exception that is not a TLB exception. */
  function RaisePlain(m: Mmu, code: nat): (r: Mmu)
    requires ValidMmu(m)
    ensures ValidMmu(r)
  {
    m.(cp0 := ExcPc(m).(excCode := code, exl := true, erl := false), pc := Vector(m.cp0.bev, false, false))
  }

  function Advance(m: Mmu, d: int): (r: Mmu)
    ensures ValidMmu(m) ==> ValidMmu(r)
  {
    m.(pc := Add(m.pc, d))
  }

  // ---- loads and stores ----

  predicate Stores(op: MemOp) {
    op == SW || op == SD || op == SWL || op == SWR || op == SDL || op == SDR
  }

  function Kind(op: MemOp): Op {
    if Stores(op) then Store else Load
  }

  function Size(op: MemOp): (n: nat)
    ensures Width(n)
  {
    if op == LD || op == SD || op == LDL || op == LDR || op == SDL || op == SDR then 8 else 4
  }

  /** Only the plain loads and stores demand alignment. */
  predicate Misaligned(op: MemOp, ea: u32) {
    (op == LW || op == SW || op == LD || op == SD) && ea % Size(op) != 0
  }

  function Loaded(op: MemOp, mem: seq<u8>, route: bool, ea: u32, x: u64): u64
    requires |mem| == DRAM_SIZE
  {
    var n := Size(op);
    var v :=
      if op == LWL || op == LDL then LoadLeft(mem, route, ea, n, x)
      else if op == LWR || op == LDR then LoadRight(mem, route, ea, n, x)
      else Extend(n, ReadAligned(mem, Aligned(route, ea, n), n));
    v % U64
  }

  function Stored(op: MemOp, mem: seq<u8>, route: bool, ea: u32, x: u64): (m: seq<u8>)
    requires |mem| == DRAM_SIZE
    ensures |m| == DRAM_SIZE
  {
    var n := Size(op);
    if op == SWL || op == SDL then StoreLeft(mem, route, ea, n, x)
    else if op == SWR || op == SDR then StoreRight(mem, route, ea, n, x)
    else WriteAligned(mem, Aligned(route, ea, n), n, KeepLow(x, n))
  }

  function Lookup(h: Hart, va: u64, op: Op): Outcome
    requires ValidHart(h)
  {
    Translate(h.mmu.tlb, Asid(h.mmu.cp0.entryHi), va, op)
  }

  /** The exception of a failed translation. */
  function Trap(h: Hart, va: u64, op: Op): (r: Hart)
    requires ValidHart(h)
    ensures ValidHart(r)
  {
    TakeKeepsValid(h.mmu, va, op, Lookup(h, va, op));
    h.(mmu := Take(h.mmu, va, op, Lookup(h, va, op)))
  }

  function DoAccess(h: Hart, op: MemOp, rt: RegName, rs: RegName, imm: int): (r: Hart)
    requires ValidHart(h)
    ensures ValidHart(r)
  {
    var va := Add(h.gpr[rs], imm);
    var kind := Kind(op);
    match Lookup(h, va, kind)
    case To(pa, _) =>
      var ea := ToU32(pa);
      if Misaligned(op, ea) then h.(mmu := RaisePlain(h.mmu, if Stores(op) then 5 else 4))
      else if Stores(op) then h.(mem := Stored(op, h.mem, h.route, ea, h.gpr[rt]), mmu := Advance(h.mmu, 4))
      else h.(gpr := h.gpr[rt := Loaded(op, h.mem, h.route, ea, h.gpr[rt])], mmu := Advance(h.mmu, 4))
    case _ => Trap(h, va, kind)
  }

  /** Every instruction but a branch. */
  function Simple(h: Hart, i: Inst): (r: Hart)
    requires ValidHart(h) && !i.Branch?
    ensures ValidHart(r)
  {
    match i
    case Addiu(rt, rs, imm) => h.(gpr := h.gpr[rt := Sext32((h.gpr[rs] + imm) % U32)], mmu := Advance(h.mmu, 4))
    case Access(op, rt, rs, imm) => DoAccess(h, op, rt, rs, imm)
  }

  // ---- branches ----

  predicate Negative(x: u64) { x >= 0x8000_0000_0000_0000 }

  predicate Taken(c: Cond, rs: u64, rt: u64) {
    match c
    case Eq => rt == rs
    case Ne => rt != rs
    case Lez => Negative(rs) || rs == 0
    case Gtz => !Negative(rs) && rs != 0
    case Ltz => Negative(rs)
    case Gez => !Negative(rs)
  }

  /** execMips begins by clearing register 0 and the fault flag. */
  function Begin(h: Hart): (r: Hart)
    requires ValidHart(h)
    ensures ValidHart(r)
  {
    h.(gpr := h.gpr[0 := 0], mmu := h.mmu.(tlbFault := false))
  }

  lemma BeginKeeps(h: Hart)
    requires ValidHart(h)
    ensures Begin(h).mmu.pc == h.mmu.pc && !Begin(h).mmu.tlbFault && Begin(h).mmu.cp0 == h.mmu.cp0
  {
  }

  function EnterSlot(h: Hart): (r: Hart)
    requires ValidHart(h)
    ensures ValidHart(r)
  {
    h.(mmu := h.mmu.(inDelaySlot := true))
  }

  datatype Result = Ran(h: Hart) | Undefined

  /** run_delay_slot; a branch in a delay slot is left undefined. */
  function RunSlot(h: Hart, code: Code): (r: Result)
    requires ValidHart(h)
    ensures r.Ran? ==> ValidHart(r.h)
  {
    var s := Begin(EnterSlot(h));
    if !Lookup(s, s.mmu.pc, Fetch).To? then Ran(Leave(Trap(s, s.mmu.pc, Fetch), h))
    else if code(s.mmu.pc).Branch? then Undefined
    else Ran(Leave(Simple(s, code(s.mmu.pc)), h))
  }

  /** The delay-slot flag as it was before. */
  function Leave(s: Hart, h: Hart): (r: Hart)
    requires ValidHart(s)
    ensures ValidHart(r)
  {
    s.(mmu := s.mmu.(inDelaySlot := h.mmu.inDelaySlot))
  }

  /** What run_delay_slot tells the branch: EXL went from clear to set. */
  predicate SlotFaulted(before: Hart, after: Hart) {
    !before.mmu.cp0.exl && after.mmu.cp0.exl
  }

  function Goto(h: Hart, pc: u64): (r: Hart)
    requires ValidHart(h)
    ensures ValidHart(r)
  {
    h.(mmu := h.mmu.(pc := pc))
  }

  function Link(h: Hart, on: bool, pc: u64): (r: Hart)
    requires ValidHart(h)
    ensures ValidHart(r)
  {
    if on then h.(gpr := h.gpr[31 := Add(pc, 8)]) else h
  }

  /** branch: a likely branch links first and skips its slot when not taken; the others link after
      their slot. */
  function DoBranch(h: Hart, b: Inst, code: Code): (r: Result)
    requires ValidHart(h) && b.Branch?
    ensures r.Ran? ==> ValidHart(r.h)
  {
    var pc := h.mmu.pc;
    var taken := Taken(b.cond, h.gpr[b.rs], h.gpr[b.rt]);
    var slot := Goto(h, Add(pc, 4));
    if b.likely then
      var linked := Link(slot, b.link, pc);
      if !taken then Ran(Goto(linked, Add(Add(pc, 4), 4)))
      else
        match RunSlot(linked, code)
        case Ran(t) => Ran(if SlotFaulted(linked, t) then t else Goto(t, Add(Add(pc, 4), b.imm)))
        case Undefined => Undefined
    else
      match RunSlot(slot, code)
      case Ran(t) =>
        var u := Link(t, b.link, pc);
        Ran(if taken && !SlotFaulted(slot, t) then Goto(u, Add(Add(pc, 4), b.imm)) else u)
      case Undefined => Undefined
  }

  /** execMips. */
  function Exec(h: Hart, code: Code): (r: Result)
    requires ValidHart(h)
    ensures r.Ran? ==> ValidHart(r.h)
  {
    var s := Begin(h);
    if !Lookup(s, s.mmu.pc, Fetch).To? then Ran(Trap(s, s.mmu.pc, Fetch))
    else if code(s.mmu.pc).Branch? then DoBranch(s, code(s.mmu.pc), code)
    else Ran(Simple(s, code(s.mmu.pc)))
  }

  // ---- which instructions fault, and where to ----

  /** The vector of an access to va that does not succeed: only a refill with EXL clear has its own. */
  function VectorOf(h: Hart, va: u64, op: Op): u64
    requires ValidHart(h)
  {
    Vector(h.mmu.cp0.bev, Lookup(h, va, op) == Refill && !h.mmu.cp0.exl, !Compat(va))
  }

  /** The instruction at pc, not a branch, faults in its fetch or its access. */
  predicate Faults(h: Hart, code: Code)
    requires ValidHart(h)
  {
    var i := code(h.mmu.pc);
    || !Lookup(h, h.mmu.pc, Fetch).To?
    || (i.Access? && var o := Lookup(h, Add(h.gpr[i.rs], i.imm), Kind(i.op));
                     !o.To? || Misaligned(i.op, ToU32(o.pa)))
  }

  /** Where it goes if it faults. */
  function FaultVector(h: Hart, code: Code): u64
    requires ValidHart(h)
  {
    var i := code(h.mmu.pc);
    if Lookup(h, h.mmu.pc, Fetch).To? && i.Access? then VectorOf(h, Add(h.gpr[i.rs], i.imm), Kind(i.op))
    else VectorOf(h, h.mmu.pc, Fetch)
  }

  /** The branch at pc has its delay slot executed. */
  predicate Branches(h: Hart, code: Code)
    requires ValidHart(h)
  {
    var b := code(h.mmu.pc);
    && Lookup(h, h.mmu.pc, Fetch).To? && b.Branch?
    && (b.likely ==> Taken(b.cond, h.gpr[b.rs], h.gpr[b.rt]))
  }

  /** As the branch at pc enters its slot. */
  function AtSlot(h: Hart, code: Code): (s: Hart)
    requires ValidHart(h) && code(h.mmu.pc).Branch?
    ensures ValidHart(s)
  {
    var b := code(h.mmu.pc);
    Link(Goto(h, Add(h.mmu.pc, 4)), b.likely && b.link, h.mmu.pc)
  }

  lemma TrapGoes(h: Hart, va: u64, op: Op)
    requires ValidHart(h)
    ensures !Lookup(h, va, op).To? ==> Trap(h, va, op).mmu.cp0.exl && Trap(h, va, op).mmu.pc == VectorOf(h, va, op)
  {
    hide FaultContext, FaultXContext, FaultHi, Vector, Translate, ValidMmu, Compat, Asid, ArchHi, Add;
  }

  /** An instruction other than a branch sets EXL exactly when it faults, and goes to its vector. */
  lemma FaultGoes(h: Hart, code: Code)
    requires ValidHart(h) && !code(h.mmu.pc).Branch?
    ensures var t := if Lookup(h, h.mmu.pc, Fetch).To? then Simple(h, code(h.mmu.pc)) else Trap(h, h.mmu.pc, Fetch);
      if Faults(h, code) then t.mmu.cp0.exl && t.mmu.pc == FaultVector(h, code) else t.mmu.cp0.exl == h.mmu.cp0.exl
  {
    hide Trap, Lookup, Loaded, Stored, ValidMmu, Add, Misaligned;
    var i := code(h.mmu.pc);
    TrapGoes(h, h.mmu.pc, Fetch);
    if i.Access? {
      TrapGoes(h, Add(h.gpr[i.rs], i.imm), Kind(i.op));
    }
  }

  lemma FetchFaults(h: Hart, code: Code)
    requires ValidHart(h)
    ensures !Lookup(h, h.mmu.pc, Fetch).To? ==>
      Faults(h, code) && FaultVector(h, code) == Trap(h, h.mmu.pc, Fetch).mmu.pc
  {
    hide Trap, Lookup, ValidMmu, VectorOf;
    TrapGoes(h, h.mmu.pc, Fetch);
  }

  /** Faulting does not depend on the delay-slot flag or the last fault. */
  lemma FaultsAlike(h: Hart, g: Hart, code: Code)
    requires ValidHart(h) && ValidHart(g) && h.gpr == g.gpr
    requires h.mmu.tlb == g.mmu.tlb && h.mmu.cp0 == g.mmu.cp0 && h.mmu.pc == g.mmu.pc
    ensures Faults(h, code) == Faults(g, code)
    ensures Faults(h, code) ==> FaultVector(h, code) == FaultVector(g, code)
  {
    hide Translate, ValidMmu, Misaligned;
  }

  // ---- precise exceptions ----

  /** A branch that links has changed register 31 by the time its slot's fault is known. */
  predicate LinksAt(code: Code, pc: u64) {
    code(pc).Branch? && code(pc).link
  }

  /** The registers an interrupted instruction leaves: its own, but for register 0 and a link. */
  function Kept(gpr: seq<u64>, linked: bool, pc: u64): seq<u64>
    requires |gpr| == 32
  {
    if linked then gpr[0 := 0][31 := Add(pc, 8)] else gpr[0 := 0]
  }

  /** f is h with an exception taken and nothing else changed. */
  predicate Interrupted(f: Hart, h: Hart) {
    var (c, d) := (f.mmu.cp0, h.mmu.cp0);
    && f.gpr == h.gpr && f.mem == h.mem && f.mmu.inDelaySlot == h.mmu.inDelaySlot
    && c.exl && !c.erl && c.bev == d.bev && Asid(c.entryHi) == Asid(d.entryHi)
    && c.bd == h.mmu.inDelaySlot && c.epc == if h.mmu.inDelaySlot then Add(h.mmu.pc, -4) else h.mmu.pc
  }

  lemma TrapPrecise(h: Hart, va: u64, op: Op)
    requires ValidHart(h) && !h.mmu.cp0.exl
    ensures !Lookup(h, va, op).To? ==> Interrupted(Trap(h, va, op), h)
  {
    hide FaultContext, FaultXContext, Vector, Translate;
  }

  lemma PlainPrecise(h: Hart, code: nat)
    requires ValidHart(h) && !h.mmu.cp0.exl
    ensures Interrupted(h.(mmu := RaisePlain(h.mmu, code)), h)
  {
  }

  lemma SimplePrecise(h: Hart, i: Inst)
    requires ValidHart(h) && !i.Branch? && !h.mmu.cp0.exl && Simple(h, i).mmu.cp0.exl
    ensures Interrupted(Simple(h, i), h)
  {
    hide Trap, RaisePlain, Lookup, Loaded, Stored, Interrupted, ValidMmu, Add;
    if i.Access? {
      var va := Add(h.gpr[i.rs], i.imm);
      var kind := Kind(i.op);
      if Lookup(h, va, kind).To? {
        PlainPrecise(h, if Stores(i.op) then 5 else 4);
      } else {
        TrapPrecise(h, va, kind);
      }
    }
  }

  /** An exception in a slot: nothing but the exception state has changed, and EPC is the branch. */
  lemma SlotPrecise(h: Hart, code: Code, pc: u64)
    requires ValidHart(h) && !h.mmu.cp0.exl && !h.mmu.inDelaySlot && h.gpr[0] == 0 && h.mmu.pc == Add(pc, 4)
    ensures var r := RunSlot(h, code);
      r.Ran? && r.h.mmu.cp0.exl ==>
        var (f, c) := (r.h, r.h.mmu.cp0);
        && Faults(h, code) && f.mmu.pc == FaultVector(h, code)
        && f.gpr == h.gpr && f.mem == h.mem && c.epc == pc && c.bd
        && !c.erl && c.bev == h.mmu.cp0.bev && Asid(c.entryHi) == Asid(h.mmu.cp0.entryHi) && !f.mmu.inDelaySlot
  {
    hide Simple, Trap, Lookup, Asid, Faults, FaultVector;
    var s := Begin(EnterSlot(h));
    FaultsAlike(s, h, code);
    if !code(s.mmu.pc).Branch? {
      FaultGoes(s, code);
    }
    if !Lookup(s, s.mmu.pc, Fetch).To? {
      TrapPrecise(s, s.mmu.pc, Fetch);
      FetchFaults(s, code);
    } else if !code(s.mmu.pc).Branch? && Simple(s, code(s.mmu.pc)).mmu.cp0.exl {
      SimplePrecise(s, code(s.mmu.pc));
    }
  }

  /** An instruction that takes an exception with EXL clear, itself or in its delay slot, goes to the
      vector of that exception and has changed no memory and no register but the link of a linking
      branch; EPC is the instruction. */
  lemma FaultIsPrecise(h: Hart, code: Code)
    requires ValidHart(h) && !h.mmu.cp0.exl && !h.mmu.inDelaySlot
    ensures var r := Exec(h, code);
      r.Ran? && r.h.mmu.cp0.exl ==>
        var (f, b) := (r.h, Begin(h));
        var at := if Branches(b, code) then AtSlot(b, code) else b;
        && Faults(at, code) && f.mmu.pc == FaultVector(at, code)
        && f.mem == h.mem && f.mmu.cp0.epc == h.mmu.pc
        && f.mmu.cp0.bd == Branches(b, code)
        && f.gpr == Kept(h.gpr, Branches(b, code) && LinksAt(code, h.mmu.pc), h.mmu.pc)
        && !f.mmu.cp0.erl && Asid(f.mmu.cp0.entryHi) == Asid(h.mmu.cp0.entryHi) && f.mmu.cp0.bev == h.mmu.cp0.bev
        && !f.mmu.inDelaySlot
  {
    hide Simple, Trap, Lookup, Asid, ValidMmu, RunSlot, Taken, Faults, FaultVector;
    var s := Begin(h);
    var (pc, i) := (s.mmu.pc, code(s.mmu.pc));
    if !i.Branch? {
      FaultGoes(s, code);
    }
    if !Lookup(s, pc, Fetch).To? {
      TrapPrecise(s, pc, Fetch);
      FetchFaults(s, code);
    } else if !i.Branch? {
      if Simple(s, i).mmu.cp0.exl {
        SimplePrecise(s, i);
      }
    } else {
      SlotPrecise(AtSlot(s, code), code, pc);
    }
  }

  // ---- retry ----

  /** Translation states that will do the same. */
  predicate CpuTwins(m: Mmu, n: Mmu) {
    && ValidMmu(m) && ValidMmu(n) && m.tlb == n.tlb && m.pc == n.pc && m.inDelaySlot == n.inDelaySlot
    && Asid(m.cp0.entryHi) == Asid(n.cp0.entryHi) && m.cp0.bev == n.cp0.bev && m.cp0.exl == n.cp0.exl
  }

  /** Machines that will do the same but for what they do with register x: all else that execution reads
      is equal, register 0 apart. */
  predicate TwinsBut(h: Hart, g: Hart, x: nat) {
    && |h.gpr| == |g.gpr| == 32 && |h.mem| == DRAM_SIZE && h.mem == g.mem && h.route == g.route
    && (forall i :: 1 <= i < 32 && i != x ==> h.gpr[i] == g.gpr[i]) && CpuTwins(h.mmu, g.mmu)
  }

  predicate Twins(h: Hart, g: Hart) {
    TwinsBut(h, g, 0)
  }

  predicate TwinResults(r: Result, q: Result) {
    if r.Ran? && q.Ran? then Twins(r.h, q.h) else r == q
  }

  lemma RaiseTwins(m: Mmu, n: Mmu, va: u64, code: nat, refill: bool)
    requires CpuTwins(m, n)
    ensures CpuTwins(RaiseTlb(m, va, code, refill), RaiseTlb(n, va, code, refill))
  {
    hide FaultContext, FaultXContext, Vector, ArchHi, ValidTlb;
  }

  lemma TrapTwins(h: Hart, g: Hart, va: u64, op: Op, x: nat)
    requires TwinsBut(h, g, x)
    ensures ValidHart(h) && ValidHart(g)
    ensures Lookup(h, va, op) == Lookup(g, va, op) && TwinsBut(Trap(h, va, op), Trap(g, va, op), x)
  {
    hide RaiseTlb, Translate, ValidMmu;
    assert ValidTlb(h.mmu.tlb) by { TlbOf(h.mmu); }
    forall code, refill ensures CpuTwins(RaiseTlb(h.mmu, va, code, refill), RaiseTlb(g.mmu, va, code, refill)) {
      RaiseTwins(h.mmu, g.mmu, va, code, refill);
    }
  }

  lemma CpuStepTwins(m: Mmu, n: Mmu)
    requires CpuTwins(m, n)
    ensures forall code :: CpuTwins(RaisePlain(m, code), RaisePlain(n, code))
    ensures forall d :: CpuTwins(Advance(m, d), Advance(n, d))
    ensures forall pc: u64 :: CpuTwins(m.(pc := pc), n.(pc := pc))
    ensures forall slot :: CpuTwins(m.(inDelaySlot := slot), n.(inDelaySlot := slot))
    ensures CpuTwins(m.(tlbFault := false), n.(tlbFault := false))
  {
    hide ValidTlb, ArchHi, Vector, Add, Asid;
  }

  /** The instruction, not a branch, depends on register x. */
  predicate Reads(i: Inst, x: RegName) {
    match i
    case Addiu(_, rs, _) => rs == x
    case Access(op, rt, rs, _) => rs == x || (rt == x && op != LW && op != LD)
    case Branch(_, _, _, _, _, _) => false
  }

  lemma LoadIgnores(op: MemOp, mem: seq<u8>, route: bool, ea: u32, x: u64, y: u64)
    requires |mem| == DRAM_SIZE && (op == LW || op == LD)
    ensures Loaded(op, mem, route, ea, x) == Loaded(op, mem, route, ea, y)
  {
  }

  lemma SimpleTwins(h: Hart, g: Hart, i: Inst, x: nat)
    requires TwinsBut(h, g, x) && !i.Branch? && h.gpr[0] == g.gpr[0] && forall r: RegName :: Reads(i, r) ==> h.gpr[r] == g.gpr[r]
    ensures ValidHart(h) && ValidHart(g) && TwinsBut(Simple(h, i), Simple(g, i), x)
  {
    hide CpuTwins, Trap, Lookup, Loaded, Stored, Advance, RaisePlain, Add, ValidMmu;
    CpuParts(h.mmu, g.mmu);
    CpuStepTwins(h.mmu, g.mmu);
    if i.Access? {
      assert Reads(i, i.rs);
      var va := Add(h.gpr[i.rs], i.imm);
      TrapTwins(h, g, va, Kind(i.op), x);
      if i.op == LW || i.op == LD {
        LoadsAlike(h, g, i.op, i.rt, va);
      } else {
        assert Reads(i, i.rt);
      }
    }
  }

  lemma LoadsAlike(h: Hart, g: Hart, op: MemOp, rt: RegName, va: u64)
    requires ValidHart(h) && ValidHart(g) && h.mem == g.mem && h.route == g.route && (op == LW || op == LD)
    ensures forall ea: u32 :: Loaded(op, h.mem, h.route, ea, h.gpr[rt]) == Loaded(op, g.mem, g.route, ea, g.gpr[rt])
  {
    forall ea: u32 ensures Loaded(op, h.mem, h.route, ea, h.gpr[rt]) == Loaded(op, g.mem, g.route, ea, g.gpr[rt]) {
      LoadIgnores(op, h.mem, h.route, ea, h.gpr[rt], g.gpr[rt]);
    }
  }

  predicate TwinResultsBut(r: Result, q: Result, x: nat) {
    if r.Ran? && q.Ran? then TwinsBut(r.h, q.h, x) else r == q
  }

  lemma SlotTwins(h: Hart, g: Hart, code: Code, x: nat)
    requires TwinsBut(h, g, x) && x < 32 && (x == 0 || !Reads(code(h.mmu.pc), x))
    ensures ValidHart(h) && ValidHart(g) && TwinResultsBut(RunSlot(h, code), RunSlot(g, code), x)
  {
    hide CpuTwins, Trap, Lookup, Simple, ValidMmu, Reads;
    CpuParts(h.mmu, g.mmu);
    CpuStepTwins(h.mmu, g.mmu);
    var (a, b) := (EnterSlot(h), EnterSlot(g));
    CpuStepTwins(a.mmu, b.mmu);
    var (s, t) := (Begin(a), Begin(b));
    CpuParts(s.mmu, t.mmu);
    TrapTwins(s, t, s.mmu.pc, Fetch, x);
    CpuStepTwins(Trap(s, s.mmu.pc, Fetch).mmu, Trap(t, s.mmu.pc, Fetch).mmu);
    if !code(s.mmu.pc).Branch? {
      SimpleTwins(s, t, code(s.mmu.pc), x);
      CpuStepTwins(Simple(s, code(s.mmu.pc)).mmu, Simple(t, code(s.mmu.pc)).mmu);
    }
  }

  lemma CpuParts(m: Mmu, n: Mmu)
    requires CpuTwins(m, n)
    ensures ValidMmu(m) && ValidMmu(n) && m.pc == n.pc && m.inDelaySlot == n.inDelaySlot && m.cp0.exl == n.cp0.exl
  {
  }

  lemma MoveTwins(h: Hart, g: Hart, pc: u64, on: bool, from: u64)
    requires Twins(h, g)
    ensures Twins(Goto(h, pc), Goto(g, pc)) && Twins(Link(h, on, from), Link(g, on, from))
    ensures ValidHart(h) && ValidHart(g)
  {
    hide CpuTwins, ValidMmu, Add;
    CpuParts(h.mmu, g.mmu);
    CpuStepTwins(h.mmu, g.mmu);
  }

  lemma BranchTwins(h: Hart, g: Hart, b: Inst, code: Code)
    requires Twins(h, g) && h.gpr == g.gpr && b.Branch?
    ensures ValidHart(h) && ValidHart(g) && TwinResults(DoBranch(h, b, code), DoBranch(g, b, code))
  {
    hide TwinsBut, CpuTwins, RunSlot, Taken, Add, Goto, Link;
    TwinParts(h, g);
    var pc := h.mmu.pc;
    MoveTwins(h, g, Add(pc, 4), b.link, pc);
    var (u, v) := (Goto(h, Add(pc, 4)), Goto(g, Add(pc, 4)));
    MoveTwins(u, v, pc, b.link, pc);
    var (u2, v2) := if b.likely then (Link(u, b.link, pc), Link(v, b.link, pc)) else (u, v);
    TwinParts(u2, v2);
    MoveTwins(u2, v2, Add(Add(pc, 4), 4), false, pc);
    SlotTwins(u2, v2, code, 0);
    var (r, q) := (RunSlot(u2, code), RunSlot(v2, code));
    if r.Ran? && q.Ran? {
      TwinParts(r.h, q.h);
      MoveTwins(r.h, q.h, Add(Add(pc, 4), b.imm), b.link, pc);
      var (w, z) := (Link(r.h, b.link, pc), Link(q.h, b.link, pc));
      MoveTwins(w, z, Add(Add(pc, 4), b.imm), false, pc);
    }
  }

  /** The branch depends on register x. */
  predicate BranchReads(b: Inst, x: RegName)
    requires b.Branch?
  {
    b.rs == x || ((b.cond == Eq || b.cond == Ne) && b.rt == x)
  }

  lemma TakenAlike(h: Hart, g: Hart, b: Inst)
    requires TwinsBut(h, g, 31) && h.gpr[0] == g.gpr[0] && b.Branch? && !BranchReads(b, 31)
    ensures Taken(b.cond, h.gpr[b.rs], h.gpr[b.rt]) == Taken(b.cond, g.gpr[b.rs], g.gpr[b.rt])
  {
    hide CpuTwins, Negative;
  }

  lemma LinkTwice(h: Hart, b: Inst, code: Code)
    requires ValidHart(h) && b.Branch? && b.link && b.likely && !BranchReads(b, 31)
    ensures DoBranch(Link(h, true, h.mmu.pc), b, code) == DoBranch(h, b, code)
  {
    hide RunSlot, Taken, Add, ValidMmu;
    var (u, slot) := (Link(h, true, h.mmu.pc), Goto(h, Add(h.mmu.pc, 4)));
    assert Link(Goto(u, Add(h.mmu.pc, 4)), true, h.mmu.pc).gpr == Link(slot, true, h.mmu.pc).gpr;
    TakenLinked(h, b);
  }

  lemma TakenLinked(h: Hart, b: Inst)
    requires ValidHart(h) && b.Branch? && !BranchReads(b, 31)
    ensures var u := Link(h, true, h.mmu.pc);
      Taken(b.cond, u.gpr[b.rs], u.gpr[b.rt]) == Taken(b.cond, h.gpr[b.rs], h.gpr[b.rt])
  {
    hide ValidMmu, Negative;
  }

  lemma LinkedTwins(h: Hart, g: Hart, pc: u64)
    requires TwinsBut(h, g, 31)
    ensures ValidHart(h) && ValidHart(g) && Twins(Link(h, true, pc), Link(g, true, pc))
    ensures h.gpr[0] == g.gpr[0] ==> Link(h, true, pc).gpr == Link(g, true, pc).gpr
  {
    hide CpuTwins, ValidMmu, Add;
    CpuParts(h.mmu, g.mmu);
  }

  lemma GotoTwinsBut(h: Hart, g: Hart, pc: u64, x: nat)
    requires TwinsBut(h, g, x)
    ensures ValidHart(h) && ValidHart(g) && TwinsBut(Goto(h, pc), Goto(g, pc), x) && Goto(h, pc).mmu.pc == pc
    ensures h.mmu.pc == g.mmu.pc && h.mmu.cp0.exl == g.mmu.cp0.exl
  {
    hide CpuTwins, ValidMmu;
    CpuParts(h.mmu, g.mmu);
    CpuStepTwins(h.mmu, g.mmu);
  }

  /** A linking branch that does not read register 31 overwrites a difference in it, unless its slot sees
      it first. */
  lemma LinkTwins(h: Hart, g: Hart, b: Inst, code: Code)
    requires TwinsBut(h, g, 31) && h.gpr[0] == g.gpr[0] && b.Branch? && b.link && !BranchReads(b, 31)
    requires b.likely || !Reads(code(Add(h.mmu.pc, 4)), 31)
    ensures ValidHart(h) && ValidHart(g) && TwinResults(DoBranch(h, b, code), DoBranch(g, b, code))
  {
    hide TwinsBut, CpuTwins, RunSlot, Taken, Add, Goto, Link, Reads;
    var pc := h.mmu.pc;
    LinkedTwins(h, g, pc);
    GotoTwinsBut(h, g, Add(pc, 4), 31);
    if b.likely {
      LinkTwice(h, b, code);
      LinkTwice(g, b, code);
      BranchTwins(Link(h, true, pc), Link(g, true, pc), b, code);
    } else {
      TakenAlike(h, g, b);
      SlotLinked(Goto(h, Add(pc, 4)), Goto(g, Add(pc, 4)), b, code, pc);
    }
  }

  lemma SlotLinked(h: Hart, g: Hart, b: Inst, code: Code, pc: u64)
    requires TwinsBut(h, g, 31) && b.Branch? && !Reads(code(h.mmu.pc), 31)
    ensures ValidHart(h) && ValidHart(g)
    ensures var (r, q) := (RunSlot(h, code), RunSlot(g, code));
      if r.Ran? && q.Ran? then
        var (u, v, to) := (Link(r.h, true, pc), Link(q.h, true, pc), Add(Add(pc, 4), b.imm));
        Twins(u, v) && Twins(Goto(u, to), Goto(v, to)) && SlotFaulted(h, r.h) == SlotFaulted(g, q.h)
      else r == q
  {
    hide TwinsBut, CpuTwins, RunSlot, Add, Goto, Link, Reads;
    SlotTwins(h, g, code, 31);
    GotoTwinsBut(h, g, pc, 31);
    var (r, q) := (RunSlot(h, code), RunSlot(g, code));
    if r.Ran? && q.Ran? {
      LinkedTwins(r.h, q.h, pc);
      GotoTwinsBut(r.h, q.h, pc, 31);
      MoveTwins(Link(r.h, true, pc), Link(q.h, true, pc), Add(Add(pc, 4), b.imm), false, pc);
    }
  }

  lemma TwinParts(h: Hart, g: Hart)
    requires Twins(h, g)
    ensures ValidHart(h) && ValidHart(g) && h.mmu.cp0.exl == g.mmu.cp0.exl && h.mmu.pc == g.mmu.pc
  {
  }

  lemma ExecTwins(h: Hart, g: Hart, code: Code)
    requires Twins(h, g)
    ensures ValidHart(h) && ValidHart(g) && TwinResults(Exec(h, code), Exec(g, code))
  {
    hide CpuTwins, Trap, Lookup, Simple, DoBranch, ValidMmu;
    CpuParts(h.mmu, g.mmu);
    CpuStepTwins(h.mmu, g.mmu);
    var (s, t) := (Begin(h), Begin(g));
    assert s.gpr == t.gpr;
    TrapTwins(s, t, s.mmu.pc, Fetch, 0);
    if code(s.mmu.pc).Branch? {
      BranchTwins(s, t, code(s.mmu.pc), code);
    } else {
      SimpleTwins(s, t, code(s.mmu.pc), 0);
    }
  }

  /** A link at pc is made again without trace: the branch does not read register 31, and its slot does
      not before the link. */
  predicate LinkUnseen(code: Code, pc: u64) {
    var b := code(pc);
    b.Branch? && b.link && !BranchReads(b, 31) && (b.likely || !Reads(code(Add(pc, 4)), 31))
  }

  lemma ExecLinkTwins(h: Hart, g: Hart, code: Code)
    requires TwinsBut(h, g, 31) && LinkUnseen(code, h.mmu.pc)
    ensures ValidHart(h) && ValidHart(g)
    ensures Lookup(h, h.mmu.pc, Fetch).To? ==> TwinResults(Exec(h, code), Exec(g, code))
  {
    hide CpuTwins, Trap, Lookup, Simple, DoBranch, ValidMmu, Reads, Add, BranchReads;
    CpuParts(h.mmu, g.mmu);
    CpuStepTwins(h.mmu, g.mmu);
    var (s, t) := (Begin(h), Begin(g));
    TrapTwins(h, g, h.mmu.pc, Fetch, 31);
    BeginLooks(h);
    BeginLooks(g);
    if Lookup(h, h.mmu.pc, Fetch).To? {
      LinkTwins(s, t, code(h.mmu.pc), code);
    }
  }

  lemma BeginLooks(h: Hart)
    requires ValidHart(h)
    ensures Lookup(Begin(h), h.mmu.pc, Fetch) == Lookup(h, h.mmu.pc, Fetch)
  {
    hide Translate, ValidMmu;
  }

  /** What an exception taken with EXL set leaves alone. */
  predicate NestedSame(m: Mmu, n: Mmu) {
    && n.cp0.epc == m.cp0.epc && n.cp0.bd == m.cp0.bd && n.cp0.exl && n.cp0.bev == m.cp0.bev
    && (!m.cp0.erl ==> !n.cp0.erl)
  }

  lemma TakeNested(m: Mmu, va: u64, op: Op, o: Outcome)
    requires m.cp0.exl
    ensures NestedSame(m, Take(m, va, op, o))
  {
    hide FaultHi, FaultContext, FaultXContext, Vector;
  }

  /** Software itself moves the exception state. */
  predicate Rewrites(e: Event) {
    e.Return? || e.EpcWrite? || e.StatusWrite? || e.CauseWrite?
  }

  lemma QuietNested(m: Mmu, e: Event)
    requires ValidMmu(m) && m.cp0.exl && !e.Access? && !Rewrites(e)
    ensures Quiet(m, e).Done? ==> NestedSame(m, Quiet(m, e).m)
  {
    hide MaskHi, ProbeFrom, ValidTlb, ArchHi, ValidPageMask;
  }

  /** Until the handler returns or writes EPC, Status or Cause itself, nothing it does moves EPC or BD:
      no nested exception, no TLB instruction and no other CP0 write. */
  lemma {:induction false} NestedKeeps(m: Mmu, events: seq<Event>)
    requires ValidMmu(m) && m.cp0.exl && forall e :: e in events ==> !Rewrites(e)
    ensures NestedSame(m, Plain(m, events).m)
  {
    hide Translate, Take, Quiet, ValidMmu;
    if events != [] {
      var (n, e) := (|events| - 1, events[|events| - 1]);
      NestedKeeps(m, events[..n]);
      var t := Plain(m, events[..n]);
      if e.Access? {
        TlbOf(t.m);
        TakeNested(t.m, e.va, e.op, Translate(t.m.tlb, Asid(t.m.cp0.entryHi), e.va, e.op));
      } else {
        QuietNested(t.m, e);
      }
    }
  }

  lemma TlbOf(m: Mmu)
    requires ValidMmu(m)
    ensures ValidTlb(m.tlb)
  {
  }

  /** The exception state is as the fault left it, as far as a return and its retry can tell. */
  predicate Restored(f: Mmu, k: Mmu) {
    k.cp0.epc == f.cp0.epc && !k.cp0.erl && k.cp0.bev == f.cp0.bev
  }

  /** After a fault with EXL clear, a handler that comes to ERET with EPC, registers and ASID as they
      were retries exactly the instruction it interrupted: it runs on as it would have from the start
      under the new mappings and memory. A handler that does not write EPC and Status need not restore
      them. If the instruction is a branch that has already linked, neither it nor its slot may read
      the link, and its own page must still be mapped. */
  lemma RetryIsFresh(h: Hart, code: Code, events: seq<Event>, mem: seq<u8>)
    requires ValidHart(h) && !h.mmu.cp0.exl && !h.mmu.inDelaySlot && |mem| == DRAM_SIZE
    ensures var r := Exec(h, code);
      r.Ran? && r.h.mmu.cp0.exl ==>
        var k := Plain(r.h.mmu, events).m;
        && ((forall e :: e in events ==> !Rewrites(e)) ==> Restored(r.h.mmu, k))
        && (Restored(r.h.mmu, k) && Asid(k.cp0.entryHi) == Asid(h.mmu.cp0.entryHi) && !k.inDelaySlot ==>
              var (retry, anew) := (r.h.(mem := mem, mmu := Eret(k)), h.(mem := mem, mmu := h.mmu.(tlb := k.tlb)));
              && ValidHart(retry) && ValidHart(anew)
              && ((Branches(Begin(h), code) && LinksAt(code, h.mmu.pc) ==>
                    LinkUnseen(code, h.mmu.pc) && Lookup(anew, h.mmu.pc, Fetch).To?) ==>
                  TwinResults(Exec(retry, code), Exec(anew, code))))
  {
    hide Exec, Plain, ValidTlb, Asid, ArchHi, TwinResults, Branches, AtSlot, Faults, FaultVector, Rewrites, LinkUnseen, Lookup;
    FaultIsPrecise(h, code);
    var r := Exec(h, code);
    if r.Ran? && r.h.mmu.cp0.exl {
      var k := Plain(r.h.mmu, events).m;
      if forall e :: e in events ==> !Rewrites(e) {
        NestedKeeps(r.h.mmu, events);
      }
      if Restored(r.h.mmu, k) && Asid(k.cp0.entryHi) == Asid(h.mmu.cp0.entryHi) && !k.inDelaySlot {
        var (retry, anew) := (r.h.(mem := mem, mmu := Eret(k)), h.(mem := mem, mmu := h.mmu.(tlb := k.tlb)));
        SameRoute(h, code);
        assert CpuTwins(retry.mmu, anew.mmu);
        if !(Branches(Begin(h), code) && LinksAt(code, h.mmu.pc)) {
          assert Twins(retry, anew);
          ExecTwins(retry, anew, code);
        } else if LinkUnseen(code, h.mmu.pc) {
          assert TwinsBut(anew, retry, 31);
          ExecLinkTwins(anew, retry, code);
          TwinsSwap(Exec(anew, code), Exec(retry, code));
        }
      }
    }
  }

  lemma TwinsSwap(r: Result, q: Result)
    ensures TwinResults(r, q) ==> TwinResults(q, r)
  {
  }

  /** The memory map is not state. */
  lemma SameRoute(h: Hart, code: Code)
    requires ValidHart(h)
    ensures Exec(h, code).Ran? ==> Exec(h, code).h.route == h.route
  {
    hide Lookup, Take, Loaded, Stored, ValidMmu, Taken, Add, RaisePlain;
  }

  lemma SimpleNested(h: Hart, i: Inst)
    requires ValidHart(h) && h.mmu.cp0.exl && !i.Branch?
    ensures NestedSame(h.mmu, Simple(h, i).mmu)
  {
    hide Take, Lookup, Loaded, Stored, ValidMmu, Add, Vector;
    if i.Access? {
      var kind := Kind(i.op);
      TakeNested(h.mmu, Add(h.gpr[i.rs], i.imm), kind, Lookup(h, Add(h.gpr[i.rs], i.imm), kind));
    }
  }

  lemma SlotNested(h: Hart, code: Code)
    requires ValidHart(h) && h.mmu.cp0.exl
    ensures RunSlot(h, code).Ran? ==> NestedSame(h.mmu, RunSlot(h, code).h.mmu)
  {
    hide Take, Lookup, Simple, ValidMmu;
    var s := Begin(EnterSlot(h));
    TakeNested(s.mmu, s.mmu.pc, Fetch, Lookup(s, s.mmu.pc, Fetch));
    if !code(s.mmu.pc).Branch? {
      SimpleNested(s, code(s.mmu.pc));
    }
  }

  lemma MovesKeep()
    ensures forall h: Hart, pc: u64 :: ValidHart(h) ==> Goto(h, pc).mmu.cp0 == h.mmu.cp0
    ensures forall h: Hart, on: bool, pc: u64 :: ValidHart(h) ==> Link(h, on, pc).mmu.cp0 == h.mmu.cp0
  {
  }

  /** With EXL set no instruction, faulting or not, moves EPC or BD. */
  lemma NestedExecKeeps(h: Hart, code: Code)
    requires ValidHart(h) && h.mmu.cp0.exl
    ensures Exec(h, code).Ran? ==> NestedSame(h.mmu, Exec(h, code).h.mmu)
  {
    hide Take, Lookup, Simple, ValidMmu, RunSlot, Taken, Add, Goto, Link;
    var s := Begin(h);
    var (pc, i) := (s.mmu.pc, code(s.mmu.pc));
    TakeNested(s.mmu, pc, Fetch, Lookup(s, pc, Fetch));
    if Lookup(s, pc, Fetch).To? {
      if !i.Branch? {
        SimpleNested(s, i);
      } else {
        var slot := Goto(s, Add(pc, 4));
        var linked := Link(slot, i.link, pc);
        MovesKeep();
        SlotNested(slot, code);
        SlotNested(linked, code);
      }
    }
  }

  lemma SlotTraps(h: Hart, code: Code)
    requires ValidHart(h) && h.gpr[0] == 0
    ensures Faults(h, code) && !code(h.mmu.pc).Branch? ==>
      RunSlot(h, code).Ran?
      && var m := RunSlot(h, code).h.mmu; m.cp0.exl && m.pc == FaultVector(h, code)
  {
    hide Simple, Trap, Lookup, Asid, Faults, FaultVector, ValidMmu;
    var s := Begin(EnterSlot(h));
    FaultsAlike(s, h, code);
    if !code(s.mmu.pc).Branch? {
      FaultGoes(s, code);
    }
  }

  /** Where a branch goes when its delay slot faults: to the exception vector of the slot, unless EXL
      was already set and the branch is taken; then it does not notice, and goes on at its target with
      the exception half taken. */
  lemma SlotFaultGoes(h: Hart, code: Code)
    requires ValidHart(h)
    ensures var (s, pc, b) := (Begin(h), h.mmu.pc, code(h.mmu.pc));
      Branches(s, code) && Faults(AtSlot(s, code), code) && !code(Add(pc, 4)).Branch? ==>
        Exec(h, code).Ran?
        && var (f, vector, target) := (Exec(h, code).h, FaultVector(AtSlot(s, code), code), Add(Add(pc, 4), b.imm));
        var lost := h.mmu.cp0.exl && Taken(b.cond, s.gpr[b.rs], s.gpr[b.rt]);
        && f.mmu.cp0.exl && f.mmu.pc == (if lost then target else vector)
        && (f.mmu.pc == vector <==> !lost || target == vector)
  {
    hide Faults, FaultVector, Taken, ValidMmu, Translate, Add, Asid, RunSlot, Trap, Simple;
    var s := Begin(h);
    if Branches(s, code) {
      SlotTraps(AtSlot(s, code), code);
    }
  }

  /** A taken branch in an unmapped segment, whose slot loads from a page no valid entry maps. */
  function FaultingSlot(exl: bool, link: bool): (Hart, Code) {
    var pc := 0xFFFF_FFFF_8000_1000;
    var cp0 := Cp0(0, false, 0, 0, 0, 0, 0, 0, 0, 0, 0, 0, 0, false, 0, exl, false, false);
    var mmu := Mmu(seq(TLB_SIZE, _ => Entry(0, 0, 0, 0)), cp0, pc, false, false);
    (Hart(seq(32, _ => 0), seq(DRAM_SIZE, _ => 0), false, mmu),
     at => if at == pc then Branch(Gez, false, link, 0, 0, -4) else Inst.Access(LW, 1, 0, 0))
  }

  lemma SlotFaults(exl: bool, link: bool)
    ensures var (h, code) := FaultingSlot(exl, link);
      && ValidHart(h) && h.mmu.cp0.exl == exl && h.mmu.pc == 0xFFFF_FFFF_8000_1000
      && Branches(Begin(h), code) && Faults(AtSlot(Begin(h), code), code) && !code(Add(h.mmu.pc, 4)).Branch?
      && Taken(Gez, 0, 0)
  {
    hide Scan, Vector, Misaligned;
    var (h, _) := FaultingSlot(exl, link);
    NothingMapped(h.mmu.tlb, 0, 0, Tlb.Load);
  }

  lemma NothingMapped(tlb: seq<Entry>, asid: nat, va: u64, op: Op)
    requires ValidTlb(tlb) && forall i :: 0 <= i < TLB_SIZE ==> tlb[i].lo0 == tlb[i].lo1 == 0
    ensures !Scan(tlb, asid, va, op).To?
  {
    hide Matches, Pair, Tlb.Frame, Tlb.Pa, ArchHi;
  }

  /** It happens: with EXL set, a branch to itself whose slot loads from an unmapped page. */
  lemma LostFault() returns (h: Hart, code: Code)
    ensures ValidHart(h) && h.mmu.cp0.exl
    ensures var s := Begin(h);
      Branches(s, code) && Faults(AtSlot(s, code), code) && !code(Add(h.mmu.pc, 4)).Branch?
      && Exec(h, code).Ran? && Exec(h, code).h.mmu.pc != FaultVector(AtSlot(s, code), code)
  {
    hide Branches, Faults, Exec, ValidHart, Lookup;
    var (e, c) := FaultingSlot(true, false);
    h, code := e, c;
    SlotFaults(true, false);
    SlotFaultGoes(h, code);
  }

  /** So does the other: with EXL clear, a linking branch has changed register 31 by the time the
      exception of its slot is taken. */
  lemma LinkedFault() returns (h: Hart, code: Code)
    ensures ValidHart(h) && !h.mmu.cp0.exl && !h.mmu.inDelaySlot && LinksAt(code, h.mmu.pc)
    ensures Exec(h, code).Ran? && Exec(h, code).h.mmu.cp0.exl && Exec(h, code).h.gpr[31] != h.gpr[31]
  {
    hide Branches, Faults, FaultVector, Exec, Lookup, AtSlot, ValidMmu;
    var (e, c) := FaultingSlot(false, true);
    h, code := e, c;
    SlotFaults(false, true);
    SlotFaultGoes(h, code);
    FaultIsPrecise(h, code);
  }
}
