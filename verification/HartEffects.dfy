/** What instructions do when nothing faults: registers as signed numbers, memory as the bytes at the
    translated address, the program counter as an address. */
module HartEffects {
  import opened Words
  import opened ByteOrder
  import opened Memory
  import opened Unaligned
  import opened Tlb
  import opened Mmu
  import opened TlbLayout
  import opened Hart

  // ---- registers as numbers ----

  /** A register in two's complement. */
  function Signed(x: u64): int {
    if x < 0x8000_0000_0000_0000 then x else x - 0x1_0000_0000_0000_0000
  }

  /** Big-endian bytes in two's complement. */
  function BigSigned(s: seq<u8>): int
    requires |s| > 0
  {
    FromBig(s) - if s[0] < 0x80 then 0 else Pow256(|s|)
  }

  /** The registers as an instruction finds them. */
  function Regs(h: Hart): (g: seq<u64>)
    requires ValidHart(h)
    ensures |g| == 32
  {
    h.gpr[0 := 0]
  }

  /** Where the instruction at pc is fetched. */
  predicate Fetched(h: Hart)
    requires ValidHart(h)
  {
    Lookup(h, h.mmu.pc, Fetch).To?
  }

  /** One instruction on: the machine with these registers and this memory at another pc, and nothing
      else changed. */
  function Onward(h: Hart, gpr: seq<u64>, mem: seq<u8>, pc: u64): Hart {
    h.(gpr := gpr, mem := mem, mmu := h.mmu.(pc := pc, tlbFault := false))
  }

  // ---- ADDIU ----

  /** The sum's low 32 bits as a signed number. */
  lemma AddiuAdds(h: Hart, code: Code)
    requires ValidHart(h) && Fetched(h) && code(h.mmu.pc).Addiu?
    ensures var i, r := code(h.mmu.pc), Exec(h, code);
      && r.Ran? && |r.h.gpr| == 32
      && r.h == Onward(h, Regs(h)[i.rt := r.h.gpr[i.rt]], h.mem, (h.mmu.pc + 4) % U64)
      && var v := Signed(r.h.gpr[i.rt]);
         -0x8000_0000 <= v < 0x8000_0000 && (v - (Regs(h)[i.rs] + i.imm)) % U32 == 0
  {
    hide Lookup, ValidMmu;
    BeginLooks(h);
    var i := code(h.mmu.pc);
    LowSigned(Regs(h)[i.rs] + i.imm);
  }

  lemma LowSigned(x: int)
    ensures var v := Signed(Sext32(x % U32)); -0x8000_0000 <= v < 0x8000_0000 && (v - x) % U32 == 0
  {
    var q, w := x / U32, x % U32;
    var v := if w < 0x8000_0000 then w else w - U32;
    QuotientUnique(v - x, U32, if w < 0x8000_0000 then -q else -q - 1, 0);
  }

  // ---- loads and stores ----

  /** Bytes an access moves: those of a word or of a doubleword. */
  function Wide(op: MemOp): (n: nat)
    ensures Width(n)
  {
    match op
    case LW | LWL | LWR | SW | SWL | SWR => 4
    case LD | LDL | LDR | SD | SDL | SDR => 8
  }

  /** Where the aligned word around a physical address begins in memory: its first 512 KB are an alias. */
  function WordStart(route: bool, pa: u32, n: nat): (p: nat)
    requires Width(n)
    ensures p + n <= DRAM_SIZE
  {
    AlignedBase(pa, n);
    var base := pa - pa % n;
    if route && base < 0x8_0000 then base + 0x800_0000 else base
  }

  lemma WordStarts(route: bool, pa: u32, n: nat)
    requires Width(n)
    ensures Aligned(route, pa, n) == WordStart(route, pa, n)
  {
    AlignedBase(pa, n);
  }

  /** The bytes a load m bytes into the word leaves in the register's low end, which held low: all of the
      word, or its tail above the register's own, or its head below. */
  function Fills(op: MemOp, word: seq<u8>, low: seq<u8>, m: nat): (s: seq<u8>)
    requires !Stores(op) && |low| == |word| && m < |word|
    ensures |s| == |word|
  {
    match op
    case LW | LD => word
    case LWL | LDL => word[m..] + low[|low| - m..]
    case LWR | LDR => low[..|low| - 1 - m] + word[..m + 1]
  }

  /** The bytes a store leaves in the word. */
  function Leaves(op: MemOp, word: seq<u8>, low: seq<u8>, m: nat): (s: seq<u8>)
    requires Stores(op) && |low| == |word| && m < |word|
    ensures |s| == |word|
  {
    match op
    case SW | SD => low
    case SWL | SDL => word[..m] + low[..|low| - m]
    case SWR | SDR => low[|low| - 1 - m..] + word[m + 1..]
  }

  /** The access at pc translates to pa and is aligned if it has to be; b is the register it moves. */
  predicate Reaches(h: Hart, i: Inst, pa: u32, b: seq<u8>)
    requires ValidHart(h) && i.Access?
  {
    var o := Lookup(h, (Regs(h)[i.rs] + i.imm) % U64, if Stores(i.op) then Store else Load);
    && o.To? && o.pa == pa && |b| == 8 && FromBig(b) == Regs(h)[i.rt]
    && (i.op == LW || i.op == SW ==> pa % 4 == 0) && (i.op == LD || i.op == SD ==> pa % 8 == 0)
  }

  lemma LowBytes(b: seq<u8>, n: nat)
    requires |b| == 8 && n <= 8
    ensures KeepLow(FromBig(b), n) == FromBig(b[8 - n..])
  {
    BigKeep(b, n);
  }

  lemma EightBytes(b: seq<u8>)
    requires |b| == 8
    ensures FromBig(b) < U64
  {
    BigBound(b);
    assert Pow256(4) == U32;
  }

  /** The number a load takes from the word and the register. */
  function Gathered(op: MemOp, n: nat, r: nat, x: nat, m: nat): nat
    requires m < n
  {
    if op == LWL || op == LDL then MergeLoadLeft(n, r, x, m)
    else if op == LWR || op == LDR then MergeLoadRight(n, r, x, m)
    else r
  }

  lemma GatheredBytes(op: MemOp, word: seq<u8>, low: seq<u8>, m: nat)
    requires !Stores(op) && |low| == |word| && m < |word|
    ensures Gathered(op, |word|, FromBig(word), FromBig(low), m) == FromBig(Fills(op, word, low, m))
  {
    hide FromBig, MergeLoadLeft, MergeLoadRight;
    LoadLeftBytes(word, low, m);
    LoadRightBytes(word, low, m);
  }

  lemma LoadedGathers(op: MemOp, mem: seq<u8>, route: bool, pa: u32, x: u64)
    requires |mem| == DRAM_SIZE && !Stores(op)
    ensures var n := Wide(op);
      var p := WordStart(route, pa, n);
      Loaded(op, mem, route, pa, x) == Extend(n, Gathered(op, n, ReadAligned(mem, p, n), KeepLow(x, n), pa % n)) % U64
  {
    hide KeepLow, MergeLoadLeft, MergeLoadRight, ReadAligned, Aligned, WordStart, Extend;
    WordStarts(route, pa, Wide(op));
  }

  /** What a load makes of the word and the register's low bytes. */
  lemma LoadedBytes(op: MemOp, mem: seq<u8>, route: bool, pa: u32, b: seq<u8>)
    requires |mem| == DRAM_SIZE && !Stores(op) && |b| == 8 && FromBig(b) < U64
    ensures var n := Wide(op);
      var p := WordStart(route, pa, n);
      Loaded(op, mem, route, pa, FromBig(b)) == Extend(n, FromBig(Fills(op, mem[p..p + n], b[8 - n..], pa % n))) % U64
  {
    hide FromBig, KeepLow, Gathered, Loaded, Fills, WordStart, Extend;
    var n := Wide(op);
    var p := WordStart(route, pa, n);
    LoadedGathers(op, mem, route, pa, FromBig(b));
    LowBytes(b, n);
    GatheredBytes(op, mem[p..p + n], b[8 - n..], pa % n);
  }

  /** A word of four or eight bytes, extended, is the number its bytes spell. */
  lemma ExtendSigns(s: seq<u8>)
    requires Width(|s|)
    ensures Extend(|s|, FromBig(s)) < U64 && Signed(Extend(|s|, FromBig(s))) == BigSigned(s)
  {
    if |s| == 4 {
      FourSigned(s);
    } else {
      EightSigned(s);
    }
  }

  lemma FourSigned(s: seq<u8>)
    requires |s| == 4
    ensures Extend(4, FromBig(s)) < U64 && Signed(Extend(4, FromBig(s))) == BigSigned(s)
  {
    BigFour(s);
    assert Pow256(4) == U32;
  }

  lemma EightSigned(s: seq<u8>)
    requires |s| == 8
    ensures FromBig(s) < U64 && Signed(FromBig(s)) == BigSigned(s)
  {
    hide FromBig;
    EightBytes(s);
    TopByte(s);
    assert Pow256(4) == U32;
  }

  /** The sign of a number is in its first byte. */
  lemma TopByte(s: seq<u8>)
    requires |s| == 8
    ensures FromBig(s) >= 0x8000_0000_0000_0000 <==> s[0] >= 0x80
  {
    hide FromBig;
    assert s == s[..4] + s[4..];
    BigSplit(s[..4], s[4..]);
    assert FromBig(s) == ShiftUp(FromBig(s[..4]), 4) + FromBig(s[4..]);
    ShiftFour(FromBig(s[..4]));
    BigFour(s[..4]);
    BigFour(s[4..]);
  }

  lemma ShiftFour(x: nat)
    ensures ShiftUp(x, 4) == U32 * x
  {
    assert ShiftUp(x, 1) == 256 * x;
    assert ShiftUp(x, 2) == 0x10000 * x;
  }

  lemma AccessRuns(h: Hart, code: Code, pa: u32, b: seq<u8>)
    requires ValidHart(h) && Fetched(h) && code(h.mmu.pc).Access? && Reaches(h, code(h.mmu.pc), pa, b)
    ensures var i, r, g, pc := code(h.mmu.pc), Exec(h, code), Regs(h), (h.mmu.pc + 4) % U64;
      r == Ran(if Stores(i.op) then Onward(h, g, Stored(i.op, h.mem, h.route, pa, FromBig(b)), pc)
               else Onward(h, g[i.rt := Loaded(i.op, h.mem, h.route, pa, FromBig(b))], h.mem, pc))
  {
    hide Lookup, ValidMmu, Loaded, Stored, FromBig, Trap, DoAccess;
    BeginLooks(h);
    var i := code(h.mmu.pc);
    BeginReaches(h, Add(Regs(h)[i.rs], i.imm), Kind(i.op));
    AccessSucceeds(Begin(h), i.op, i.rt, i.rs, i.imm, pa);
  }

  lemma AccessSucceeds(h: Hart, op: MemOp, rt: RegName, rs: RegName, imm: int, pa: u32)
    requires ValidHart(h)
    requires var o := Lookup(h, Add(h.gpr[rs], imm), Kind(op)); o.To? && o.pa == pa && !Misaligned(op, pa)
    ensures var r := DoAccess(h, op, rt, rs, imm);
      && r.route == h.route && r.mmu == h.mmu.(pc := (h.mmu.pc + 4) % U64)
      && (if Stores(op) then r.gpr == h.gpr && r.mem == Stored(op, h.mem, h.route, pa, h.gpr[rt])
          else r.gpr == h.gpr[rt := Loaded(op, h.mem, h.route, pa, h.gpr[rt])] && r.mem == h.mem)
  {
    hide Lookup, ValidMmu, Loaded, Stored, Trap, RaisePlain, Misaligned, Kind, Stores;
  }

  lemma BeginReaches(h: Hart, va: u64, op: Op)
    requires ValidHart(h)
    ensures Lookup(Begin(h), va, op) == Lookup(h, va, op)
  {
    hide Translate, ValidMmu;
  }

  /** A load that does not fault leaves in its register the number its bytes in memory spell, completed by
      the register's own for the unaligned ones, sign and all, and changes nothing else. */
  lemma LoadLeaves(h: Hart, code: Code, pa: u32, b: seq<u8>)
    requires ValidHart(h) && Fetched(h) && code(h.mmu.pc).Access? && Reaches(h, code(h.mmu.pc), pa, b)
    requires !Stores(code(h.mmu.pc).op)
    ensures var i, r := code(h.mmu.pc), Exec(h, code);
      var n := Wide(i.op);
      var p := WordStart(h.route, pa, n);
      && r.Ran? && |r.h.gpr| == 32
      && r.h == Onward(h, Regs(h)[i.rt := r.h.gpr[i.rt]], h.mem, (h.mmu.pc + 4) % U64)
      && Signed(r.h.gpr[i.rt]) == BigSigned(Fills(i.op, h.mem[p..p + n], b[8 - n..], pa % n))
  {
    hide Exec, Lookup, ValidMmu, Loaded, FromBig, Fills, BigSigned, WordStart, Signed, Wide;
    AccessRuns(h, code, pa, b);
    EightBytes(b);
    LoadedSigned(code(h.mmu.pc).op, h.mem, h.route, pa, b);
  }

  lemma LoadedSigned(op: MemOp, mem: seq<u8>, route: bool, pa: u32, b: seq<u8>)
    requires |mem| == DRAM_SIZE && !Stores(op) && |b| == 8 && FromBig(b) < U64
    ensures var n := Wide(op);
      var p := WordStart(route, pa, n);
      Signed(Loaded(op, mem, route, pa, FromBig(b))) == BigSigned(Fills(op, mem[p..p + n], b[8 - n..], pa % n))
  {
    hide Loaded, FromBig, Fills, BigSigned, Extend, WordStart, Signed, Wide;
    LoadedBytes(op, mem, route, pa, b);
    var n := Wide(op);
    var p := WordStart(route, pa, n);
    ExtendSigns(Fills(op, mem[p..p + n], b[8 - n..], pa % n));
  }

  /** The number a store writes to the word. */
  function Merged(op: MemOp, n: nat, r: nat, x: nat, m: nat): nat
    requires m < n
  {
    if op == SWL || op == SDL then MergeStoreLeft(n, r, x, m)
    else if op == SWR || op == SDR then MergeStoreRight(n, r, x, m)
    else x
  }

  lemma MergedBytes(op: MemOp, word: seq<u8>, low: seq<u8>, m: nat)
    requires Stores(op) && |low| == |word| && m < |word|
    ensures Big(Merged(op, |word|, FromBig(word), FromBig(low), m), |word|) == Leaves(op, word, low, m)
  {
    hide FromBig, Big, MergeStoreLeft, MergeStoreRight;
    StoreLeftBytes(word, low, m);
    StoreRightBytes(word, low, m);
    BigOfFrom(Leaves(op, word, low, m));
  }

  lemma StoredMerges(op: MemOp, mem: seq<u8>, route: bool, pa: u32, x: u64)
    requires |mem| == DRAM_SIZE && Stores(op)
    ensures var n := Wide(op);
      var p := WordStart(route, pa, n);
      Stored(op, mem, route, pa, x) == WriteAligned(mem, p, n, Merged(op, n, ReadAligned(mem, p, n), KeepLow(x, n), pa % n))
  {
    hide KeepLow, MergeStoreLeft, MergeStoreRight, WriteAligned, ReadAligned, Aligned, WordStart;
    WordStarts(route, pa, Wide(op));
  }

  /** A store's word. */
  lemma StoredBytes(op: MemOp, mem: seq<u8>, route: bool, pa: u32, b: seq<u8>)
    requires |mem| == DRAM_SIZE && Stores(op) && |b| == 8 && FromBig(b) < U64
    ensures var n := Wide(op);
      var p := WordStart(route, pa, n);
      Stored(op, mem, route, pa, FromBig(b)) == mem[..p] + Leaves(op, mem[p..p + n], b[8 - n..], pa % n) + mem[p + n..]
  {
    hide FromBig, Big, KeepLow, Merged, Stored, Leaves, WordStart;
    var n := Wide(op);
    var p := WordStart(route, pa, n);
    StoredMerges(op, mem, route, pa, FromBig(b));
    LowBytes(b, n);
    MergedBytes(op, mem[p..p + n], b[8 - n..], pa % n);
  }

  /** A store that does not fault leaves the register's bytes in the word, all that fit from the address
      on, or up to it, for the unaligned ones, and changes nothing else. */
  lemma StoreLeaves(h: Hart, code: Code, pa: u32, b: seq<u8>)
    requires ValidHart(h) && Fetched(h) && code(h.mmu.pc).Access? && Reaches(h, code(h.mmu.pc), pa, b)
    requires Stores(code(h.mmu.pc).op)
    ensures var i, r := code(h.mmu.pc), Exec(h, code);
      var n := Wide(i.op);
      var p := WordStart(h.route, pa, n);
      r == Ran(Onward(h, Regs(h), h.mem[..p] + Leaves(i.op, h.mem[p..p + n], b[8 - n..], pa % n) + h.mem[p + n..],
                      (h.mmu.pc + 4) % U64))
  {
    hide Exec, Lookup, ValidMmu, Stored, FromBig, Leaves, WordStart;
    AccessRuns(h, code, pa, b);
    EightBytes(b);
    StoredBytes(code(h.mmu.pc).op, h.mem, h.route, pa, b);
  }

  lemma PlainEntry(m: Mmu, code: nat)
    requires ValidMmu(m)
    ensures var r := RaisePlain(m, code);
      && r.tlb == m.tlb && r.cp0.excCode == code && r.cp0.exl && r.pc == VectorAddress(m.cp0.bev, 0x180)
  {
    hide Vector, ExcPc, ValidMmu;
    VectorsAt(m.cp0.bev, false, false);
  }

  lemma AccessTraps(h: Hart, code: Code, pa: u32)
    requires ValidHart(h) && Fetched(h) && code(h.mmu.pc).Access? && OffAlignment(h, code(h.mmu.pc), pa)
    ensures Exec(h, code) ==
            Ran(Begin(h).(mmu := RaisePlain(Begin(h).mmu, if Stores(code(h.mmu.pc).op) then 5 else 4)))
  {
    hide Lookup, ValidMmu, Loaded, Stored, Trap, RaisePlain;
    BeginLooks(h);
    var i := code(h.mmu.pc);
    BeginReaches(h, Add(Regs(h)[i.rs], i.imm), Kind(i.op));
  }

  /** The plain access at pc translates to pa, which is not a multiple of its width. */
  predicate OffAlignment(h: Hart, i: Inst, pa: u32)
    requires ValidHart(h) && i.Access?
  {
    var o := Lookup(h, (Regs(h)[i.rs] + i.imm) % U64, if Stores(i.op) then Store else Load);
    && o.To? && o.pa == pa
    && (((i.op == LW || i.op == SW) && pa % 4 != 0) || ((i.op == LD || i.op == SD) && pa % 8 != 0))
  }

  /** It touches nothing and raises an address error: ExcCode 4 or 5 at the general vector. */
  lemma AddressError(h: Hart, code: Code, pa: u32)
    requires ValidHart(h) && Fetched(h) && code(h.mmu.pc).Access? && OffAlignment(h, code(h.mmu.pc), pa)
    ensures var i, r := code(h.mmu.pc), Exec(h, code);
      && r.Ran? && r.h.gpr == Regs(h) && r.h.mem == h.mem && r.h.mmu.tlb == h.mmu.tlb
      && r.h.mmu.cp0.excCode == (if i.op == LW || i.op == LD then 4 else 5) && r.h.mmu.cp0.exl
      && r.h.mmu.pc == VectorAddress(h.mmu.cp0.bev, 0x180)
  {
    hide Exec, Lookup, ValidMmu, RaisePlain;
    AccessTraps(h, code, pa);
    PlainEntry(Begin(h).mmu, if Stores(code(h.mmu.pc).op) then 5 else 4);
  }

  // ---- branches ----

  /** The condition on signed numbers. */
  predicate Holds(c: Cond, s: int, t: int) {
    match c
    case Eq => s == t
    case Ne => s != t
    case Lez => s <= 0
    case Gtz => s > 0
    case Ltz => s < 0
    case Gez => s >= 0
  }

  lemma HoldsIfTaken(c: Cond, x: u64, y: u64)
    ensures Taken(c, x, y) == Holds(c, Signed(x), Signed(y))
  {
  }

  /** The branch at pc goes to its target. */
  predicate Goes(h: Hart, b: Inst)
    requires ValidHart(h) && b.Branch?
  {
    Holds(b.cond, Signed(Regs(h)[b.rs]), Signed(Regs(h)[b.rt]))
  }

  /** A likely branch whose condition fails skips its slot; linking, it has linked. */
  lemma LikelySkips(h: Hart, code: Code)
    requires ValidHart(h) && Fetched(h) && code(h.mmu.pc).Branch?
    requires code(h.mmu.pc).likely && !Goes(h, code(h.mmu.pc))
    ensures var b, pc := code(h.mmu.pc), h.mmu.pc;
      Exec(h, code) == Ran(Onward(h, if b.link then Regs(h)[31 := (pc + 8) % U64] else Regs(h), h.mem, (pc + 8) % U64))
  {
    hide Lookup, ValidMmu, Taken, Holds, Signed, RunSlot;
    BeginLooks(h);
    var b, pc := code(h.mmu.pc), h.mmu.pc;
    HoldsIfTaken(b.cond, Regs(h)[b.rs], Regs(h)[b.rt]);
    Further(pc, 4, 4);
  }

  lemma Further(pc: u64, d: int, e: int)
    ensures Add(Add(pc, d), e) == (pc + d + e) % U64
  {
    var q, r := (pc + d) / U64, (pc + d) % U64;
    var q2, r2 := (r + e) / U64, (r + e) % U64;
    QuotientUnique(pc + d + e, U64, q + q2, r2);
  }

  /** The machine that runs the slot as an instruction of its own; a likely branch has linked. */
  function SlotOf(h: Hart, b: Inst): (s: Hart)
    requires ValidHart(h) && b.Branch?
    ensures ValidHart(s)
  {
    var pc := h.mmu.pc;
    h.(gpr := if b.likely && b.link then Regs(h)[31 := (pc + 8) % U64] else Regs(h),
       mmu := h.mmu.(pc := (pc + 4) % U64))
  }

  /** The flag is not read and an instruction that does not fault leaves it and CP0 alone. */
  lemma FlagUnread(h: Hart, d: bool, i: Inst)
    requires ValidHart(h) && !i.Branch?
    requires i.Access? ==> var o := Lookup(h, Add(h.gpr[i.rs], i.imm), Kind(i.op)); o.To? && !Misaligned(i.op, ToU32(o.pa))
    ensures var s := h.(mmu := h.mmu.(inDelaySlot := d));
      Simple(s, i) == Simple(h, i).(mmu := Simple(h, i).mmu.(inDelaySlot := d))
    ensures Simple(h, i).mmu == h.mmu.(pc := Add(h.mmu.pc, 4)) && Simple(h, i).route == h.route
  {
    hide ValidMmu, Loaded, Stored, Translate, Misaligned, RaisePlain;
  }

  /** A delay slot that does not fault does what the instruction does on its own. */
  lemma SlotAlone(h: Hart, code: Code)
    requires ValidHart(h) && h.gpr[0] == 0 && !code(h.mmu.pc).Branch? && !Faults(h, code)
    ensures RunSlot(h, code) == Exec(h, code) && Exec(h, code).Ran?
    ensures var u := Exec(h, code).h;
      |u.gpr| == 32 && u.route == h.route && u.mmu == h.mmu.(pc := Add(h.mmu.pc, 4), tlbFault := false)
  {
    hide ValidMmu, Translate, Misaligned, Simple, Trap;
    var s := Begin(h);
    assert s.gpr == h.gpr && Begin(EnterSlot(h)) == s.(mmu := s.mmu.(inDelaySlot := true));
    FlagUnread(s, true, code(h.mmu.pc));
  }

  /** A branch that enters its slot does what the slot does and then goes to pc + 4 + imm exactly when
      its condition holds of the signed registers, else to pc + 8; a plain linking branch links last. */
  lemma BranchGoes(h: Hart, code: Code)
    requires ValidHart(h) && Fetched(h) && code(h.mmu.pc).Branch?
    requires var b := code(h.mmu.pc);
      && (b.likely ==> Goes(h, b))
      && !code(SlotOf(h, b).mmu.pc).Branch? && !Faults(SlotOf(h, b), code)
    ensures var b, pc, r := code(h.mmu.pc), h.mmu.pc, Exec(h, code);
      var t := Exec(SlotOf(h, b), code);
      && t.Ran? && |t.h.gpr| == 32
      && r == Ran(Onward(h, if b.link && !b.likely then t.h.gpr[31 := (pc + 8) % U64] else t.h.gpr, t.h.mem,
                         if Goes(h, b) then (pc + 4 + b.imm) % U64 else (pc + 8) % U64))
  {
    hide Lookup, ValidMmu, Taken, Holds, Signed, RunSlot, Simple, Faults;
    BeginLooks(h);
    var b, pc := code(h.mmu.pc), h.mmu.pc;
    HoldsIfTaken(b.cond, Regs(h)[b.rs], Regs(h)[b.rt]);
    Further(pc, 4, b.imm);
    Further(pc, 4, 4);
    var s := AtSlot(Begin(h), code);
    FaultsAlike(s, SlotOf(h, b), code);
    SlotAlone(s, code);
    assert Exec(s, code) == Exec(SlotOf(h, b), code);
  }
}
