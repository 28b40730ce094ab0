/** The interpreter loop's object: registers and memory updated in place by one instruction at a time,
    delay slots included. */
module Interpreter {
  import opened Words
  import opened ByteOrder
  import opened Memory
  import opened Unaligned
  import opened Tlb
  import opened Mmu
  import H = Hart
  import opened Processor

  class Machine {
    const gpr: array<u64>
    const mem: array<u8>
    const route: bool
    const cpu: Cpu

    ghost predicate Valid()
      reads cpu, cpu.tlb, cpu.utlb
    {
      gpr.Length == 32 && mem.Length == DRAM_SIZE && cpu.Valid()
    }

    ghost function State(): H.Hart
      reads gpr, mem, cpu, cpu.tlb
    {
      H.Hart(gpr[..], mem[..], route, cpu.M())
    }

    constructor (processor: Cpu, memory: array<u8>, alias: bool)
      requires processor.Valid() && memory.Length == DRAM_SIZE
      ensures Valid() && fresh(gpr) && mem == memory && cpu == processor && route == alias
      ensures forall i :: 0 <= i < 32 ==> gpr[i] == 0
    {
      gpr := new u64[32](_ => 0);
      mem, cpu, route := memory, processor, alias;
    }

    /** An aligned word of n bytes, most significant byte first. */
    method SetAligned(p: u32, n: nat, v: nat)
      requires mem.Length == DRAM_SIZE && p + n <= DRAM_SIZE
      modifies mem
      ensures mem[..] == WriteAligned(old(mem[..]), p, n, v)
    {
      hide Big;
      var s := Big(v, n);
      for i := 0 to n
        invariant mem[..] == old(mem[..p]) + s[..i] + old(mem[p + i..])
      {
        mem[p + i] := s[i];
      }
    }

    method Load(op: H.MemOp, rt: H.RegName, ea: u32)
      requires Valid()
      modifies gpr
      ensures Valid() && gpr[..] == old(gpr[..])[rt := H.Loaded(op, mem[..], route, ea, old(gpr[rt]))]
    {
      hide UtlbOk, ValidMmu, MergeLoadLeft, MergeLoadRight, KeepLow, FromBig, Extend;
      var (n, x, m) := (H.Size(op), gpr[rt], ea % H.Size(op));
      var p := Aligned(route, ea, n);
      var r := FromBig(mem[p..p + n]);
      assert r == ReadAligned(mem[..], p, n) by { assert mem[p..p + n] == mem[..][p..p + n]; }
      if op == H.LWL || op == H.LDL {
        gpr[rt] := Extend(n, MergeLoadLeft(n, r, KeepLow(x, n), m)) % U64;
      } else if op == H.LWR || op == H.LDR {
        gpr[rt] := Extend(n, MergeLoadRight(n, r, KeepLow(x, n), m)) % U64;
      } else {
        gpr[rt] := Extend(n, r) % U64;
      }
    }

    method Save(op: H.MemOp, x: u64, ea: u32)
      requires Valid()
      modifies mem
      ensures Valid() && mem[..] == H.Stored(op, old(mem[..]), route, ea, x)
    {
      hide UtlbOk, ValidMmu, MergeStoreLeft, MergeStoreRight, KeepLow, FromBig, WriteAligned;
      var (n, m) := (H.Size(op), ea % H.Size(op));
      var p := Aligned(route, ea, n);
      var r := FromBig(mem[p..p + n]);
      assert r == ReadAligned(mem[..], p, n) by { assert mem[p..p + n] == mem[..][p..p + n]; }
      if op == H.SWL || op == H.SDL {
        SetAligned(p, n, MergeStoreLeft(n, r, KeepLow(x, n), m));
      } else if op == H.SWR || op == H.SDR {
        SetAligned(p, n, MergeStoreRight(n, r, KeepLow(x, n), m));
      } else {
        SetAligned(p, n, KeepLow(x, n));
      }
    }

    /** set_exc_pc and raise_common. */
    method RaisePlain(code: nat)
      requires Valid()
      modifies cpu
      ensures Valid() && State() == old(State()).(mmu := H.RaisePlain(old(cpu.M()), code))
    {
      hide UtlbOk, ValidTlb, ArchHi, Vector, Add;
      cpu.SetExcPc();
      cpu.cp0 := cpu.cp0.(excCode := code, exl := true, erl := false);
      cpu.pc := Vector(cpu.cp0.bev, false, false);
    }

    method Advance(d: int)
      requires Valid()
      modifies cpu`pc
      ensures Valid() && State() == old(State()).(mmu := H.Advance(old(cpu.M()), d))
    {
      hide UtlbOk, ValidTlb, ArchHi, Add;
      cpu.pc := Add(cpu.pc, d);
    }

    /** A load or store: translate, and only then touch memory or a register. */
    method DoAccess(op: H.MemOp, rt: H.RegName, rs: H.RegName, imm: int)
      requires Valid() && !cpu.tlbFault
      modifies gpr, mem, cpu, cpu.utlb
      ensures Valid() && State() == H.DoAccess(old(State()), op, rt, rs, imm)
    {
      hide UtlbOk, ValidMmu, H.Loaded, H.Stored, RaiseTlb, Tlb.Translate, Add, H.Advance, H.RaisePlain;
      var va := Add(gpr[rs], imm);
      var pa, o := cpu.Translate(va, if H.Stores(op) then Op.Store else Op.Load);
      FaultFlag(old(cpu.M()), va, if H.Stores(op) then Op.Store else Op.Load, o);
      if cpu.tlbFault {
        return;
      }
      var ea := ToU32(pa);
      if H.Misaligned(op, ea) {
        RaisePlain(if H.Stores(op) then 5 else 4);
        return;
      }
      if H.Stores(op) {
        Save(op, gpr[rt], ea);
      } else {
        Load(op, rt, ea);
      }
      Advance(4);
    }

    /** The fault flag tells whether the translation failed. */
    lemma FaultFlag(m: Mmu, va: u64, op: Op, o: Outcome)
      requires !m.tlbFault
      ensures Take(m, va, op, o).tlbFault <==> !o.To?
    {
      hide FaultState, Vector;
    }

    method Simple(i: H.Inst)
      requires Valid() && !cpu.tlbFault && !i.Branch?
      modifies gpr, mem, cpu, cpu.utlb
      ensures Valid() && State() == H.Simple(old(State()), i)
    {
      hide UtlbOk, ValidMmu, H.DoAccess, Sext32, H.Advance;
      match i
      case Addiu(rt, rs, imm) =>
        gpr[rt] := Sext32((gpr[rs] + imm) % U32);
        Advance(4);
      case Access(op, rt, rs, imm) =>
        DoAccess(op, rt, rs, imm);
    }

    /** Register 0 and the fault flag are cleared, and the instruction is fetched. */
    method Fetch() returns (ok: bool)
      requires Valid()
      modifies gpr, cpu, cpu.utlb
      ensures Valid()
      ensures var s := H.Begin(old(State()));
        && ok == H.Lookup(s, s.mmu.pc, Op.Fetch).To?
        && State() == (if ok then s else H.Trap(s, s.mmu.pc, Op.Fetch))
    {
      hide UtlbOk, ValidTlb, ArchHi, RaiseTlb, Tlb.Translate;
      gpr[0] := 0;
      cpu.tlbFault := false;
      ghost var s := H.Begin(old(State()));
      assert State() == s;
      var pc := cpu.pc;
      var pa, o := cpu.Translate(pc, Op.Fetch);
      FaultFlag(s.mmu, pc, Op.Fetch, o);
      ok := !cpu.tlbFault;
    }

    /** run_delay_slot: whether the slot took an exception; a branch in the slot is left undefined. */
    method RunSlot(code: H.Code) returns (faulted: bool, defined: bool)
      requires Valid()
      modifies gpr, mem, cpu, cpu.utlb
      ensures defined == H.RunSlot(old(State()), code).Ran?
      ensures defined ==> Valid() && State() == H.RunSlot(old(State()), code).h && faulted == H.SlotFaulted(old(State()), State())
    {
      hide UtlbOk, ValidTlb, ArchHi, H.Begin, H.Trap, H.Simple, H.Lookup;
      var (exlBefore, saved) := (cpu.cp0.exl, cpu.inDelaySlot);
      cpu.inDelaySlot := true;
      assert State() == H.EnterSlot(old(State()));
      var ok := Fetch();
      defined, faulted := true, false;
      if ok {
        H.BeginKeeps(H.EnterSlot(old(State())));
        var i := code(cpu.pc);
        if i.Branch? {
          return false, false;
        }
        Simple(i);
      }
      cpu.inDelaySlot := saved;
      faulted := !exlBefore && cpu.cp0.exl;
    }

    /** branch: likely branches link first and skip an untaken slot. */
    method DoBranch(b: H.Inst, code: H.Code) returns (defined: bool)
      requires Valid() && b.Branch?
      modifies gpr, mem, cpu, cpu.utlb
      ensures defined == H.DoBranch(old(State()), b, code).Ran?
      ensures defined ==> Valid() && State() == H.DoBranch(old(State()), b, code).h
    {
      hide UtlbOk, ValidMmu, H.RunSlot, H.Taken, Add;
      var pc := cpu.pc;
      var npc := Add(pc, 4);
      var taken := H.Taken(b.cond, gpr[b.rs], gpr[b.rt]);
      SetPc(npc);
      assert State() == H.Goto(old(State()), npc);
      var faulted;
      defined := true;
      if b.likely {
        if b.link {
          gpr[31] := Add(pc, 8);
        }
        assert State() == H.Link(H.Goto(old(State()), npc), b.link, pc);
        if taken {
          faulted, defined := RunSlot(code);
          if defined && !faulted {
            SetPc(Add(npc, b.imm));
          }
        } else {
          SetPc(Add(npc, 4));
        }
      } else {
        faulted, defined := RunSlot(code);
        if defined {
          if b.link {
            gpr[31] := Add(pc, 8);
          }
          if taken && !faulted {
            SetPc(Add(npc, b.imm));
          }
        }
      }
    }

    method SetPc(pc: u64)
      requires Valid()
      modifies cpu`pc
      ensures Valid() && State() == H.Goto(old(State()), pc)
    {
      hide UtlbOk, ValidTlb, ArchHi;
      cpu.pc := pc;
    }

    /** execMips: one instruction, with its delay slot if it is a branch. */
    method ExecInst(code: H.Code) returns (defined: bool)
      requires Valid()
      modifies gpr, mem, cpu, cpu.utlb
      ensures defined == H.Exec(old(State()), code).Ran?
      ensures defined ==> Valid() && State() == H.Exec(old(State()), code).h
    {
      hide UtlbOk, ValidMmu, H.Begin, H.Trap, H.Simple, H.DoBranch, H.Lookup;
      H.BeginKeeps(State());
      var ok := Fetch();
      defined := true;
      if ok {
        var i := code(cpu.pc);
        if i.Branch? {
          defined := DoBranch(i, code);
        } else {
          Simple(i);
        }
      }
    }
  }
}
