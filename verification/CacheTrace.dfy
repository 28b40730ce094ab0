/** Runs of the cached machine by their traces: what a load returns is the last byte written under
    either name of its location; and which lines get in each other's way. */
module CacheTrace {
  import opened Words
  import opened Memory
  import opened Cache

  /** Two addresses of one location: equal, or 128 MB apart with the lower in the first 512 KB. */
  predicate Same(route: bool, p: u32, q: u32) {
    p == q || (route && ((p < 0x8_0000 && q == p + 0x800_0000) || (q < 0x8_0000 && p == q + 0x800_0000)))
  }

  lemma SameLoc(route: bool, p: u32, q: u32)
    ensures Loc(route, p) == Loc(route, q) <==> Same(route, p, q)
  {
  }

  predicate Writes(route: bool, op: Op, q: u32) {
    (op.Store? || op.Device?) && Same(route, op.pa, q)
  }

  /** None of the operations writes the location of q. */
  predicate NoneWrites(route: bool, ops: seq<Op>, q: u32) {
    forall k :: 0 <= k < |ops| ==> !Writes(route, ops[k], q)
  }

  predicate LoadsLast(ops: seq<Op>, q: u32) {
    ops != [] && ops[|ops| - 1] == Load(q)
  }

  /** A flat memory holds a byte until it is written again. */
  lemma {:induction false} FlatHolds(route: bool, mem: seq<u8>, ops: seq<Op>, q: u32)
    requires |mem| == DRAM_SIZE && LoadsLast(ops, q) && NoneWrites(route, ops, q)
    ensures var out := FlatRun(route, mem, ops).0; out != [] && out[|out| - 1] == mem[Loc(route, q)]
    decreases |ops|
  {
    hide Loc, Same;
    if |ops| > 1 {
      SameLoc(route, if ops[0].Store? || ops[0].Device? then ops[0].pa else q, q);
      assert !Writes(route, ops[0], q);
      forall k | 0 <= k < |ops| - 1 ensures !Writes(route, ops[1..][k], q) {
        assert ops[1..][k] == ops[k + 1];
      }
      FlatHolds(route, FlatStep(route, mem, ops[0]), ops[1..], q);
    }
  }

  lemma {:induction false} FlatReads(route: bool, mem: seq<u8>, ops: seq<Op>, i: nat, q: u32)
    requires |mem| == DRAM_SIZE && LoadsLast(ops, q) && i < |ops| - 1
    requires Writes(route, ops[i], q) && NoneWrites(route, ops[i + 1..], q)
    ensures var out := FlatRun(route, mem, ops).0; out != [] && out[|out| - 1] == ops[i].v
    decreases |ops|
  {
    hide Loc, Same;
    var next := FlatStep(route, mem, ops[0]);
    if i == 0 {
      SameLoc(route, ops[0].pa, q);
      FlatHolds(route, next, ops[1..], q);
    } else {
      assert ops[1..][i..] == ops[i + 1..];
      FlatReads(route, next, ops[1..], i - 1, q);
    }
  }

  /** The memory the CPU sees. */
  function Flat(s: State): (mem: seq<u8>)
    requires Valid(s)
    ensures |mem| == DRAM_SIZE
  {
    seq(DRAM_SIZE, a requires 0 <= a < DRAM_SIZE => Byte(s, a))
  }

  /** Over any run, with lines filled, evicted and written back on the way, a load returns the byte of the
      last store or device write to its location, under whichever name. */
  lemma LoadsLastWrite(s: State, ops: seq<Op>, i: nat, q: u32)
    requires Valid(s) && LoadsLast(ops, q) && i < |ops| - 1
    requires Writes(s.route, ops[i], q) && NoneWrites(s.route, ops[i + 1..], q)
    ensures var out := Run(s, ops).0;
      Coherent(s) && CleanRun(s, ops) ==> out != [] && out[|out| - 1] == ops[i].v
  {
    hide Coherent, CleanRun, Byte, Loc, Valid;
    if Coherent(s) && CleanRun(s, ops) {
      RunIsFlat(s, Flat(s), ops);
      FlatReads(s.route, Flat(s), ops, i, q);
    }
  }

  /** And where nothing has been written, from an empty cache on, the byte of memory: for the first 512 KB
      with the alias on, of 128 MB further on. */
  lemma LoadsMemory(s: State, ops: seq<Op>, q: u32)
    requires Valid(s) && (forall i :: 0 <= i < SETS ==> !s.l1[i].valid) && CleanRun(s, ops)
    requires LoadsLast(ops, q) && NoneWrites(s.route, ops, q)
    ensures var out := Run(s, ops).0;
      out != [] && out[|out| - 1] == s.dram[if s.route && q < 0x8_0000 then q + 0x800_0000 else q]
  {
    assert Coherent(s);
    hide CleanRun, Coherent, Valid, Run, FlatRun;
    RunIsFlat(s, Flat(s), ops);
    FlatHolds(s.route, Flat(s), ops, q);
  }

  // ---- which lines get in each other's way ----

  /** After loads of p and then q the line of p is still there unless q has the same place in the cache: a
      distance that is a multiple of 128 KB apart, 32-byte blocks counted whole, but not the same
      block. */
  lemma Conflicts(s: State, p: u32, q: u32)
    requires Valid(s)
    ensures var t := LoadByte(LoadByte(s, p).1, q).1;
      Resident(t, q) && (Resident(t, p) <==> p / 32 == q / 32 || (p / 32 - q / 32) % 4096 != 0)
  {
    hide Fill, SetOf, TagOf;
    Blocks(p, q);
    FillPlaces(s, p, q);
    FillPlaces(Fill(s, p), q, p);
  }

  lemma FillPlaces(s: State, pa: u32, pb: u32)
    requires Valid(s)
    ensures Resident(Fill(s, pa), pa)
    ensures SetOf(pb) != SetOf(pa) ==> Fill(s, pa).l1[SetOf(pb)] == s.l1[SetOf(pb)]
  {
    hide Bytes, LineBase, Loc, ValidLine;
  }

  lemma Blocks(p: u32, q: u32)
    ensures SetOf(p) == SetOf(q) <==> (p / 32 - q / 32) % 4096 == 0
    ensures SetOf(p) == SetOf(q) && TagOf(p) == TagOf(q) <==> p / 32 == q / 32
  {
  }
}
