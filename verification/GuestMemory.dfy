/** Big-endian words of guest memory, read and written in place. */
module GuestMemory {
  import opened Words
  import opened Memory

  method ReadByte(mem: array<u8>, a: u32, n: nat) returns (b: u8)
    requires mem.Length == DRAM_SIZE
    ensures b == RawByte(mem[..], a, n)
  {
    b := if a + n < DRAM_SIZE then mem[a + n] else 0;
  }

  /** rd_be32. */
  method ReadWord(mem: array<u8>, route: bool, pa: u32) returns (w: u32)
    requires mem.Length == DRAM_SIZE
    ensures w == Word(mem[..], route, pa)
  {
    var a := Loc(route, pa);
    var b0: int := ReadByte(mem, a, 0);
    var b1: int := ReadByte(mem, a, 1);
    var b2: int := ReadByte(mem, a, 2);
    var b3: int := ReadByte(mem, a, 3);
    w := b0 * 0x1000000 + b1 * 0x10000 + b2 * 0x100 + b3;
  }

  method WriteByte(mem: array<u8>, a: u32, n: nat, b: u8)
    requires mem.Length == DRAM_SIZE
    modifies mem
    ensures mem[..] == PutByte(old(mem[..]), a, n, b)
  {
    if a + n < DRAM_SIZE {
      mem[a + n] := b;
    }
  }

  /** wr_be32. */
  method WriteWord(mem: array<u8>, route: bool, pa: u32, v: u32)
    requires mem.Length == DRAM_SIZE
    modifies mem
    ensures mem[..] == PutWord(old(mem[..]), route, pa, v)
  {
    hide PutByte;
    var a := Loc(route, pa);
    WriteByte(mem, a, 0, v / 0x1000000);
    WriteByte(mem, a, 1, v / 0x10000 % 256);
    WriteByte(mem, a, 2, v / 0x100 % 256);
    WriteByte(mem, a, 3, v % 256);
  }
}
