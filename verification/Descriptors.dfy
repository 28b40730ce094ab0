/** The DMA descriptors as bytes of memory: three words each, most significant byte first. */
module Descriptors {
  import opened Words
  import opened ByteOrder
  import opened Memory
  import Hpc
  import EnetRx

  /** A descriptor at this address, off the aliased part of memory. */
  predicate DescriptorAt(mem: seq<u8>, route: bool, at: u32, buf: u32, info: u32, next: u32)
    requires |mem| == DRAM_SIZE
  {
    && at + 12 <= DRAM_SIZE && (route ==> at >= 0x8_0000)
    && mem[at..at + 4] == Big(buf, 4) && mem[at + 4..at + 8] == Big(info, 4) && mem[at + 8..at + 12] == Big(next, 4)
  }

  lemma BigWord(mem: seq<u8>, route: bool, at: u32, v: u32)
    requires |mem| == DRAM_SIZE && at + 4 <= DRAM_SIZE && (route ==> at >= 0x8_0000) && mem[at..at + 4] == Big(v, 4)
    ensures Word(mem, route, at) == v
  {
    UnaliasedWord(mem, route, at);
    assert Pow256(4) == U32;
    BigRoundTrip(v, 4);
  }

  lemma ReadsDescriptor(mem: seq<u8>, route: bool, at: u32, buf: u32, info: u32, next: u32)
    requires |mem| == DRAM_SIZE && DescriptorAt(mem, route, at, buf, info, next)
    ensures Word(mem, route, at) == buf && Word(mem, route, Plus(at, 4)) == info && Word(mem, route, Plus(at, 8)) == next
  {
    BigWord(mem, route, at, buf);
    BigWord(mem, route, at + 4, info);
    BigWord(mem, route, at + 8, next);
  }

  // ---- SCSI ----

  function Flag(b: bool, weight: nat): nat {
    if b then weight else 0
  }

  /** The middle word of a SCSI descriptor: end of chain, an unused bit, interrupt, more unused bits, and
      a 14-bit byte count. */
  function ScsiInfo(eox: bool, spare: bool, xie: bool, rest: nat, count: nat): nat {
    Flag(eox, 0x8000_0000) + Flag(spare, 0x4000_0000) + Flag(xie, 0x2000_0000) + rest * 0x4000 + count
  }

  lemma InfoFields(eox: bool, spare: bool, xie: bool, rest: nat, count: nat)
    requires rest < 0x8000 && count < 0x4000
    ensures var bc := ScsiInfo(eox, spare, xie, rest, count);
      bc < U32 && Hpc.Eox(bc) == eox && Hpc.Xie(bc) == xie && Hpc.Count(bc) == count
  {
    var bc := ScsiInfo(eox, spare, xie, rest, count);
    var top := Flag(eox, 4) + Flag(spare, 2) + Flag(xie, 1);
    QuotientUnique(bc, 0x4000, top * 0x8000 + rest, count);
    QuotientUnique(bc, 0x2000_0000, top, rest * 0x4000 + count);
    QuotientUnique(top, 2, Flag(eox, 2) + Flag(spare, 1), Flag(xie, 1));
  }

  /** A fetching channel takes buffer, count and next descriptor from memory, and after the buffer raises
      its interrupt if the descriptor asks and stops or goes on as it says. */
  lemma FetchesDescriptor(s: Hpc.Sys, buf: u32, next: u32, eox: bool, spare: bool, xie: bool, rest: nat, count: nat)
    requires Hpc.Ok(s.link) && s.chan.active && s.chan.fsm == Hpc.Fetch && rest < 0x8000 && count < 0x4000
    requires ScsiInfo(eox, spare, xie, rest, count) < U32
    requires DescriptorAt(s.link.mem, s.route, s.chan.nbdp, buf, ScsiInfo(eox, spare, xie, rest, count), next)
    ensures var t := Hpc.Tick(s);
      && t.link == s.link && t.xie == s.xie && t.chan.fsm == Hpc.Xfer && t.chan.active
      && t.chan.cbp == buf && t.chan.count == count && t.chan.nbdp == next && t.chan.toDevice == s.chan.toDevice
      && var d := Hpc.Tick(t.(chan := t.chan.(fsm := Hpc.DescDone)));
         d.xie == (s.xie || xie) && d.chan.active == !eox
  {
    hide Hpc.Drain, Hpc.Eox, Hpc.Xie, Hpc.Count, Word, Hpc.ChainEnd, ScsiInfo;
    InfoFields(eox, spare, xie, rest, count);
    ReadsDescriptor(s.link.mem, s.route, s.chan.nbdp, buf, ScsiInfo(eox, spare, xie, rest, count), next);
  }

  // ---- Ethernet ----

  /** The middle word of a receive descriptor: high bits, the controller's ownership, and a 14-bit size. */
  function EnetInfo(high: nat, own: bool, size: nat): nat {
    high * 0x8000 + Flag(own, 0x4000) + size
  }

  lemma EnetFields(high: nat, own: bool, size: nat)
    requires size < 0x4000 && EnetInfo(high, own, size) < U32
    ensures EnetRx.Owned(EnetInfo(high, own, size)) == own && EnetRx.Size(EnetInfo(high, own, size)) == size
  {
    QuotientUnique(EnetInfo(high, own, size), 0x4000, 2 * high + Flag(own, 1), size);
    QuotientUnique(2 * high + Flag(own, 1), 2, high, Flag(own, 1));
  }

  /** A receive descriptor is used while it is owned: filled with as much of the frame as fits, given back
      with the room left over for its size, followed by the next, with an interrupt if bit 29 asks. */
  lemma UsesDescriptor(s: EnetRx.Rx, buf: u32, next: u32, high: nat, own: bool, size: nat)
    requires EnetRx.Ok(s) && s.active && EnetRx.Avail(s.seeq) && size < 0x4000 && EnetInfo(high, own, size) < U32
    requires DescriptorAt(s.mem, s.route, s.nbdp, buf, EnetInfo(high, own, size), next)
    ensures EnetRx.Turns(s) <==> own
    ensures own ==>
      var (f, q) := (EnetRx.FillOf(s), EnetRx.Stage(s.seeq));
      var n := Min(size, |q.cur| - q.pos);
      && f.desc == s.nbdp && f.buf == buf && f.bytes == q.cur[q.pos..q.pos + n]
      && EnetRx.Returned(f.info, |f.bytes|) == EnetInfo(high, false, size - n) && EnetRx.Turn(s).nbdp == next
      && EnetRx.Turn(s).xie == (s.xie || high / 0x4000 % 2 == 1)
  {
    hide Word, EnetRx.Stage, EnetRx.FillMem, EnetRx.Owned, EnetRx.Size, EnetRx.Avail;
    EnetFields(high, own, size);
    QuotientUnique(EnetInfo(high, own, size), 0x2000_0000, high / 0x4000, high % 0x4000 * 0x8000 + Flag(own, 0x4000) + size);
    ReadsDescriptor(s.mem, s.route, s.nbdp, buf, EnetInfo(high, own, size), next);
  }
}
