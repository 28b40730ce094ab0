/** The SCSI channel of the HPC3 as the object it is: channel fields and guest memory updated in
    place by the descriptor walk. */
module HpcChannel {
  import opened Words
  import opened Memory
  import opened GuestMemory
  import opened Scsi
  import opened Hpc
  import opened ScsiController

  class Channel {
    const dev: Controller
    const mem: array<u8>
    const route: bool
    var cbp: u32
    var nbdp: u32
    var bc: u32
    var count: nat
    var active: bool
    var toDevice: bool
    var fsm: Fsm
    var xie: bool

    ghost predicate Good()
      reads this, dev, dev.regs, dev.sense
    {
      dev.Good() && mem.Length == DRAM_SIZE && mem != dev.regs && mem != dev.sense
    }

    ghost function State(): Sys
      reads this, dev, dev.regs, dev.sense, mem
    {
      Sys(Chan(cbp, nbdp, bc, count, active, toDevice, fsm), Link(dev.State(), mem[..]), xie, route)
    }

    constructor (controller: Controller, memory: array<u8>, alias: bool)
      requires controller.Good() && memory.Length == DRAM_SIZE && memory != controller.regs && memory != controller.sense
      ensures Good() && dev == controller && mem == memory && route == alias && !active && fsm == Parked
    {
      dev, mem, route := controller, memory, alias;
      cbp, nbdp, bc, count, active, toDevice, fsm, xie := 0, 0, 0, 0, false, false, Parked, false;
    }

    method FetchDescriptor()
      requires Good()
      modifies this`cbp, this`bc, this`nbdp, this`count
      ensures Good() && State() == old(State()).(chan := FetchChain(old(State())))
    {
      hide Word, Valid;
      var desc := nbdp;
      cbp := ReadWord(mem, route, desc);
      bc := ReadWord(mem, route, Plus(desc, 4));
      nbdp := ReadWord(mem, route, Plus(desc, 8));
      count := Count(bc);
    }

    /** One byte of CH_XFER. */
    method MoveByte()
      requires Good() && count != 0
      modifies this`cbp, this`count, dev, dev.regs, mem
      ensures Good()
      ensures var s := old(State());
        State() == s.(link := Beat(s.link, s.chan.toDevice, Loc(s.route, s.chan.cbp)),
                      chan := s.chan.(cbp := Plus(s.chan.cbp, 1), count := s.chan.count - 1))
    {
      hide Finish;
      var a := Loc(route, cbp);
      if toDevice {
        dev.DmaWrite(mem[a]);
      } else {
        mem[a] := dev.DmaRead();
      }
      cbp := Plus(cbp, 1);
      count := count - 1;
    }

    method DrainBuffer()
      requires Good()
      modifies this`cbp, this`count, dev, dev.regs, mem
      ensures Good() && State() == Drain(old(State()))
    {
      while count != 0 && dev.drq
        invariant Good() && Drain(State()) == Drain(old(State()))
        decreases count
      {
        MoveByte();
      }
    }

    /** One turn of the loop: `progress` tells whether there may be another. */
    method Turn() returns (progress: bool)
      requires Good() && active
      modifies this, dev, dev.regs, mem
      ensures Good() && State() == Tick(old(State()))
      ensures !progress ==> Still(State())
      ensures Still(old(State())) ==> !progress
    {
      hide Word, Drain, Pause;
      match fsm
      case Parked =>
        progress := false;
      case Fetch =>
        FetchDescriptor();
        fsm := Xfer;
        progress := true;
      case Xfer =>
        DrainBuffer();
        progress := count == 0;
        if progress {
          fsm := DescDone;
        }
      case DescDone =>
        if Xie(bc) {
          xie := true;
        }
        if Eox(bc) {
          if dev.phase != Idle && |dev.buf| - dev.pos > 0 {
            dev.PauseTransfer();
          }
          active, fsm := false, Parked;
        } else {
          fsm := Fetch;
        }
        progress := true;
    }

    /** scsi_run_dma, wherever it returns at all. */
    method RunDma()
      requires Good() && Halts(State())
      modifies this, dev, dev.regs, mem
      ensures Good() && State() == Settle(old(State())) && Still(State())
    {
      hide Tick, Drain, Settle, Valid;
      ghost var s := State();
      ghost var n: nat :| Still(Ticks(s, n));
      ghost var i: nat := 0;
      var progress := true;
      while active && progress
        invariant Good() && i <= n + 1 && Ticks(s, i) == State()
        invariant !progress ==> Still(State())
        invariant i == n + 1 ==> !progress || !active
        decreases n + 1 - i
      {
        progress := Turn();
        TicksAdd(s, i, 1);
        i := i + 1;
      }
      SettlesTo(s, i);
    }

    method SetControl(x: u32)
      requires Good()
      modifies this, dev
      ensures Good() && State() == Control(old(State()), x)
    {
      hide Word, Bit;
      var wasActive := active;
      if !Bit(x, 0x20) {
        active := Bit(x, 0x10);
      }
      toDevice := Bit(x, 0x04);
      if !wasActive && active {
        fsm := Fetch;
      }
      if Bit(x, 0x40) {
        dev.Clear();
      }
      if Bit(x, 0x08) {
        active, fsm := false, Parked;
      }
    }

    /** A control write runs the channel it leaves armed. */
    method WriteControl(x: u32)
      requires Good() && Halts(Control(State(), x))
      modifies this, dev, dev.regs, mem
      ensures Good()
      ensures var s := Control(old(State()), x);
        State() == if s.chan.active then Settle(s) else s
    {
      hide Tick, Settle, Halts, Control, Valid, Still;
      SetControl(x);
      if active {
        RunDma();
      }
    }
  }
}
