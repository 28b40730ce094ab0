/** The Ethernet receive path as the objects it is: the controller's queue and staging buffer, and
    the channel that empties them into guest memory. */
module EnetChannel {
  import opened Words
  import opened ByteOrder
  import opened Memory
  import opened GuestMemory
  import opened EnetRx

  class SeeqDevice {
    var queue: seq<Frame>
    var cur: seq<u8>
    var pos: nat
    var stat: u8

    ghost function State(): Seeq
      reads this
    {
      Seeq(queue, cur, pos, stat)
    }

    constructor ()
      ensures State() == Seeq([], [], 0, 0x80)
    {
      queue, cur, pos, stat := [], [], 0, 0x80;
    }

    method Arrive(frame: Frame)
      modifies this`queue
      ensures queue == old(queue) + [frame]
    {
      queue := queue + [frame];
    }

    method RxAvail() returns (avail: bool)
      requires ValidSeeq(State())
      modifies this`queue, this`cur, this`pos
      ensures State() == Stage(old(State())) && avail == Avail(old(State()))
    {
      if pos < |cur| {
        return true;
      }
      if |queue| == 0 {
        return false;
      }
      var f := queue[0];
      cur := [0, 0] + f;
      if |f| < ETH_MIN {
        cur := cur + Zeros(ETH_MIN - |f|);
      } else {
        assert cur == cur + Zeros(0);
      }
      cur := cur + [RX_STATUS_GOOD];
      queue := queue[1..];
      pos := 0;
      return true;
    }

    method RxRead() returns (v: u8, last: bool)
      requires ValidSeeq(State())
      modifies this`pos, this`stat
      ensures old(pos) < |cur| ==> v == cur[old(pos)] && State() == Give(old(State()), 1) && last == (pos == |cur|)
      ensures old(pos) == |cur| ==> v == 0 && last && State() == old(State())
    {
      if pos >= |cur| {
        return 0, true;
      }
      v := cur[pos];
      pos := pos + 1;
      last := pos >= |cur|;
      if last {
        stat := RX_STATUS_GOOD;
      }
    }
  }

  class RxChannel {
    const seeq: SeeqDevice
    const mem: array<u8>
    const route: bool
    var nbdp: u32
    var cbp: u32
    var crbdp: u32
    var active: bool
    var xie: bool

    ghost predicate Good()
      reads this, seeq
    {
      ValidSeeq(seeq.State()) && mem.Length == DRAM_SIZE
    }

    ghost function State(): Rx
      reads this, seeq, mem
    {
      Rx(seeq.State(), mem[..], nbdp, cbp, crbdp, active, xie, route)
    }

    constructor (device: SeeqDevice, memory: array<u8>, alias: bool)
      requires ValidSeeq(device.State()) && memory.Length == DRAM_SIZE
      ensures Good() && seeq == device && mem == memory && route == alias && !active
    {
      seeq, mem, route := device, memory, alias;
      nbdp, cbp, crbdp, active, xie := 0, 0, 0, false, false;
    }

    /** Bytes of one frame into one buffer, up to its size. */
    method FillBuffer(pbuf: u32, bufsz: nat) returns (written: nat)
      requires Good() && seeq.pos < |seeq.cur| && bufsz < BCNT_SIZE
      modifies seeq, mem
      ensures Good()
      ensures var q := old(seeq.State());
        && written == Min(bufsz, |q.cur| - q.pos) && seeq.State() == Give(q, written)
        && mem[..] == Scatter(old(mem[..]), Addrs(route, pbuf, written), q.cur[q.pos..q.pos + written])
    {
      hide Scatter, Addrs, Loc;
      ghost var (q, m) := (seeq.State(), mem[..]);
      written := 0;
      NothingScattered(m, route, pbuf);
      assert q.cur[q.pos..q.pos + 0] == [];
      var last := false;
      while written < bufsz && !last
        invariant Good() && 0 <= written <= Min(bufsz, |q.cur| - q.pos) && seeq.State() == Give(q, written)
        invariant last == (seeq.pos == |q.cur|)
        invariant mem[..] == Scatter(m, Addrs(route, pbuf, written), q.cur[q.pos..q.pos + written])
        decreases bufsz - written
      {
        var avail := seeq.RxAvail();
        assert avail;
        var v;
        v, last := seeq.RxRead();
        AddrsMore(route, pbuf, written);
        ScatterMore(m, Addrs(route, pbuf, written), q.cur[q.pos..q.pos + written], Loc(route, Plus(pbuf, written)), v);
        mem[Loc(route, Plus(pbuf, written))] := v;
        assert q.cur[q.pos..q.pos + (written + 1)] == q.cur[q.pos..q.pos + written] + [v];
        written := written + 1;
      }
    }

    lemma NothingScattered(m: seq<u8>, r: bool, pbuf: u32)
      requires |m| == DRAM_SIZE
      ensures Scatter(m, Addrs(r, pbuf, 0), []) == m
    {
    }

    /** One owned descriptor. */
    method FillDescriptor(cntinfo: u32) returns (ghost f: Fill)
      requires Good() && active && seeq.pos < |seeq.cur| && cntinfo == Word(mem[..], route, Plus(nbdp, 4)) && Owned(cntinfo)
      modifies this, seeq, mem
      ensures Good() && f == FillOf(old(State())) && State() == Turn(old(State()))
    {
      hide Word, PutWord, Scatter, Addrs, Loc;
      ghost var s := State();
      f := FillOf(s);
      var desc := nbdp;
      crbdp := desc;
      var pbuf := ReadWord(mem, route, desc);
      var pnext := ReadWord(mem, route, Plus(desc, 8));
      var bufsz := Size(cntinfo);
      var written := FillBuffer(pbuf, bufsz);
      var residual := bufsz - written;
      WriteWord(mem, route, Plus(desc, 4), cntinfo - OWN - bufsz + residual);
      if Bit(cntinfo, 0x20000000) {
        xie := true;
      }
      cbp := pbuf;
      nbdp := pnext;
    }

    lemma NothingDone(s: Rx)
      requires Ok(s)
      ensures [] + Run(s).1 == Run(s).1 && (!s.active ==> Run(s) == (s, []))
    {
    }

    /** enet_run_dma, channel 0. */
    method RunRx() returns (ghost fills: seq<Fill>)
      requires Good()
      modifies this, seeq, mem
      ensures Good() && (State(), fills) == Run(old(State()))
    {
      hide FillOf, Left, Sum, Word, Turn, Owned, Run, Stage;
      ghost var s := State();
      fills := [];
      var more := active;
      NothingDone(s);
      while more
        invariant Good()
        invariant more ==> active && Run(s).0 == Run(State()).0 && Run(s).1 == fills + Run(State()).1
        invariant !more ==> State() == Run(s).0 && fills == Run(s).1
        decreases more, Left(seeq.State()), Sum(mem[..])
      {
        ghost var was := State();
        StagedRunsAlike(was);
        StagedTurnsAlike(was);
        RunSteps(was, fills);
        more := seeq.RxAvail();
        assert State() == Rest(was);
        if more {
          var cntinfo := ReadWord(mem, route, Plus(nbdp, 4));
          more := Owned(cntinfo);
          if more {
            TurnEnds(was);
            ghost var f := FillDescriptor(cntinfo);
            fills := fills + [f];
            more := !Bit(cntinfo, 0x80000000);
          }
        }
      }
    }
  }
}
