/** The HPC3 SCSI channel: its descriptor-walk state machine over the disk controller and memory. */
module Hpc {
  import opened Words
  import opened Memory
  import Disk
  import opened Scsi

  datatype Fsm = Parked | Fetch | Xfer | DescDone

  /** One scatter-gather channel. */
  datatype Chan = Chan(
    cbp: u32, nbdp: u32, bc: u32, count: nat, active: bool, toDevice: bool, fsm: Fsm)

  /** What a byte moves between. */
  datatype Link = Link(dev: Dev, mem: seq<u8>)

  /** `route` is the low alias of local memory; `xie` the channel's interrupt. */
  datatype Sys = Sys(chan: Chan, link: Link, xie: bool, route: bool)

  predicate Ok(l: Link) {
    Valid(l.dev) && |l.mem| == DRAM_SIZE
  }

  predicate Eox(bc: u32) { bc >= 0x80000000 }

  predicate Xie(bc: u32) { Bit(bc, 0x20000000) }

  function Count(bc: u32): nat { bc % 0x4000 }

  // ---- moving bytes ----

  /** One byte between the device port and raw address a. */
  function Beat(l: Link, toDevice: bool, a: u32): (r: Link)
    requires Ok(l)
    ensures Ok(r)
  {
    if toDevice then l.(dev := DmaW(l.dev, l.mem[a]))
    else var (v, dev) := DmaR(l.dev); Link(dev, l.mem[a := v])
  }

  /** CH_XFER: bytes move until the count runs out or the device drops its request. */
  function Drain(s: Sys): (r: Sys)
    requires Ok(s.link)
    ensures Ok(r.link)
    ensures r.chan.count == 0 || !r.link.dev.drq
    ensures !s.link.dev.drq ==> r == s
    decreases s.chan.count
  {
    if s.chan.count == 0 || !s.link.dev.drq then s
    else
      var a := Loc(s.route, s.chan.cbp);
      Drain(s.(link := Beat(s.link, s.chan.toDevice, a),
               chan := s.chan.(cbp := Plus(s.chan.cbp, 1), count := s.chan.count - 1)))
  }

  /** scsi_fetch_chain. */
  function FetchChain(s: Sys): Chan
    requires Ok(s.link)
  {
    var c, mem := s.chan, s.link.mem;
    var bc := Word(mem, s.route, Plus(c.nbdp, 4));
    c.(cbp := Word(mem, s.route, c.nbdp), bc := bc, nbdp := Word(mem, s.route, Plus(c.nbdp, 8)), count := Count(bc))
  }

  /** A chain that ends before the data phase pauses it. */
  function Unchained(d: Dev): (r: Dev)
    requires Valid(d)
    ensures Valid(r)
  {
    if Residual(d) > 0 then Pause(d) else d
  }

  function ChainEnd(l: Link): (r: Link)
    requires Ok(l)
    ensures Ok(r)
  {
    l.(dev := Unchained(l.dev))
  }

  /** One turn of scsi_run_dma's loop; a turn without progress changes nothing. */
  function Tick(s: Sys): (r: Sys)
    requires Ok(s.link)
    ensures Ok(r.link)
  {
    if !s.chan.active then s
    else
      match s.chan.fsm
      case Parked => s
      case Fetch => s.(chan := FetchChain(s).(fsm := Xfer))
      case Xfer =>
        var t := Drain(s);
        if t.chan.count == 0 then t.(chan := t.chan.(fsm := DescDone)) else t
      case DescDone =>
        var s := s.(xie := s.xie || Xie(s.chan.bc));
        if Eox(s.chan.bc) then s.(link := ChainEnd(s.link), chan := s.chan.(active := false, fsm := Parked))
        else s.(chan := s.chan.(fsm := Fetch))
  }

  /** The channel control register: arm, direction, controller reset and flush, in that order. */
  function Control(s: Sys, x: u32): (r: Sys)
    requires Ok(s.link)
    ensures Ok(r.link)
  {
    var c := s.chan;
    var active := if Bit(x, 0x20) then c.active else Bit(x, 0x10);
    var c := c.(active := active, toDevice := Bit(x, 0x04), fsm := if !c.active && active then Fetch else c.fsm);
    s.(link := if Bit(x, 0x40) then s.link.(dev := Reset(s.link.dev)) else s.link,
       chan := if Bit(x, 0x08) then c.(active := false, fsm := Parked) else c)
  }

  function Ticks(s: Sys, n: nat): (r: Sys)
    requires Ok(s.link)
    ensures Ok(r.link)
    decreases n
  {
    if n == 0 then s else Ticks(Tick(s), n - 1)
  }

  /** The loop stops exactly where a turn makes no progress. */
  predicate Still(s: Sys) {
    !s.chan.active || s.chan.fsm == Parked || (s.chan.fsm == Xfer && s.chan.count != 0 && !s.link.dev.drq)
  }

  ghost predicate Halts(s: Sys)
    requires Ok(s.link)
  {
    exists n :: Still(Ticks(s, n))
  }

  /** Where scsi_run_dma leaves the system. */
  ghost function Settle(s: Sys): (r: Sys)
    requires Ok(s.link)
    ensures Ok(r.link) && (Halts(s) ==> Still(r))
  {
    if Halts(s) then var n :| Still(Ticks(s, n)); Ticks(s, n) else s
  }

  lemma {:induction false} TicksAdd(s: Sys, m: nat, n: nat)
    requires Ok(s.link)
    ensures Ticks(Ticks(s, m), n) == Ticks(s, m + n)
    decreases m
  {
    if m > 0 {
      TicksAdd(Tick(s), m - 1, n);
    }
  }

  lemma {:induction false} StillStays(s: Sys, n: nat)
    requires Ok(s.link) && Still(s)
    ensures Ticks(s, n) == s
  {
    if n > 0 {
      StillStays(s, n - 1);
    }
  }

  /** The stopping state does not depend on how many turns reach it. */
  lemma SettlesTo(s: Sys, n: nat)
    requires Ok(s.link) && Still(Ticks(s, n))
    ensures Halts(s) && Settle(s) == Ticks(s, n)
  {
    var m: nat :| Still(Ticks(s, m)) && Settle(s) == Ticks(s, m);
    if m <= n {
      TicksAdd(s, m, n - m);
      StillStays(Ticks(s, m), n - m);
    } else {
      TicksAdd(s, n, m - n);
      StillStays(Ticks(s, n), m - n);
    }
  }

  /** Running on from a later turn settles in the same place. */
  lemma SettleLater(s: Sys, n: nat)
    requires Ok(s.link)
    ensures Halts(s) <==> Halts(Ticks(s, n))
    ensures Halts(s) ==> Settle(s) == Settle(Ticks(s, n))
  {
    if m: nat :| Still(Ticks(Ticks(s, n), m)) {
      TicksAdd(s, n, m);
      SettlesTo(s, n + m);
      SettlesTo(Ticks(s, n), m);
    }
    if Halts(s) {
      var m: nat :| Still(Ticks(s, m));
      TicksAdd(s, m, n);
      TicksAdd(s, n, m);
      StillStays(Ticks(s, m), n);
      SettlesTo(Ticks(s, n), m);
    }
  }

  // ---- pouring a list of addresses through the port ----

  function Pour(l: Link, toDevice: bool, addrs: seq<u32>): (r: Link)
    requires Ok(l)
    ensures Ok(r)
    decreases |addrs|
  {
    if addrs == [] || !l.dev.drq then l else Pour(Beat(l, toDevice, addrs[0]), toDevice, addrs[1..])
  }

  predicate Matches(d: Dev, toDevice: bool) {
    d.phase == if toDevice then DataOut else DataIn
  }

  /** The device will serve n more bytes: a port driven against its phase never uses any up. */
  predicate Ready(d: Dev, toDevice: bool, n: nat)
    requires Valid(d)
  {
    n == 0 || (d.drq && (Matches(d, toDevice) ==> n <= Residual(d)))
  }

  lemma BeatReady(l: Link, toDevice: bool, a: u32, n: nat)
    requires Ok(l) && l.dev.drq
    ensures Ready(Beat(l, toDevice, a).dev, toDevice, n) <==> Ready(l.dev, toDevice, n + 1)
    ensures forall x: u32 :: x != a || toDevice ==> Beat(l, toDevice, a).mem[x] == l.mem[x]
  {
  }

  lemma {:induction false} PourReady(l: Link, toDevice: bool, addrs: seq<u32>, n: nat)
    requires Ok(l)
    ensures Ready(l.dev, toDevice, |addrs|) ==> (Ready(Pour(l, toDevice, addrs).dev, toDevice, n) <==> Ready(l.dev, toDevice, |addrs| + n))
    ensures !Ready(l.dev, toDevice, |addrs|) ==> !Pour(l, toDevice, addrs).dev.drq
    decreases |addrs|
  {
    if addrs != [] && l.dev.drq {
      BeatReady(l, toDevice, addrs[0], |addrs| - 1);
      BeatReady(l, toDevice, addrs[0], |addrs| - 1 + n);
      PourReady(Beat(l, toDevice, addrs[0]), toDevice, addrs[1..], n);
    }
  }

  lemma {:induction false} PourSplit(l: Link, toDevice: bool, a: seq<u32>, b: seq<u32>)
    requires Ok(l)
    ensures Pour(l, toDevice, a + b) == Pour(Pour(l, toDevice, a), toDevice, b)
    decreases |a|
  {
    if a == [] {
      assert a + b == b;
    } else if l.dev.drq {
      assert (a + b)[0] == a[0] && (a + b)[1..] == a[1..] + b;
      PourSplit(Beat(l, toDevice, a[0]), toDevice, a[1..], b);
    }
  }

  lemma PourStopped(l: Link, toDevice: bool, addrs: seq<u32>)
    requires Ok(l) && !l.dev.drq
    ensures Pour(l, toDevice, addrs) == l
  {
  }

  /** Only the poured addresses can change in memory, and none when it is the source. */
  lemma {:induction false} PourFrame(l: Link, toDevice: bool, addrs: seq<u32>, x: u32)
    requires Ok(l) && (toDevice || x !in addrs)
    ensures Pour(l, toDevice, addrs).mem[x] == l.mem[x]
    decreases |addrs|
  {
    if addrs != [] && l.dev.drq {
      BeatReady(l, toDevice, addrs[0], 0);
      PourFrame(Beat(l, toDevice, addrs[0]), toDevice, addrs[1..], x);
    }
  }

  /** CH_XFER pours the buffer, and reaches a zero count unless the device stops asking. */
  lemma {:induction false} DrainPours(s: Sys)
    requires Ok(s.link)
    ensures var (t, c) := (Drain(s), s.chan);
      && t.link == Pour(s.link, c.toDevice, Addrs(s.route, c.cbp, c.count))
      && t == s.(link := t.link, chan := c.(cbp := t.chan.cbp, count := t.chan.count))
      && (t.chan.count == 0 <==> Ready(s.link.dev, c.toDevice, c.count))
    decreases s.chan.count
  {
    hide DmaR, DmaW, Loc;
    var c := s.chan;
    if c.count != 0 && s.link.dev.drq {
      var a := Loc(s.route, c.cbp);
      BeatReady(s.link, c.toDevice, a, c.count - 1);
      assert Addrs(s.route, c.cbp, c.count)[1..] == Addrs(s.route, Plus(c.cbp, 1), c.count - 1);
      DrainPours(s.(link := Beat(s.link, c.toDevice, a), chan := c.(cbp := Plus(c.cbp, 1), count := c.count - 1)));
    }
  }

  // ---- descriptors in memory ----

  datatype Desc = Desc(buf: u32, bc: u32, next: u32)

  type Graph = map<u32, Desc>

  predicate Closed(g: Graph) {
    forall a :: a in g && !Eox(g[a].bc) ==> g[a].next in g
  }

  predicate InDesc(route: bool, at: u32, x: int) {
    InWord(route, at, x) || InWord(route, Plus(at, 4), x) || InWord(route, Plus(at, 8), x)
  }

  predicate Stored(mem: seq<u8>, route: bool, at: u32, d: Desc)
    requires |mem| == DRAM_SIZE
  {
    Word(mem, route, at) == d.buf && Word(mem, route, Plus(at, 4)) == d.bc && Word(mem, route, Plus(at, 8)) == d.next
  }

  predicate Holds(mem: seq<u8>, route: bool, g: Graph)
    requires |mem| == DRAM_SIZE
  {
    forall a {:trigger Stored(mem, route, a, g[a])} :: a in g ==> Stored(mem, route, a, g[a])
  }

  /** Buffers written by the device do not overlap descriptors. */
  ghost predicate Apart(route: bool, g: Graph) {
    forall a, b, x :: a in g && b in g && x in Buffer(route, g[a]) ==> !InDesc(route, b, x)
  }

  function Buffer(route: bool, d: Desc): seq<u32> {
    Addrs(route, d.buf, Count(d.bc))
  }

  lemma StillStored(mem: seq<u8>, mem2: seq<u8>, route: bool, at: u32, d: Desc)
    requires |mem| == |mem2| == DRAM_SIZE && Stored(mem, route, at, d)
    requires forall x: u32 :: InDesc(route, at, x) ==> mem[x] == mem2[x]
    ensures Stored(mem2, route, at, d)
  {
    WordUnchanged(mem, mem2, route, at);
    WordUnchanged(mem, mem2, route, Plus(at, 4));
    WordUnchanged(mem, mem2, route, Plus(at, 8));
  }

  lemma PourHolds(l: Link, toDevice: bool, route: bool, g: Graph, a: u32)
    requires Ok(l) && Holds(l.mem, route, g) && a in g && (toDevice || Apart(route, g))
    ensures Holds(Pour(l, toDevice, Buffer(route, g[a])).mem, route, g)
  {
    var m := Pour(l, toDevice, Buffer(route, g[a])).mem;
    forall b | b in g ensures Stored(m, route, b, g[b]) {
      forall x: u32 | InDesc(route, b, x) ensures l.mem[x] == m[x] {
        PourFrame(l, toDevice, Buffer(route, g[a]), x);
      }
      StillStored(l.mem, m, route, b, g[b]);
    }
  }

  /** About to fetch the descriptor at a. */
  predicate At(s: Sys, toDevice: bool, a: u32) {
    Ok(s.link) && s.chan.active && s.chan.fsm == Fetch && s.chan.nbdp == a && s.chan.toDevice == toDevice
  }

  /** The walk past one descriptor: its whole buffer is poured and the channel moves on or stops;
      or the device drops its request inside the buffer and the loop stops there. */
  lemma OneDescriptor(s: Sys, toDevice: bool, a: u32, d: Desc)
    requires At(s, toDevice, a) && Stored(s.link.mem, s.route, a, d)
    ensures !Still(s)
    ensures var p := Pour(s.link, toDevice, Buffer(s.route, d));
      if Ready(s.link.dev, toDevice, Count(d.bc)) then
        && !Still(Tick(s)) && !Still(Ticks(s, 2))
        && var t := Ticks(s, 3);
        && t.route == s.route && t.xie == (s.xie || Xie(d.bc))
        && if Eox(d.bc) then !t.chan.active && t.link == ChainEnd(p) else At(t, toDevice, d.next) && t.link == p
      else
        var t := Ticks(s, 2);
        && Still(t) && t.chan.active && t.link == p && t.route == s.route && t.xie == s.xie
  {
    hide Drain, Pour, Word, Addrs, Pause, Loc;
    var t1 := Tick(s);
    DrainPours(t1);
    PourReady(s.link, toDevice, Buffer(s.route, d), 0);
    var t2 := Tick(t1);
    assert Ticks(s, 2) == t2 by { assert Ticks(t1, 1) == Ticks(t2, 0); }
    assert Ticks(s, 3) == Tick(t2) by { assert Ticks(t1, 2) == Ticks(t2, 1) == Ticks(Tick(t2), 0); }
  }

  // ---- whole chains ----

  /** k descriptors can be walked from a: none of them but the last ends the chain. */
  predicate Walk(g: Graph, a: u32, k: nat)
    decreases k
  {
    k == 0 || (a in g && (k > 1 ==> !Eox(g[a].bc) && Walk(g, g[a].next, k - 1)))
  }

  /** The chain from a ends with its k-th descriptor. */
  predicate Chain(g: Graph, a: u32, k: nat): (r: bool)
    ensures r ==> Walk(g, a, k)
    decreases k
  {
    k > 0 && a in g && if Eox(g[a].bc) then k == 1 else Chain(g, g[a].next, k - 1)
  }

  /** The raw addresses of k descriptors' buffers, in transfer order. */
  function Slots(route: bool, g: Graph, a: u32, k: nat): seq<u32>
    requires Walk(g, a, k)
    decreases k
  {
    if k == 0 then [] else Buffer(route, g[a]) + Slots(route, g, g[a].next, k - 1)
  }

  predicate AnyXie(g: Graph, a: u32, k: nat)
    requires Walk(g, a, k)
    decreases k
  {
    k > 0 && (Xie(g[a].bc) || AnyXie(g, g[a].next, k - 1))
  }

  /** A terminated chain pours all its buffers in order. If the device serves them all the channel
      stops, pausing a data phase left open; otherwise the loop waits, still armed, where the device
      stopped. */
  lemma {:induction false} ChainRuns(s: Sys, toDevice: bool, g: Graph, a: u32, k: nat)
    requires At(s, toDevice, a) && Chain(g, a, k)
    requires Holds(s.link.mem, s.route, g) && (toDevice || Apart(s.route, g))
    ensures Halts(s)
    ensures var (t, slots) := (Settle(s), Slots(s.route, g, a, k));
      var p := Pour(s.link, toDevice, slots);
      && t.route == s.route
      && t.chan.active == !Ready(s.link.dev, toDevice, |slots|)
      && t.link == (if t.chan.active then p else ChainEnd(p))
      && (!t.chan.active ==> t.xie == (s.xie || AnyXie(g, a, k)))
    decreases k
  {
    hide Tick, Pour, Pause, Addrs, Holds, Apart, Stored, Settle, Halts;
    var (d, b) := (g[a], Buffer(s.route, g[a]));
    var rest := Slots(s.route, g, d.next, k - 1);
    assert Stored(s.link.mem, s.route, a, d) by { StoredAt(s.link.mem, s.route, g, a); }
    OneDescriptor(s, toDevice, a, d);
    PourSplit(s.link, toDevice, b, rest);
    PourReady(s.link, toDevice, b, |rest|);
    if !Ready(s.link.dev, toDevice, |b|) {
      SettlesTo(s, 2);
      PourStopped(Ticks(s, 2).link, toDevice, rest);
    } else if Eox(d.bc) {
      assert b + rest == b;
      SettlesTo(s, 3);
    } else {
      PourHolds(s.link, toDevice, s.route, g, a);
      ChainRuns(Ticks(s, 3), toDevice, g, d.next, k - 1);
      SettleLater(s, 3);
    }
  }

  lemma StoredAt(mem: seq<u8>, route: bool, g: Graph, a: u32)
    requires |mem| == DRAM_SIZE && Holds(mem, route, g) && a in g
    ensures Stored(mem, route, a, g[a])
  {
  }

  // ---- when the loop stops ----

  lemma {:induction false} Stalls(s: Sys, toDevice: bool, g: Graph, a: u32, k: nat)
    requires At(s, toDevice, a) && Walk(g, a, k) && !Ready(s.link.dev, toDevice, |Slots(s.route, g, a, k)|)
    requires Holds(s.link.mem, s.route, g) && (toDevice || Apart(s.route, g))
    ensures Halts(s)
    decreases k
  {
    hide Tick, Pour, Pause, Addrs, Holds, Apart, Stored, Settle, Halts;
    var (d, b) := (g[a], Buffer(s.route, g[a]));
    assert Stored(s.link.mem, s.route, a, d) by { StoredAt(s.link.mem, s.route, g, a); }
    OneDescriptor(s, toDevice, a, d);
    if !Ready(s.link.dev, toDevice, |b|) {
      SettlesTo(s, 2);
    } else {
      PourReady(s.link, toDevice, b, |Slots(s.route, g, d.next, k - 1)|);
      PourHolds(s.link, toDevice, s.route, g, a);
      Stalls(Ticks(s, 3), toDevice, g, d.next, k - 1);
      SettleLater(s, 3);
    }
  }

  lemma {:induction false} EndlessWalk(g: Graph, a: u32, k: nat)
    requires a in g && Closed(g) && forall j: nat :: !Chain(g, a, j)
    ensures Walk(g, a, k)
    decreases k
  {
    if k > 1 {
      assert !Chain(g, a, 1);
      Onward(g, a);
      EndlessWalk(g, g[a].next, k - 1);
    }
  }

  lemma Onward(g: Graph, a: u32)
    requires a in g && !Eox(g[a].bc) && forall j: nat :: !Chain(g, a, j)
    ensures forall j: nat :: !Chain(g, g[a].next, j)
  {
    forall j: nat ensures !Chain(g, g[a].next, j) {
      assert !Chain(g, a, j + 1);
    }
  }

  /** On an endless chain with a device that always serves, no turn is the last. */
  lemma {:induction false} Diverges(s: Sys, toDevice: bool, g: Graph, a: u32, n: nat)
    requires At(s, toDevice, a) && a in g && Closed(g) && forall j: nat :: !Chain(g, a, j)
    requires Holds(s.link.mem, s.route, g) && (toDevice || Apart(s.route, g))
    requires forall k: nat :: Walk(g, a, k) ==> Ready(s.link.dev, toDevice, |Slots(s.route, g, a, k)|)
    ensures !Still(Ticks(s, n))
    decreases n
  {
    hide Tick, Pour, Pause, Addrs, Holds, Apart, Stored;
    var (d, b) := (g[a], Buffer(s.route, g[a]));
    assert Stored(s.link.mem, s.route, a, d) by { StoredAt(s.link.mem, s.route, g, a); }
    OneDescriptor(s, toDevice, a, d);
    assert !Chain(g, a, 1);
    assert Ready(s.link.dev, toDevice, |b|) by {
      assert Walk(g, a, 1) && Slots(s.route, g, a, 1) == b + [];
    }
    if n >= 3 {
      var t := Ticks(s, 3);
      PourHolds(s.link, toDevice, s.route, g, a);
      Onward(g, a);
      forall k: nat | Walk(g, d.next, k) ensures Ready(t.link.dev, toDevice, |Slots(s.route, g, d.next, k)|) {
        assert Walk(g, a, k + 1);
        PourReady(s.link, toDevice, b, |Slots(s.route, g, d.next, k)|);
      }
      Diverges(t, toDevice, g, d.next, n - 3);
      TicksAdd(s, 3, n - 3);
    } else if n == 1 {
      assert Ticks(s, 1) == Tick(s) by { assert Ticks(Tick(s), 0) == Tick(s); }
    }
  }

  ghost predicate Ends(g: Graph, a: u32) {
    exists k: nat :: Chain(g, a, k)
  }

  /** The chain from a holds more bytes than the device serves. */
  ghost predicate Overruns(d: Dev, toDevice: bool, route: bool, g: Graph, a: u32)
    requires Valid(d)
  {
    exists k: nat :: Walk(g, a, k) && !Ready(d, toDevice, |Slots(route, g, a, k)|)
  }

  /** scsi_run_dma stops exactly when its chain ends, or holds more bytes than the device serves. */
  lemma HaltsIff(s: Sys, toDevice: bool, g: Graph, a: u32)
    requires At(s, toDevice, a) && a in g && Closed(g)
    requires Holds(s.link.mem, s.route, g) && (toDevice || Apart(s.route, g))
    ensures Halts(s) <==> Ends(g, a) || Overruns(s.link.dev, toDevice, s.route, g, a)
  {
    if k: nat :| Chain(g, a, k) {
      ChainRuns(s, toDevice, g, a, k);
    } else if k: nat :| Walk(g, a, k) && !Ready(s.link.dev, toDevice, |Slots(s.route, g, a, k)|) {
      Stalls(s, toDevice, g, a, k);
    } else {
      forall n: nat ensures !Still(Ticks(s, n)) {
        Diverges(s, toDevice, g, a, n);
      }
    }
  }

  lemma {:induction false} SlotsGrow(route: bool, g: Graph, a: u32, k: nat)
    requires a in g && Closed(g) && forall j: nat :: !Chain(g, a, j)
    requires forall b :: b in g && !Eox(g[b].bc) ==> Count(g[b].bc) > 0
    ensures Walk(g, a, k) && |Slots(route, g, a, k)| >= k
    decreases k
  {
    EndlessWalk(g, a, k);
    if k > 0 {
      assert !Chain(g, a, 1);
      Onward(g, a);
      SlotsGrow(route, g, g[a].next, k - 1);
    }
  }

  /** With no empty descriptor before the end, the loop stops on every graph, cycles included,
      except one: an endless chain against a device asking for the other direction. */
  lemma HaltsUnlessCrossed(s: Sys, toDevice: bool, g: Graph, a: u32)
    requires At(s, toDevice, a) && a in g && Closed(g)
    requires Holds(s.link.mem, s.route, g) && (toDevice || Apart(s.route, g))
    requires forall b :: b in g && !Eox(g[b].bc) ==> Count(g[b].bc) > 0
    ensures Halts(s) <==> Ends(g, a) || !s.link.dev.drq || Matches(s.link.dev, toDevice)
  {
    hide Holds, Apart, Closed, Slots, Walk, Halts, Count;
    HaltsIff(s, toDevice, g, a);
    if !Ends(g, a) && (!s.link.dev.drq || Matches(s.link.dev, toDevice)) {
      var k := Residual(s.link.dev) + 1;
      SlotsGrow(s.route, g, a, k);
      assert !Ready(s.link.dev, toDevice, |Slots(s.route, g, a, k)|);
    }
  }

  /** That case happens: one descriptor that leads to itself, read from memory into a device that
      has data to give. */
  lemma CrossedLoops() returns (s: Sys)
    ensures Ok(s.link) && s.chan.active && !Halts(s)
  {
    var dev := Dev(seq(32, _ => 0), DataIn, [0], 0, true, false, 0, 0, seq(18, _ => 0), Disk.Disk([], map[], false), 0);
    var mem := seq(DRAM_SIZE, i => if i == 0x1002 then 0x20 else if i == 0x1007 then 1 else if i == 0x100a then 0x10 else 0);
    var g: Graph := map[0x1000 := Desc(0x2000, 1, 0x1000)];
    s := Sys(Chan(0, 0x1000, 0, 0, true, true, Fetch), Link(dev, mem), false, false);
    assert Stored(mem, false, 0x1000, g[0x1000]);
    forall k: nat ensures !Chain(g, 0x1000, k) {
      SelfLoop(g, 0x1000, k);
    }
    HaltsUnlessCrossed(s, true, g, 0x1000);
  }

  lemma {:induction false} SelfLoop(g: Graph, a: u32, k: nat)
    requires a in g && g[a].next == a && !Eox(g[a].bc)
    ensures !Chain(g, a, k)
    decreases k
  {
    if k > 0 {
      SelfLoop(g, a, k - 1);
    }
  }
}
