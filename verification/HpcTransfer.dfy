/** Whole SCSI transfers: a command served by any sequence of descriptor chains, paused between them
    and resumed, moves what one chain would. */
module HpcTransfer {
  import opened Words
  import opened Memory
  import opened Disk
  import opened Scsi
  import opened Hpc

  // ---- what pouring moves ----

  /** The device after n bytes of its data phase. */
  function Moved(d: Dev, n: nat): (r: Dev)
    requires Valid(d) && d.phase != Idle && n <= Residual(d)
    ensures Valid(r) && Residual(r) == Residual(d) - n
  {
    var e := d.(pos := d.pos + n);
    if n == Residual(d) then Finish(e) else e
  }

  lemma BeatIn(l: Link, a: u32)
    requires Ok(l) && l.dev.phase == DataIn && l.dev.drq
    ensures Beat(l, false, a) == Link(Moved(l.dev, 1), l.mem[a := l.dev.buf[l.dev.pos]])
    ensures var d := Moved(l.dev, 1);
      if Residual(l.dev) == 1 then !d.drq else d == l.dev.(pos := l.dev.pos + 1)
  {
    hide WriteBlocks;
  }

  /** A data-in phase scatters the next bytes of its buffer, as many as both sides have. */
  lemma {:induction false} PourIn(l: Link, addrs: seq<u32>)
    requires Ok(l) && l.dev.phase == DataIn && l.dev.drq
    ensures var (d, n) := (l.dev, Min(|addrs|, Residual(l.dev)));
      Pour(l, false, addrs) == Link(Moved(d, n), Scatter(l.mem, addrs[..n], d.buf[d.pos..d.pos + n]))
    decreases |addrs|
  {
    hide Finish, Beat;
    if addrs != [] {
      var (d, n) := (l.dev, Min(|addrs|, Residual(l.dev)));
      BeatIn(l, addrs[0]);
      var next := Beat(l, false, addrs[0]);
      var data := d.buf[d.pos..d.pos + n];
      assert addrs[..n][1..] == addrs[1..][..n - 1];
      assert data[1..] == d.buf[d.pos + 1..d.pos + n];
      if Residual(d) == 1 {
        PourStopped(next, false, addrs[1..]);
      } else {
        PourIn(next, addrs[1..]);
      }
    }
  }

  /** A data-out phase gathers the next bytes into its buffer. */
  function Filled(d: Dev, data: seq<u8>): (r: Dev)
    requires Valid(d) && d.phase != Idle && |data| <= Residual(d)
    ensures Valid(r) && Residual(r) == Residual(d)
  {
    d.(buf := d.buf[..d.pos] + data + d.buf[d.pos + |data|..])
  }

  lemma FillsInTurn(d: Dev, data: seq<u8>)
    requires Valid(d) && d.phase != Idle && 0 < |data| <= Residual(d)
    ensures var b := d.buf[d.pos := data[0]];
      && (Residual(d) == 1 ==> Filled(d, data).buf == b)
      && (Residual(d) > 1 ==> Filled(d.(buf := b, pos := d.pos + 1), data[1..]).buf == Filled(d, data).buf)
  {
  }

  /** Filling and moving on is the same one byte at a time. */
  lemma FillMoves(d: Dev, data: seq<u8>)
    requires Valid(d) && d.phase != Idle && 0 < |data| <= Residual(d)
    ensures var e := d.(buf := d.buf[d.pos := data[0]], pos := d.pos + 1);
      && (Residual(d) == 1 ==> Moved(Filled(d, data), 1) == Finish(e))
      && (Residual(d) > 1 ==> Moved(Filled(e, data[1..]), |data| - 1) == Moved(Filled(d, data), |data|))
  {
    hide Finish, Filled;
    FillsInTurn(d, data);
    FilledBuf(d, data);
    if Residual(d) > 1 {
      FilledBuf(d.(buf := d.buf[d.pos := data[0]], pos := d.pos + 1), data[1..]);
    }
  }

  lemma FilledBuf(d: Dev, data: seq<u8>)
    requires Valid(d) && d.phase != Idle && |data| <= Residual(d)
    ensures Filled(d, data) == d.(buf := Filled(d, data).buf)
  {
  }

  lemma BeatOut(l: Link, a: u32)
    requires Ok(l) && l.dev.phase == DataOut && l.dev.drq
    ensures var (d, b) := (l.dev, l.dev.buf[l.dev.pos := l.mem[a]]);
      && Beat(l, true, a).mem == l.mem
      && if Residual(d) == 1 then Beat(l, true, a).dev == Finish(d.(buf := b, pos := d.pos + 1))
         else Beat(l, true, a).dev == d.(buf := b, pos := d.pos + 1)
  {
    hide Finish;
  }

  lemma {:induction false} PourOut(l: Link, addrs: seq<u32>)
    requires Ok(l) && l.dev.phase == DataOut && l.dev.drq
    ensures var (d, n) := (l.dev, Min(|addrs|, Residual(l.dev)));
      Pour(l, true, addrs) == Link(Moved(Filled(d, Gather(l.mem, addrs[..n])), n), l.mem)
    decreases |addrs|
  {
    hide Finish, Moved, Gather, Beat, Filled;
    var (d, n) := (l.dev, Min(|addrs|, Residual(l.dev)));
    if addrs == [] {
      assert Gather(l.mem, addrs[..n]) == [];
      NothingMoved(d);
    } else {
      var next := Beat(l, true, addrs[0]);
      BeatOut(l, addrs[0]);
      GatherSplit(l.mem, [addrs[0]], addrs[1..][..n - 1]);
      assert addrs[..n] == [addrs[0]] + addrs[1..][..n - 1];
      GatherOne(l.mem, addrs[0]);
      FillMoves(d, Gather(l.mem, addrs[..n]));
      if Residual(d) == 1 {
        PourStopped(next, true, addrs[1..]);
      } else {
        PourOut(next, addrs[1..]);
      }
    }
  }

  lemma NothingMoved(d: Dev)
    requires Valid(d) && d.phase != Idle
    ensures Moved(Filled(d, []), 0) == d
  {
    assert Filled(d, []).buf == d.buf;
  }

  /** The bytes a pour moves: out of memory, or out of the device's buffer. */
  function Bytes(l: Link, toDevice: bool, addrs: seq<u32>): (data: seq<u8>)
    requires Ok(l) && l.dev.drq
    ensures |data| == Min(|addrs|, Residual(l.dev))
  {
    var n := Min(|addrs|, Residual(l.dev));
    if toDevice then Gather(l.mem, addrs[..n]) else l.dev.buf[l.dev.pos..l.dev.pos + n]
  }

  /** The device after these bytes have passed through its buffer; of a data-in phase they are the
      buffer's own. */
  function Taken(d: Dev, data: seq<u8>): (r: Dev)
    requires Valid(d) && d.phase != Idle && |data| <= Residual(d)
    ensures Valid(r) && Residual(r) == Residual(d) - |data|
  {
    Moved(Filled(d, data), |data|)
  }

  lemma PourTakes(l: Link, toDevice: bool, addrs: seq<u32>)
    requires Ok(l) && l.dev.drq && Matches(l.dev, toDevice)
    ensures var data := Bytes(l, toDevice, addrs);
      Pour(l, toDevice, addrs)
      == Link(Taken(l.dev, data), if toDevice then l.mem else Scatter(l.mem, addrs[..|data|], data))
  {
    hide Moved, Pour, Scatter, Gather;
    if toDevice {
      PourOut(l, addrs);
    } else {
      PourIn(l, addrs);
      assert Filled(l.dev, Bytes(l, toDevice, addrs)).buf == l.dev.buf;
    }
  }

  /** Bytes taken in two lots. */
  lemma TakenTwice(d: Dev, a: seq<u8>, b: seq<u8>)
    requires Valid(d) && d.phase != Idle && |a| < Residual(d) && |a| + |b| <= Residual(d)
    ensures Taken(d, a).phase == d.phase
    ensures Taken(Taken(d, a), b) == Taken(d, a + b)
  {
    hide Finish, Filled;
    var t := d.(buf := Filled(d, a).buf, pos := d.pos + |a|);
    FilledBuf(d, a);
    FilledBuf(d, a + b);
    FilledTwice(d, a, b);
    FilledBuf(t, b);
  }

  lemma FilledTwice(d: Dev, a: seq<u8>, b: seq<u8>)
    requires Valid(d) && d.phase != Idle && |a| < Residual(d) && |a| + |b| <= Residual(d)
    ensures var t := d.(buf := Filled(d, a).buf, pos := d.pos + |a|);
      Valid(t) && Filled(t, b).buf == Filled(d, a + b).buf
  {
  }

  lemma TakenRest(d: Dev, a: seq<u8>, n: nat)
    requires Valid(d) && d.phase != Idle && |a| < Residual(d) && |a| + n <= Residual(d)
    ensures var t := Taken(d, a);
      t.pos == d.pos + |a| && |t.buf| == |d.buf| && t.buf[t.pos..t.pos + n] == d.buf[t.pos..t.pos + n]
  {
    hide Finish;
  }

  lemma NothingTaken(d: Dev, data: seq<u8>)
    requires Valid(d) && d.phase != Idle && data == []
    ensures Taken(d, data) == d
  {
    NothingMoved(d);
  }

  // ---- arming and resuming ----

  function Arm(s: Sys, toDevice: bool, at: u32): Sys {
    s.(chan := s.chan.(nbdp := at, active := true, toDevice := toDevice, fsm := Fetch))
  }

  /** Writing a start word to an idle channel's control register arms it. */
  lemma ControlArms(s: Sys, at: u32, x: u32)
    requires Ok(s.link) && !s.chan.active
    requires Bit(x, 0x10) && !Bit(x, 0x20) && !Bit(x, 0x40) && !Bit(x, 0x08)
    ensures Control(s.(chan := s.chan.(nbdp := at)), x) == Arm(s, Bit(x, 0x04), at)
  {
  }

  /** The driver acknowledges the last interrupt and issues Select-and-Transfer. */
  function Command(l: Link): (r: Link)
    requires Ok(l)
    ensures Ok(r)
  {
    l.(dev := Select(Ack(l.dev)))
  }

  /** A command write runs the channel if it is armed and the device now asks for data. */
  ghost function Pump(s: Sys): (r: Sys)
    requires Ok(s.link)
    ensures Ok(r.link)
  {
    if s.chan.active && s.link.dev.drq then Settle(s) else s
  }

  /** The driver starts one chain: it arms the channel and issues the command, in either order. */
  ghost function Start(s: Sys, toDevice: bool, desc: u32, armFirst: bool): (r: Sys)
    requires Ok(s.link)
    ensures Ok(r.link)
  {
    if armFirst then
      var t := Settle(Arm(s, toDevice, desc));
      Pump(t.(link := Command(t.link)))
    else Settle(Arm(Pump(s.(link := Command(s.link))), toDevice, desc))
  }

  lemma Earliest(s: Sys, n: nat) returns (m: nat)
    requires Ok(s.link) && Still(Ticks(s, n))
    ensures m <= n && Still(Ticks(s, m)) && forall k: nat :: k < m ==> !Still(Ticks(s, k))
  {
    m := 0;
    while !Still(Ticks(s, m))
      invariant m <= n && forall k: nat :: k < m ==> !Still(Ticks(s, k))
      decreases n - m
    {
      m := m + 1;
    }
  }

  lemma TickIgnoresDevice(s: Sys, e: Dev)
    requires Ok(s.link) && Valid(e) && !s.link.dev.drq && !Still(s) && Tick(s).chan.active
    ensures Tick(s.(link := s.link.(dev := e))) == Tick(s).(link := s.link.(dev := e)) && Tick(s).link == s.link
  {
    hide Word, Beat, ChainEnd;
  }

  /** While nothing is asked for, the walk never touches the device. */
  lemma {:induction false} WalkIgnoresDevice(s: Sys, e: Dev, n: nat)
    requires Ok(s.link) && Valid(e) && !s.link.dev.drq
    requires (forall k: nat :: k < n ==> !Still(Ticks(s, k))) && Ticks(s, n).chan.active
    ensures Ticks(s.(link := s.link.(dev := e)), n) == Ticks(s, n).(link := s.link.(dev := e))
    ensures Ticks(s, n).link == s.link
    decreases n
  {
    hide Tick, Valid;
    if n > 0 {
      var t := Tick(s);
      assert !Still(Ticks(s, 0));
      if !t.chan.active {
        StillStays(t, n - 1);
        assert false;
      }
      TickIgnoresDevice(s, e);
      forall k: nat | k < n - 1 ensures !Still(Ticks(t, k)) {
        assert !Still(Ticks(s, k + 1));
      }
      WalkIgnoresDevice(t, e, n - 1);
    }
  }

  /** Arming before the command or after it comes to the same. */
  lemma ArmingOrder(s: Sys, toDevice: bool, g: Graph, desc: u32, k: nat, armFirst: bool)
    requires Ok(s.link) && !s.chan.active && !s.link.dev.drq && Command(s.link).dev.drq
    requires Chain(g, desc, k) && |Slots(s.route, g, desc, k)| > 0
    requires Holds(s.link.mem, s.route, g) && (toDevice || Apart(s.route, g))
    ensures Start(s, toDevice, desc, armFirst) == Settle(Arm(s.(link := Command(s.link)), toDevice, desc))
  {
    hide Tick, Slots, Chain, Holds, Apart, Select, Pour;
    var a := Arm(s, toDevice, desc);
    ChainRuns(a, toDevice, g, desc, k);
    var n: nat :| Still(Ticks(a, n));
    var m := Earliest(a, n);
    SettlesTo(a, m);
    var b := a.(link := Command(s.link));
    WalkIgnoresDevice(a, b.link.dev, m);
    SettleLater(b, m);
    ChainHalts(b, toDevice, g, desc, k);
  }

  lemma ChainHalts(s: Sys, toDevice: bool, g: Graph, a: u32, k: nat)
    requires At(s, toDevice, a) && Chain(g, a, k)
    requires Holds(s.link.mem, s.route, g) && (toDevice || Apart(s.route, g))
    ensures Halts(s)
  {
    ChainRuns(s, toDevice, g, a, k);
  }

  /** The command resumes a paused phase at the same cursor, whatever the driver has written to the
      controller's registers since. */
  lemma Resumed(d: Dev, regs: seq<u8>)
    requires Valid(d) && d.drq && !d.intrq && 0 < d.pos && |regs| == 32
    ensures Select(Ack(Pause(d).(regs := regs))) == d.(regs := regs, posts := d.posts + 1)
    ensures !Pause(d).drq
  {
  }

  // ---- a transfer in chunks ----

  /** One chain of a transfer as the driver prepares it: memory and the controller's registers as the
      driver leaves them, the chain's descriptors, its first one and its length, and whether the driver
      arms the channel before it issues the command. */
  datatype Chunk = Chunk(mem: Dram, regs: RegFile, g: Graph, desc: u32, len: nat, armFirst: bool)

  type Dram = m: seq<u8> | |m| == DRAM_SIZE witness seq(DRAM_SIZE, _ => 0)

  type RegFile = r: seq<u8> | |r| == 32 witness seq(32, _ => 0)

  function Buffers(route: bool, c: Chunk): seq<u32>
    requires Walk(c.g, c.desc, c.len)
  {
    Slots(route, c.g, c.desc, c.len)
  }

  /** A terminated chain in memory with something to move, whose buffers, if the device writes them,
      leave its descriptors alone. */
  ghost predicate Prepared(route: bool, toDevice: bool, c: Chunk) {
    && Chain(c.g, c.desc, c.len) && |Buffers(route, c)| > 0
    && Holds(c.mem, route, c.g) && (toDevice || Apart(route, c.g))
  }

  /** The driver writes memory and the controller's registers. */
  function Drive(s: Sys, c: Chunk): (r: Sys)
    requires Ok(s.link)
    ensures Ok(r.link)
  {
    s.(link := Link(s.link.dev.(regs := c.regs), c.mem))
  }

  ghost function Serve(s: Sys, toDevice: bool, c: Chunk): (r: Sys)
    requires Ok(s.link)
    ensures Ok(r.link)
  {
    Start(Drive(s, c), toDevice, c.desc, c.armFirst)
  }

  /** What the chunk's command finds. */
  function Opened(s: Sys, c: Chunk): (l: Link)
    requires Ok(s.link)
    ensures Ok(l)
  {
    Command(Drive(s, c).link)
  }

  /** Ready for a chunk: channel and request are off and the command opens this data phase. */
  predicate Opens(s: Sys, toDevice: bool, c: Chunk) {
    && Ok(s.link) && !s.chan.active && !s.link.dev.drq
    && Opened(s, c).dev.drq && Matches(Opened(s, c).dev, toDevice)
  }

  /** What a command and one terminated chain over these addresses do to device and memory. */
  function Whole(l: Link, toDevice: bool, addrs: seq<u32>): Link
    requires Ok(l)
  {
    ChainEnd(Pour(l, toDevice, addrs))
  }

  lemma OneChunk(s: Sys, toDevice: bool, c: Chunk)
    requires Opens(s, toDevice, c) && Prepared(s.route, toDevice, c)
    ensures var (t, l, addrs) := (Serve(s, toDevice, c), Opened(s, c), Buffers(s.route, c));
      && t.link == Whole(l, toDevice, addrs) && t.route == s.route
      && t.chan.active == (|addrs| > Residual(l.dev))
  {
    hide Tick, Slots, Chain, Holds, Apart, Select, Pour;
    var l := Opened(s, c);
    PourTakes(l, toDevice, Buffers(s.route, c));
    ArmingOrder(Drive(s, c), toDevice, c.g, c.desc, c.len, c.armFirst);
    ChainRuns(Arm(Drive(s, c).(link := l), toDevice, c.desc), toDevice, c.g, c.desc, c.len);
  }

  ghost predicate AllPrepared(route: bool, toDevice: bool, cs: seq<Chunk>) {
    forall c :: c in cs ==> Prepared(route, toDevice, c)
  }

  /** All addresses of a transfer, chunk after chunk. */
  ghost function AllBuffers(route: bool, toDevice: bool, cs: seq<Chunk>): seq<u32>
    requires AllPrepared(route, toDevice, cs)
    decreases |cs|
  {
    if cs == [] then []
    else
      var c := cs[|cs| - 1];
      assert Prepared(route, toDevice, c);
      AllBuffers(route, toDevice, cs[..|cs| - 1]) + Buffers(route, c)
  }

  /** What the driver has put in the buffers, chunk after chunk. */
  ghost function Sent(route: bool, cs: seq<Chunk>): (data: seq<u8>)
    requires AllPrepared(route, true, cs)
    ensures |data| == |AllBuffers(route, true, cs)|
    decreases |cs|
  {
    if cs == [] then []
    else
      var c := cs[|cs| - 1];
      assert Prepared(route, true, c);
      Sent(route, cs[..|cs| - 1]) + Gather(c.mem, Buffers(route, c))
  }

  ghost function ServeAll(s: Sys, toDevice: bool, cs: seq<Chunk>): (r: Sys)
    requires Ok(s.link)
    ensures Ok(r.link)
    decreases |cs|
  {
    if cs == [] then s else Serve(ServeAll(s, toDevice, cs[..|cs| - 1]), toDevice, cs[|cs| - 1])
  }

  /** The bytes of a transfer: what the driver sends, or what the device has in its buffer. */
  ghost function Data(d: Dev, route: bool, toDevice: bool, cs: seq<Chunk>): (data: seq<u8>)
    requires Valid(d) && AllPrepared(route, toDevice, cs)
    requires d.phase != Idle
    ensures |data| == Min(|AllBuffers(route, toDevice, cs)|, Residual(d))
  {
    var n := Min(|AllBuffers(route, toDevice, cs)|, Residual(d));
    if toDevice then Sent(route, cs)[..n] else d.buf[d.pos..d.pos + n]
  }

  /** The system after these chunks of a data phase that device d opened. The device is as if it had taken
      all the bytes in one chain, with the registers the driver wrote last and an interrupt for each chunk;
      the last chunk's buffers have their share of the bytes, and the rest of memory is as the driver
      left it. */
  ghost predicate Carried(t: Sys, d: Dev, toDevice: bool, cs: seq<Chunk>)
    requires Ok(t.link) && Valid(d) && d.phase != Idle && cs != [] && AllPrepared(t.route, toDevice, cs)
  {
    var (c, data) := (cs[|cs| - 1], Data(d, t.route, toDevice, cs));
    assert Prepared(t.route, toDevice, c);
    var (addrs, before) := (Buffers(t.route, c), |AllBuffers(t.route, toDevice, cs[..|cs| - 1])|);
    var e := d.(regs := c.regs, posts := d.posts + |cs| - 1);
    && t.link.dev == Unchained(Taken(e, data))
    && before <= |data|
    && t.link.mem == (if toDevice then c.mem else Scatter(c.mem, addrs[..|data| - before], data[before..]))
    && t.chan.active == (before + |addrs| > Residual(d))
  }

  lemma OpeningDevice(s: Sys, toDevice: bool, c: Chunk)
    requires Opens(s, toDevice, c)
    ensures Ok(s.link) && !s.chan.active && !s.link.dev.drq
    ensures var d := Opened(s, c).dev;
      Valid(d) && d.drq && Matches(d, toDevice) && !d.intrq && d.regs == c.regs && Opened(s, c).mem == c.mem
  {
    hide ReadBlocks;
  }

  /** A data phase part way through, paused, driven and resumed. */
  lemma ResumedTaken(d: Dev, data: seq<u8>, regs: seq<u8>)
    requires Valid(d) && d.drq && !d.intrq && 0 < |data| < Residual(d) && |regs| == 32
    ensures var p := Unchained(Taken(d, data));
      !p.drq && Select(Ack(p.(regs := regs))) == Taken(d.(regs := regs, posts := d.posts + 1), data)
    ensures Taken(d, data).phase == d.phase && Taken(d, data).drq
  {
  }

  lemma Reopens(t: Sys, toDevice: bool, e: Dev, data: seq<u8>, c: Chunk)
    requires Ok(t.link) && !t.chan.active
    requires Valid(e) && e.drq && !e.intrq && Matches(e, toDevice) && 0 < |data| < Residual(e)
    requires t.link.dev == Unchained(Taken(e, data))
    ensures Opens(t, toDevice, c) && Opened(t, c).dev == Taken(e.(regs := c.regs, posts := e.posts + 1), data)
  {
    hide Select, Taken, Unchained;
    ResumedTaken(e, data, c.regs);
    ResumedTaken(e.(regs := c.regs, posts := e.posts + 1), data, c.regs);
  }

  /** A chunk that takes up a data phase after some of its bytes. */
  lemma NextChunk(t: Sys, toDevice: bool, e: Dev, data: seq<u8>, c: Chunk)
    requires Valid(e) && e.drq && |data| < Residual(e) && Opens(t, toDevice, c) && Prepared(t.route, toDevice, c)
    requires Opened(t, c).dev == Taken(e, data)
    ensures var (u, addrs) := (Serve(t, toDevice, c), Buffers(t.route, c));
      var n := Min(|addrs|, Residual(e) - |data|);
      var bytes := if toDevice then Gather(c.mem, addrs[..n]) else e.buf[e.pos + |data|..e.pos + |data| + n];
      && u.link == Link(Unchained(Taken(e, data + bytes)), if toDevice then c.mem else Scatter(c.mem, addrs[..n], bytes))
      && u.route == t.route && u.chan.active == (|data| + |addrs| > Residual(e))
  {
    hide Buffers, Chain, Holds, Apart, Select, Pour, Serve, Unchained, Gather, Scatter, Finish, Taken, Opened;
    var (l, addrs) := (Opened(t, c), Buffers(t.route, c));
    OneChunk(t, toDevice, c);
    PourTakes(l, toDevice, addrs);
    TakenTwice(e, data, Bytes(l, toDevice, addrs));
    OpeningDevice(t, toDevice, c);
    TakenRest(e, data, Min(|addrs|, Residual(e) - |data|));
  }

  lemma LastOf(route: bool, toDevice: bool, cs: seq<Chunk>)
    requires cs != [] && AllPrepared(route, toDevice, cs)
    ensures var (front, c) := (cs[..|cs| - 1], cs[|cs| - 1]);
      && AllPrepared(route, toDevice, front) && Prepared(route, toDevice, c) && Walk(c.g, c.desc, c.len)
      && |Buffers(route, c)| > 0 && (front == [] <==> AllBuffers(route, toDevice, front) == [])
      && AllBuffers(route, toDevice, cs) == AllBuffers(route, toDevice, front) + Buffers(route, c)
      && (toDevice ==> Sent(route, cs) == Sent(route, front) + Gather(c.mem, Buffers(route, c)))
  {
    hide Buffers, Chain, Holds, Apart, Gather;
    var front := cs[..|cs| - 1];
    assert Prepared(route, toDevice, cs[|cs| - 1]);
    if front != [] {
      assert Prepared(route, toDevice, front[|front| - 1]);
    }
  }

  /** The last chunk's share of the bytes. */
  lemma LastShare(d: Dev, route: bool, toDevice: bool, cs: seq<Chunk>)
    requires Valid(d) && d.phase != Idle && cs != [] && AllPrepared(route, toDevice, cs)
    ensures var (front, c) := (cs[..|cs| - 1], cs[|cs| - 1]);
      && AllPrepared(route, toDevice, front) && Walk(c.g, c.desc, c.len)
      && var (before, addrs) := (|AllBuffers(route, toDevice, front)|, Buffers(route, c));
      before < Residual(d) ==>
        var (data, n) := (Data(d, route, toDevice, front), Min(|addrs|, Residual(d) - before));
        var bytes := if toDevice then Gather(c.mem, addrs[..n]) else d.buf[d.pos + before..d.pos + before + n];
        |data| == before && Data(d, route, toDevice, cs) == data + bytes
  {
    hide Buffers, AllPrepared, Prepared, AllBuffers, Sent;
    LastOf(route, toDevice, cs);
  }

  /** Paused after these chunks, the transfer goes on where it was. */
  lemma CarriesOn(t: Sys, d: Dev, toDevice: bool, cs: seq<Chunk>, c: Chunk)
    requires Ok(t.link) && Valid(d) && d.drq && !d.intrq && Matches(d, toDevice)
    requires cs != [] && AllPrepared(t.route, toDevice, cs)
    ensures Carried(t, d, toDevice, cs) && |AllBuffers(t.route, toDevice, cs)| < Residual(d) ==>
      && Opens(t, toDevice, c)
      && var e := d.(regs := c.regs, posts := d.posts + |cs|);
      Opened(t, c).dev == Taken(e, Data(d, t.route, toDevice, cs))
  {
    hide Buffers, AllPrepared, Prepared, Taken, Opened, Opens, Unchained, Gather, Scatter, AllBuffers, Data;
    LastOf(t.route, toDevice, cs);
    var e := d.(regs := cs[|cs| - 1].regs, posts := d.posts + |cs| - 1);
    if Carried(t, d, toDevice, cs) && |AllBuffers(t.route, toDevice, cs)| < Residual(d) {
      Reopens(t, toDevice, e, Data(d, t.route, toDevice, cs), c);
    }
  }

  /** The last chunk carries the transfer to where it should be. */
  lemma Carries(t: Sys, d: Dev, toDevice: bool, cs: seq<Chunk>)
    requires Valid(d) && d.drq && Matches(d, toDevice) && cs != [] && AllPrepared(t.route, toDevice, cs)
    requires var (front, c) := (cs[..|cs| - 1], cs[|cs| - 1]);
      && Opens(t, toDevice, c) && |AllBuffers(t.route, toDevice, front)| < Residual(d)
      && Opened(t, c).dev == Taken(d.(regs := c.regs, posts := d.posts + |cs| - 1), Data(d, t.route, toDevice, front))
    ensures var u := Serve(t, toDevice, cs[|cs| - 1]);
      u.route == t.route && Carried(u, d, toDevice, cs)
  {
    hide Buffers, AllPrepared, Prepared, Taken, Serve, Opened, Opens, Unchained, Gather, Scatter, AllBuffers, Data;
    var (front, c) := (cs[..|cs| - 1], cs[|cs| - 1]);
    LastOf(t.route, toDevice, cs);
    LastShare(d, t.route, toDevice, cs);
    NextChunk(t, toDevice, d.(regs := c.regs, posts := d.posts + |cs| - 1), Data(d, t.route, toDevice, front), c);
  }

  /** A command served in any number of chunks, all but the last leaving bytes to move: the bytes pass
      through the device in order as in one transfer, with one interrupt for each chunk, and each chunk's
      buffers, in the memory the driver left for it, take or give their share. */
  lemma {:induction false} ChunkedTransfer(s: Sys, toDevice: bool, cs: seq<Chunk>)
    requires cs != [] && AllPrepared(s.route, toDevice, cs) && Opens(s, toDevice, cs[0])
    ensures |AllBuffers(s.route, toDevice, cs[..|cs| - 1])| < Residual(Opened(s, cs[0]).dev) ==>
      var t := ServeAll(s, toDevice, cs);
      t.route == s.route && Carried(t, Opened(s, cs[0]).dev, toDevice, cs)
    decreases |cs|
  {
    hide Buffers, AllPrepared, Prepared, Carried, Taken, Serve, Opened, Opens, AllBuffers, Data;
    var (front, c) := (cs[..|cs| - 1], cs[|cs| - 1]);
    LastOf(s.route, toDevice, cs);
    OpeningDevice(s, toDevice, cs[0]);
    var (t, d) := (ServeAll(s, toDevice, front), Opened(s, cs[0]).dev);
    if |AllBuffers(s.route, toDevice, front)| < Residual(d) {
      if front == [] {
        NothingTaken(d, Data(d, s.route, toDevice, front));
      } else {
        LastOf(s.route, toDevice, front);
        ChunkedTransfer(s, toDevice, front);
        CarriesOn(t, d, toDevice, front, c);
      }
      Carries(t, d, toDevice, cs);
    }
  }

  /** It is as if one chain had moved it all: over any buffers that hold what the driver sent, or as
      many, from a device with the registers the driver wrote last. */
  lemma AsOneChain(s: Sys, toDevice: bool, cs: seq<Chunk>, mem: Dram, addrs: seq<u32>)
    requires cs != [] && AllPrepared(s.route, toDevice, cs) && Opens(s, toDevice, cs[0])
    requires |AllBuffers(s.route, toDevice, cs[..|cs| - 1])| < Residual(Opened(s, cs[0]).dev)
    requires |addrs| == |AllBuffers(s.route, toDevice, cs)| && (toDevice ==> Gather(mem, addrs) == Sent(s.route, cs))
    ensures var d := Opened(s, cs[0]).dev;
      var e := d.(regs := cs[|cs| - 1].regs, posts := d.posts + |cs| - 1);
      ServeAll(s, toDevice, cs).link.dev == Whole(Link(e, mem), toDevice, addrs).dev
  {
    hide AllBuffers, AllPrepared, Prepared, Opened, Opens, Sent, ServeAll, Taken, Scatter, Unchained, Pour;
    OpeningDevice(s, toDevice, cs[0]);
    ChunkedTransfer(s, toDevice, cs);
    var d := Opened(s, cs[0]).dev;
    var e := d.(regs := cs[|cs| - 1].regs, posts := d.posts + |cs| - 1);
    PourTakes(Link(e, mem), toDevice, addrs);
    assert Bytes(Link(e, mem), toDevice, addrs) == Data(d, s.route, toDevice, cs);
  }

  // ---- READ(10) and WRITE(10) ----

  /** A READ(10) or WRITE(10) for the disk's only unit, with nothing in progress. */
  predicate Asks(d: Dev, regs: RegFile, op: u8) {
    && Valid(d) && d.phase == Idle && regs[DEST_ID] % 8 == DISK_TARGET && regs[TARGET_LUN] % 8 == 0
    && regs[CDB] == op && CdbLen(regs) > 0
  }

  /** Command complete with GOOD status. */
  predicate Completed(d: Dev) {
    Valid(d) && d.phase == Idle && d.regs[SCSI_STATUS] == 0x16 && d.regs[TARGET_LUN] == 0
  }

  /** The chunks make up the command's blocks, and the last of them is needed. */
  ghost predicate Covers(route: bool, toDevice: bool, cs: seq<Chunk>)
    requires cs != [] && AllPrepared(route, toDevice, cs)
  {
    && |AllBuffers(route, toDevice, cs[..|cs| - 1])| < CdbLen(cs[0].regs) * BLOCK
    && |AllBuffers(route, toDevice, cs)| == CdbLen(cs[0].regs) * BLOCK
  }

  lemma AskedOpens(s: Sys, op: u8, c: Chunk)
    requires Ok(s.link) && !s.chan.active && Asks(s.link.dev, c.regs, op) && (op == 0x28 || op == 0x2a)
    ensures Opens(s, op == 0x2a, c)
    ensures var (d, e) := (s.link.dev, Opened(s, c).dev);
      && e.pos == 0 && |e.buf| == CdbLen(c.regs) * BLOCK && e.disk == d.disk && e.tgtStatus == 0 && e.posts == d.posts
      && (op == 0x28 ==> e.buf == ReadBlocks(d.disk, CdbLba(c.regs), CdbLen(c.regs)))
      && (op == 0x2a ==> e.wrLba == CdbLba(c.regs))
  {
    hide ReadBlocks, CdbLba, CdbLen;
    assert CdbLen(c.regs) * BLOCK > 0;
  }

  lemma FinishCompletes(d: Dev)
    requires |d.regs| == 32 && |d.sense| == 18 && d.tgtStatus == 0
    ensures var r := Finish(d);
      && Completed(r)
      && r.disk == if d.phase == DataOut && d.regs[CDB] == 0x2a then WriteBlocks(d.disk, d.wrLba, d.buf, |d.buf| / BLOCK) else d.disk
  {
    hide WriteBlocks;
  }

  lemma FilledWhole(d: Dev, data: seq<u8>)
    requires Valid(d) && d.phase != Idle && d.pos == 0 && |data| == |d.buf|
    ensures Filled(d, data) == d.(buf := data)
  {
    assert Filled(d, data).buf == data;
  }

  /** A data phase that has taken all its bytes ends the command. */
  lemma TakenWhole(d: Dev, data: seq<u8>)
    requires Valid(d) && d.phase != Idle && d.pos == 0 && d.tgtStatus == 0 && |data| == |d.buf|
    ensures var r := Unchained(Taken(d, data));
      && Completed(r) && r.posts == d.posts + 1
      && r.disk == if d.phase == DataOut && d.regs[CDB] == 0x2a then WriteBlocks(d.disk, d.wrLba, data, |data| / BLOCK) else d.disk
  {
    hide Finish, Filled, Completed, WriteBlocks;
    FilledWhole(d, data);
    FinishCompletes(d.(buf := data, pos := |data|));
  }

  /** The driver leaves buffers already read alone. */
  ghost predicate Keeps(s: Sys, cs: seq<Chunk>)
    requires Ok(s.link) && AllPrepared(s.route, false, cs)
  {
    forall k, x: u32 :: 0 <= k < |cs| && x in AllBuffers(s.route, false, cs[..k]) ==>
      cs[k].mem[x] == ServeAll(s, false, cs[..k]).link.mem[x]
  }

  lemma KeepsFront(s: Sys, cs: seq<Chunk>)
    requires Ok(s.link) && cs != [] && AllPrepared(s.route, false, cs) && Keeps(s, cs)
    ensures var front := cs[..|cs| - 1];
      && AllPrepared(s.route, false, front) && Keeps(s, front)
      && forall x: u32 :: x in AllBuffers(s.route, false, front) ==>
           cs[|cs| - 1].mem[x] == ServeAll(s, false, front).link.mem[x]
  {
    hide Prepared, AllBuffers, ServeAll;
    var front := cs[..|cs| - 1];
    forall k, x: u32 | 0 <= k < |front| && x in AllBuffers(s.route, false, front[..k])
      ensures front[k].mem[x] == ServeAll(s, false, front[..k]).link.mem[x]
    {
      assert front[..k] == cs[..k];
    }
  }

  /** The buffers of a read in turn, the last chunk's as scattered and the others as they were. */
  lemma Delivers(c: Chunk, before: seq<u32>, addrs: seq<u32>, was: Dram, data: seq<u8>)
    requires |before| <= |data| <= |before| + |addrs| && Distinct(before + addrs)
    requires Gather(was, before) == data[..|before|] && forall x: u32 :: x in before ==> c.mem[x] == was[x]
    ensures var m := Scatter(c.mem, addrs[..|data| - |before|], data[|before|..]);
      Gather(m, (before + addrs)[..|data|]) == data
  {
    hide Scatter;
    var (b, all) := (|before|, before + addrs);
    var now := addrs[..|data| - b];
    var m := Scatter(c.mem, now, data[b..]);
    assert forall j :: 0 <= j < |now| ==> now[j] == all[b + j];
    forall i | 0 <= i < |data| ensures m[all[i]] == data[i] {
      ScatterAt(c.mem, now, data[b..], all[i]);
      if i < b {
        assert Gather(was, before)[i] == data[i];
      } else {
        assert now[i - b] == all[i];
      }
    }
  }

  /** The last chunk of a read in memory, and what came before it. */
  lemma CarriedRead(t: Sys, d: Dev, cs: seq<Chunk>)
    requires Ok(t.link) && Valid(d) && d.phase != Idle && cs != [] && AllPrepared(t.route, false, cs)
    requires |AllBuffers(t.route, false, cs[..|cs| - 1])| < Residual(d) && Carried(t, d, false, cs)
    ensures var (front, c) := (cs[..|cs| - 1], cs[|cs| - 1]);
      && AllPrepared(t.route, false, front) && Walk(c.g, c.desc, c.len)
      && var (b, addrs, data) := (|AllBuffers(t.route, false, front)|, Buffers(t.route, c), Data(d, t.route, false, cs));
      && b <= |data| <= b + |addrs| && t.link.mem == Scatter(c.mem, addrs[..|data| - b], data[b..])
      && Data(d, t.route, false, front) == data[..b]
  {
    hide Buffers, AllBuffers, AllPrepared, Prepared, Scatter, Unchained, Taken, Chain, Walk;
    LastOf(t.route, false, cs);
    var b, n := |AllBuffers(t.route, false, cs[..|cs| - 1])|, |Data(d, t.route, false, cs)|;
    assert d.buf[d.pos..d.pos + n][..b] == d.buf[d.pos..d.pos + b];
  }

  /** What a read has delivered so far stays in its buffers, if they are apart and left alone. */
  lemma {:induction false} DeliveredSoFar(s: Sys, cs: seq<Chunk>)
    requires cs != [] && AllPrepared(s.route, false, cs) && Opens(s, false, cs[0])
    requires |AllBuffers(s.route, false, cs[..|cs| - 1])| < Residual(Opened(s, cs[0]).dev)
    requires Distinct(AllBuffers(s.route, false, cs)) && Keeps(s, cs)
    ensures var (t, all) := (ServeAll(s, false, cs), AllBuffers(s.route, false, cs));
      var data := Data(Opened(s, cs[0]).dev, s.route, false, cs);
      Gather(t.link.mem, all[..|data|]) == data
    decreases |cs|
  {
    hide Buffers, AllBuffers, AllPrepared, Prepared, Opened, Opens, ServeAll, Scatter, Gather, Keeps, Carried, Data, Walk;
    OpeningDevice(s, false, cs[0]);
    LastOf(s.route, false, cs);
    KeepsFront(s, cs);
    ChunkedTransfer(s, false, cs);
    var (c, d, front) := (cs[|cs| - 1], Opened(s, cs[0]).dev, cs[..|cs| - 1]);
    CarriedRead(ServeAll(s, false, cs), d, cs);
    var before, addrs := AllBuffers(s.route, false, front), Buffers(s.route, c);
    var was, data := ServeAll(s, false, front).link.mem, Data(d, s.route, false, cs);
    if front != [] {
      LastOf(s.route, false, front);
      assert forall i :: 0 <= i < |before| ==> (before + addrs)[i] == before[i];
      DeliveredSoFar(s, front);
      assert before[..|before|] == before;
    } else {
      assert Gather(was, before) == [];
    }
    Delivers(c, before, addrs, was, data);
  }

  /** The last chunk of a read changes nothing but its buffers. */
  lemma CarriedFrame(t: Sys, d: Dev, cs: seq<Chunk>, x: u32)
    requires Ok(t.link) && Valid(d) && d.phase != Idle && cs != [] && AllPrepared(t.route, false, cs)
    requires Carried(t, d, false, cs)
    ensures var c := cs[|cs| - 1];
      Walk(c.g, c.desc, c.len) && (x !in Buffers(t.route, c) ==> t.link.mem[x] == c.mem[x])
  {
    hide Buffers, AllBuffers, AllPrepared, Prepared, Scatter, Unchained, Taken, Data;
    LastOf(t.route, false, cs);
    var (c, data) := (cs[|cs| - 1], Data(d, t.route, false, cs));
    var before := |AllBuffers(t.route, false, cs[..|cs| - 1])|;
    ScatterAt(c.mem, Buffers(t.route, c)[..|data| - before], data[before..], x);
  }

  /** A command whose chunks cover it completes with the last of them. */
  lemma CommandEnds(s: Sys, toDevice: bool, cs: seq<Chunk>)
    requires Ok(s.link) && !s.chan.active && cs != [] && Asks(s.link.dev, cs[0].regs, if toDevice then 0x2a else 0x28)
    requires AllPrepared(s.route, toDevice, cs) && Covers(s.route, toDevice, cs)
    ensures Opens(s, toDevice, cs[0])
    ensures var (t, c, e) := (ServeAll(s, toDevice, cs), cs[|cs| - 1], Opened(s, cs[0]).dev);
      && |AllBuffers(s.route, toDevice, cs[..|cs| - 1])| < Residual(e) == |AllBuffers(s.route, toDevice, cs)|
      && Completed(t.link.dev) && !t.chan.active && t.link.dev.posts == s.link.dev.posts + |cs|
      && t.link.dev.disk == (if !toDevice || c.regs[CDB] != 0x2a then s.link.dev.disk
                             else WriteBlocks(s.link.dev.disk, CdbLba(cs[0].regs), Sent(s.route, cs), CdbLen(cs[0].regs)))
  {
    hide Buffers, AllBuffers, AllPrepared, Prepared, Opened, Opens, ServeAll, Sent, Gather, Scatter, Unchained, Taken,
      ReadBlocks, WriteBlocks, CdbLba, CdbLen;
    var (d, c) := (s.link.dev, cs[|cs| - 1]);
    AskedOpens(s, if toDevice then 0x2a else 0x28, cs[0]);
    OpeningDevice(s, toDevice, cs[0]);
    LastOf(s.route, toDevice, cs);
    ChunkedTransfer(s, toDevice, cs);
    var e := Opened(s, cs[0]).dev;
    var data := Data(e, s.route, toDevice, cs);
    TakenWhole(e.(regs := c.regs, posts := d.posts + |cs| - 1), data);
    assert |data| / BLOCK == CdbLen(cs[0].regs);
    if toDevice {
      assert data == Sent(s.route, cs);
    }
  }

  /** A READ(10) served in chunks leaves the command's blocks in the buffers byte for byte, whatever the driver
      writes to the rest of memory and to the controller's registers meanwhile; the last chunk changes
      nothing but its buffers, and the disk not at all. */
  lemma ReadGives(s: Sys, cs: seq<Chunk>)
    requires Ok(s.link) && !s.chan.active && cs != [] && Asks(s.link.dev, cs[0].regs, 0x28)
    requires AllPrepared(s.route, false, cs) && Covers(s.route, false, cs)
    requires Distinct(AllBuffers(s.route, false, cs)) && Keeps(s, cs)
    ensures var (d, t, c) := (s.link.dev, ServeAll(s, false, cs), cs[|cs| - 1]);
      && Gather(t.link.mem, AllBuffers(s.route, false, cs)) == ReadBlocks(d.disk, CdbLba(cs[0].regs), CdbLen(cs[0].regs))
      && Walk(c.g, c.desc, c.len)
      && (forall x: u32 :: x !in Buffers(s.route, c) ==> t.link.mem[x] == c.mem[x])
      && t.link.dev.disk == d.disk && Completed(t.link.dev) && !t.chan.active
      && t.link.dev.posts == d.posts + |cs|
  {
    hide Buffers, AllBuffers, AllPrepared, Prepared, Opened, Opens, ServeAll, Gather, Keeps, Carried, Completed,
      ReadBlocks, WriteBlocks, CdbLba, CdbLen, Distinct;
    AskedOpens(s, 0x28, cs[0]);
    OpeningDevice(s, false, cs[0]);
    CommandEnds(s, false, cs);
    LastOf(s.route, false, cs);
    ChunkedTransfer(s, false, cs);
    DeliveredSoFar(s, cs);
    var t, c, e := ServeAll(s, false, cs), cs[|cs| - 1], Opened(s, cs[0]).dev;
    var all, data := AllBuffers(s.route, false, cs), Data(e, s.route, false, cs);
    assert all[..|data|] == all && data == e.buf;
    forall x: u32 ensures x !in Buffers(s.route, c) ==> t.link.mem[x] == c.mem[x] {
      CarriedFrame(t, e, cs, x);
    }
  }

  /** A WRITE(10) served in chunks writes what the driver sent, in order, to the command's blocks, if its
      opcode is still in the registers when the last byte arrives, and nothing otherwise; memory stays as the
      driver leaves it. */
  lemma WriteTakes(s: Sys, cs: seq<Chunk>)
    requires Ok(s.link) && !s.chan.active && cs != [] && Asks(s.link.dev, cs[0].regs, 0x2a)
    requires AllPrepared(s.route, true, cs) && Covers(s.route, true, cs)
    ensures var (d, t, c) := (s.link.dev, ServeAll(s, true, cs), cs[|cs| - 1]);
      && t.link.dev.disk == (if c.regs[CDB] != 0x2a then d.disk
                             else WriteBlocks(d.disk, CdbLba(cs[0].regs), Sent(s.route, cs), CdbLen(cs[0].regs)))
      && t.link.mem == c.mem && Completed(t.link.dev) && !t.chan.active
      && t.link.dev.posts == d.posts + |cs|
  {
    hide Buffers, AllBuffers, AllPrepared, Prepared, Opened, Opens, ServeAll, Sent, Gather, Unchained, Taken, Completed,
      WriteBlocks, CdbLba, CdbLen;
    CommandEnds(s, true, cs);
    OpeningDevice(s, true, cs[0]);
    ChunkedTransfer(s, true, cs);
  }
}
