/** Ethernet receive: frames staged by the Seeq controller and moved into a ring of owned
    descriptors. */
module EnetRx {
  import opened Words
  import opened ByteOrder
  import opened Memory

  const ETH_MIN := 60
  const RX_STATUS_GOOD := 0x30
  const OWN := 0x4000
  const BCNT_SIZE := 0x4000

  type Frame = seq<u8>

  /** `cur` is the staged byte stream being read out; `queue` the frames behind it. */
  datatype Seeq = Seeq(queue: seq<Frame>, cur: seq<u8>, pos: nat, stat: u8)

  predicate ValidSeeq(q: Seeq) { q.pos <= |q.cur| }

  /** Two pad bytes, the frame zero-filled to the Ethernet minimum, and a status byte. */
  function Staged(f: Frame): (s: seq<u8>)
    ensures |s| > 0
  {
    [0, 0] + f + Zeros(if |f| < ETH_MIN then ETH_MIN - |f| else 0) + [RX_STATUS_GOOD]
  }

  predicate Avail(q: Seeq) { q.pos < |q.cur| || q.queue != [] }

  /** rx_avail: stage the next frame once the current one is read out. */
  function Stage(q: Seeq): (r: Seeq)
    requires ValidSeeq(q)
    ensures ValidSeeq(r) && (Avail(q) <==> r.pos < |r.cur|)
  {
    if q.pos < |q.cur| || q.queue == [] then q else Seeq(q.queue[1..], Staged(q.queue[0]), 0, q.stat)
  }

  /** n reads of rx_dma_r: the last byte of a frame posts its status. */
  function Give(q: Seeq, n: nat): (r: Seeq)
    requires q.pos + n <= |q.cur|
    ensures ValidSeeq(r)
  {
    q.(pos := q.pos + n, stat := if n > 0 && q.pos + n == |q.cur| then RX_STATUS_GOOD else q.stat)
  }

  // ---- one descriptor ----

  datatype Rx = Rx(
    seeq: Seeq, mem: seq<u8>, nbdp: u32, cbp: u32, crbdp: u32, active: bool, xie: bool, route: bool)

  /** One descriptor as it was filled: `info` is the count word found there, `last` the end of a frame. */
  datatype Fill = Fill(desc: u32, buf: u32, info: u32, bytes: seq<u8>, last: bool)

  predicate Ok(s: Rx) { ValidSeeq(s.seeq) && |s.mem| == DRAM_SIZE }

  function Info(s: Rx): u32
    requires Ok(s)
  {
    Word(s.mem, s.route, Plus(s.nbdp, 4))
  }

  predicate Owned(info: u32) { info / OWN % 2 == 1 }

  function Size(info: u32): nat { info % BCNT_SIZE }

  /** The loop goes on while a byte is staged and the descriptor is owned by the controller. */
  predicate Turns(s: Rx)
    requires Ok(s)
  {
    s.active && Avail(s.seeq) && Owned(Info(s))
  }

  /** The count word written back: ownership given up, the residual count in place of the size. */
  function Returned(info: u32, n: nat): (r: u32)
    requires Owned(info) && n <= Size(info)
    ensures !Owned(r) && Size(r) == Size(info) - n && r / 0x8000 == info / 0x8000
  {
    info - OWN - n
  }

  function FillOf(s: Rx): (f: Fill)
    requires Ok(s) && Turns(s)
    ensures |f.bytes| <= Size(f.info) && Owned(f.info) && f.info == Info(s)
    ensures f.bytes == [] <==> Size(f.info) == 0
  {
    var (q, info) := (Stage(s.seeq), Info(s));
    var n := Min(Size(info), |q.cur| - q.pos);
    Fill(s.nbdp, Word(s.mem, s.route, s.nbdp), info, q.cur[q.pos..q.pos + n], n > 0 && q.pos + n == |q.cur|)
  }

  function FillMem(mem: seq<u8>, route: bool, f: Fill): (m: seq<u8>)
    requires |mem| == DRAM_SIZE && Owned(f.info) && |f.bytes| <= Size(f.info)
    ensures |m| == DRAM_SIZE
  {
    PutWord(Scatter(mem, Addrs(route, f.buf, |f.bytes|), f.bytes), route, Plus(f.desc, 4), Returned(f.info, |f.bytes|))
  }

  function Turn(s: Rx): (r: Rx)
    requires Ok(s) && Turns(s)
    ensures Ok(r) && r.active && r.route == s.route
  {
    var f := FillOf(s);
    s.(seeq := Give(Stage(s.seeq), |f.bytes|), mem := FillMem(s.mem, s.route, f),
       nbdp := Word(s.mem, s.route, Plus(s.nbdp, 8)), cbp := f.buf, crbdp := s.nbdp,
       xie := s.xie || Bit(f.info, 0x20000000))
  }

  // ---- the loop, which always ends ----

  function QueueBytes(queue: seq<Frame>): nat {
    if queue == [] then 0 else |Staged(queue[0])| + QueueBytes(queue[1..])
  }

  /** Bytes still to be read out of the controller. */
  function Left(q: Seeq): nat
    requires ValidSeeq(q)
  {
    |q.cur| - q.pos + QueueBytes(q.queue)
  }

  function Sum(mem: seq<u8>): nat {
    if mem == [] then 0 else Sum(mem[..|mem| - 1]) + mem[|mem| - 1]
  }

  lemma {:induction false} SumUpdate(mem: seq<u8>, i: nat, b: u8)
    requires i < |mem|
    ensures Sum(mem[i := b]) == Sum(mem) - mem[i] + b
    decreases |mem|
  {
    var n := |mem| - 1;
    if i < n {
      assert mem[i := b][..n] == mem[..n][i := b];
      SumUpdate(mem[..n], i, b);
    } else {
      assert mem[i := b][..n] == mem[..n];
    }
  }

  /** Clearing OWN in a count word of size zero takes 0x40 off its third byte. */
  lemma OwnByte(b0: int, b1: int, b2: int, b3: int)
    requires 0 <= b0 < 256 && 0 <= b1 < 256 && 0 <= b2 < 256 && 0 <= b3 < 256
    requires var w := b0 * 0x1000000 + b1 * 0x10000 + b2 * 0x100 + b3;
      w / OWN % 2 == 1 && w % BCNT_SIZE == 0
    ensures var v := b0 * 0x1000000 + b1 * 0x10000 + b2 * 0x100 + b3 - OWN;
      && b2 >= 0x40 && v / 0x1000000 == b0 && v / 0x10000 % 256 == b1 && v / 0x100 % 256 == b2 - 0x40 && v % 256 == b3
  {
    var (high, low) := (b0 * 256 + b1, b2 * 256 + b3);
    LowHalf(high, low);
    BytesOf(b0, b1, b2 - 0x40, b3);
  }

  lemma LowHalf(high: int, low: int)
    requires 0 <= low < 0x10000 && 0 <= high
    requires (high * 0x10000 + low) / OWN % 2 == 1
    ensures low >= OWN
  {
    var q := low / OWN;
    QuotientUnique(high * 0x10000 + low, OWN, 4 * high + q, low % OWN);
    QuotientUnique(4 * high + q, 2, 2 * high + q / 2, q % 2);
  }

  lemma BytesOf(b0: int, b1: int, b2: int, b3: int)
    requires 0 <= b0 < 256 && 0 <= b1 < 256 && 0 <= b2 < 256 && 0 <= b3 < 256
    ensures var v := b0 * 0x1000000 + b1 * 0x10000 + b2 * 0x100 + b3;
      v / 0x1000000 == b0 && v / 0x10000 % 256 == b1 && v / 0x100 % 256 == b2 && v % 256 == b3
  {
    var v := b0 * 0x1000000 + b1 * 0x10000 + b2 * 0x100 + b3;
    assert v / 0x1000000 == b0;
    assert v / 0x10000 == b0 * 256 + b1;
    assert v / 0x100 == (b0 * 256 + b1) * 256 + b2;
  }

  lemma PutsThird(mem: seq<u8>, a: u32, c: u8)
    requires |mem| == DRAM_SIZE && a + 2 < DRAM_SIZE
    ensures PutByte(PutByte(PutByte(PutByte(mem, a, 0, RawByte(mem, a, 0)), a, 1, RawByte(mem, a, 1)), a, 2, c), a, 3, RawByte(mem, a, 3))
      == mem[a + 2 := c]
  {
  }

  lemma EmptyFill(mem: seq<u8>, route: bool, f: Fill)
    requires |mem| == DRAM_SIZE && Owned(f.info) && Size(f.info) == 0 && f.bytes == []
    requires f.info == Word(mem, route, Plus(f.desc, 4))
    ensures Sum(FillMem(mem, route, f)) < Sum(mem)
  {
    hide Loc, Sum, RawByte, PutByte;
    var a := Loc(route, Plus(f.desc, 4));
    var (b0, b1, b2, b3) := (RawByte(mem, a, 0), RawByte(mem, a, 1), RawByte(mem, a, 2), RawByte(mem, a, 3));
    OwnByte(b0, b1, b2, b3);
    PastEnd(mem, a);
    PutsThird(mem, a, b2 - 0x40);
    assert FillMem(mem, route, f) == mem[a + 2 := b2 - 0x40];
    SumUpdate(mem, a + 2, b2 - 0x40);
  }

  lemma PastEnd(mem: seq<u8>, a: u32)
    requires |mem| == DRAM_SIZE && RawByte(mem, a, 2) > 0
    ensures a + 2 < DRAM_SIZE && mem[a + 2] == RawByte(mem, a, 2)
  {
  }

  /** Every turn reads bytes out, or clears a bit of memory without setting any. */
  lemma TurnEnds(s: Rx)
    requires Ok(s) && Turns(s)
    ensures Left(Turn(s).seeq) <= Left(s.seeq)
    ensures Left(Turn(s).seeq) == Left(s.seeq) ==> Sum(Turn(s).mem) < Sum(s.mem)
  {
    hide FillMem, Word, Sum;
    var f := FillOf(s);
    if f.bytes == [] {
      EmptyFill(s.mem, s.route, f);
    }
  }

  /** Finding nothing to do still stages the frame looked for. */
  function Rest(s: Rx): (r: Rx)
    requires Ok(s)
    ensures Ok(r)
  {
    if s.active then s.(seeq := Stage(s.seeq)) else s
  }

  lemma StagesOnce(q: Seeq)
    requires ValidSeeq(q)
    ensures Stage(Stage(q)) == Stage(q) && Avail(Stage(q)) == Avail(q) && Left(Stage(q)) == Left(q)
  {
    hide Staged;
  }

  lemma StagedTurnsAlike(s: Rx)
    requires Ok(s) && s.active
    ensures Turns(Rest(s)) == Turns(s)
    ensures Turns(s) ==> Turn(Rest(s)) == Turn(s) && FillOf(Rest(s)) == FillOf(s)
  {
    hide Word, FillMem, Stage, Avail, Left;
    StagesOnce(s.seeq);
  }

  /** Looking for a byte first changes nothing about the run. */
  lemma StagedRunsAlike(s: Rx)
    requires Ok(s) && s.active
    ensures Left(Rest(s).seeq) == Left(s.seeq) && Run(Rest(s)) == Run(s)
  {
    hide Turn, FillOf, Turns, Stage, Left, Sum;
    StagesOnce(s.seeq);
    StagedTurnsAlike(s);
  }

  /** enet_run_dma for the receive channel: the final state and the descriptors filled on the way. */
  function Run(s: Rx): (r: (Rx, seq<Fill>))
    requires Ok(s)
    ensures Ok(r.0)
    decreases Left(s.seeq), Sum(s.mem)
  {
    if !Turns(s) then (Rest(s), [])
    else
      TurnEnds(s);
      var (t, f) := (Turn(s), FillOf(s));
      if Bit(f.info, 0x80000000) then (t, [f])
      else var (u, fs) := Run(t); (u, [f] + fs)
  }

  lemma RunSteps(s: Rx, before: seq<Fill>)
    requires Ok(s) && s.active
    ensures !Turns(s) ==> Run(s).0 == Rest(s) && before + Run(s).1 == before
    ensures Turns(s) ==> var (t, fs) := (Turn(s), before + [FillOf(s)]);
      if Bit(FillOf(s).info, 0x80000000) then Run(s).0 == t && before + Run(s).1 == fs
      else Run(s).0 == Run(t).0 && before + Run(s).1 == fs + Run(t).1
  {
    hide Turn, FillOf, Turns, Stage, Left, Sum;
    assert before + [] == before;
    if Turns(s) && !Bit(FillOf(s).info, 0x80000000) {
      var more := Run(Turn(s)).1;
      assert before + ([FillOf(s)] + more) == before + [FillOf(s)] + more;
    }
  }

  // ---- nothing lost, nothing reordered ----

  /** The frames whose last byte has been delivered, and the bytes delivered since. */
  function Assemble(fills: seq<Fill>): (seq<seq<u8>>, seq<u8>) {
    if fills == [] then ([], [])
    else
      var ((done, part), f) := (Assemble(fills[..|fills| - 1]), fills[|fills| - 1]);
      if f.last then (done + [part + f.bytes], []) else (done, part + f.bytes)
  }

  /** Everything accepted is delivered, in progress or queued, in order: delivered frames are exactly
      their staged bytes, and the open part is the consumed prefix of the staged frame. */
  ghost predicate Flows(accepted: seq<Frame>, fills: seq<Fill>, q: Seeq)
    requires ValidSeeq(q)
  {
    var (done, part) := Assemble(fills);
    var k := |done|;
    && k <= |accepted| && (forall i :: 0 <= i < k ==> done[i] == Staged(accepted[i]))
    && if q.pos < |q.cur| then
      k < |accepted| && q.cur == Staged(accepted[k]) && part == q.cur[..q.pos] && q.queue == accepted[k + 1..]
    else part == [] && q.queue == accepted[k..]
  }

  lemma StageFlows(accepted: seq<Frame>, fills: seq<Fill>, q: Seeq)
    requires ValidSeeq(q) && Flows(accepted, fills, q)
    ensures Flows(accepted, fills, Stage(q))
  {
    hide Staged, Assemble;
    if q.pos == |q.cur| && q.queue != [] {
      var k := |Assemble(fills).0|;
      assert accepted[k..][0] == accepted[k] && accepted[k..][1..] == accepted[k + 1..];
    }
  }

  lemma TurnFlows(s: Rx, accepted: seq<Frame>, fills: seq<Fill>)
    requires Ok(s) && Turns(s) && Flows(accepted, fills, s.seeq)
    ensures Flows(accepted, fills + [FillOf(s)], Turn(s).seeq)
  {
    hide Staged, Stage, FillMem, Word;
    StageFlows(accepted, fills, s.seeq);
    var (q, f) := (Stage(s.seeq), FillOf(s));
    assert (fills + [f])[..|fills|] == fills;
    var n := |f.bytes|;
    assert q.cur[..q.pos + n] == q.cur[..q.pos] + f.bytes;
    if f.last {
      assert q.cur[..q.pos + n] == q.cur;
    }
  }

  lemma {:induction false} RunFlows(s: Rx, accepted: seq<Frame>, fills: seq<Fill>)
    requires Ok(s) && Flows(accepted, fills, s.seeq)
    ensures Flows(accepted, fills + Run(s).1, Run(s).0.seeq)
    decreases Left(s.seeq), Sum(s.mem)
  {
    hide Flows, Turn, FillOf, Left, Sum;
    if Turns(s) {
      TurnEnds(s);
      TurnFlows(s, accepted, fills);
      var (t, f) := (Turn(s), FillOf(s));
      if !Bit(f.info, 0x80000000) {
        RunFlows(t, accepted, fills + [f]);
        assert fills + ([f] + Run(t).1) == fills + [f] + Run(t).1;
      }
    } else {
      StageFlows(accepted, fills, s.seeq);
      assert fills + [] == fills;
    }
  }

  /** Frames arrive; the driver rewrites memory, the ring pointer or the channel; the channel runs. */
  datatype Event = Arrive(frames: seq<Frame>) | Driver(mem: seq<u8>, nbdp: u32, active: bool) | Service

  predicate Fits(e: Event) { e.Driver? ==> |e.mem| == DRAM_SIZE }

  datatype Ledger = Ledger(rx: Rx, accepted: seq<Frame>, fills: seq<Fill>)

  ghost predicate Sound(l: Ledger) {
    Ok(l.rx) && Flows(l.accepted, l.fills, l.rx.seeq)
  }

  function Step(l: Ledger, e: Event): Ledger
    requires Ok(l.rx) && Fits(e)
  {
    match e
    case Arrive(frames) =>
      l.(rx := l.rx.(seeq := l.rx.seeq.(queue := l.rx.seeq.queue + frames)), accepted := l.accepted + frames)
    case Driver(mem, nbdp, active) => l.(rx := l.rx.(mem := mem, nbdp := nbdp, active := active))
    case Service => var (t, fs) := Run(l.rx); l.(rx := t, fills := l.fills + fs)
  }

  function Steps(l: Ledger, es: seq<Event>): Ledger
    requires Ok(l.rx) && forall e :: e in es ==> Fits(e)
    decreases |es|
  {
    if es == [] then l else Steps(Step(l, es[0]), es[1..])
  }

  /** In every run of arrivals, driver activity and service, stalls included, the filled descriptors
      spell out the accepted frames in order, one frame to a descriptor, no byte lost. */
  lemma {:induction false} EveryRunFlows(l: Ledger, es: seq<Event>)
    requires Sound(l) && forall e :: e in es ==> Fits(e)
    ensures Sound(Steps(l, es))
    decreases |es|
  {
    hide Run;
    if es != [] {
      if es[0].Arrive? {
        hide Assemble, Staged;
        var (q, more) := (l.rx.seeq, es[0].frames);
        var k := |Assemble(l.fills).0|;
        assert (l.accepted + more)[k..] == l.accepted[k..] + more;
        if q.pos < |q.cur| {
          assert (l.accepted + more)[k + 1..] == l.accepted[k + 1..] + more;
        }
      } else if es[0].Service? {
        RunFlows(l.rx, l.accepted, l.fills);
      }
      EveryRunFlows(Step(l, es[0]), es[1..]);
    }
  }

  /** What the driver gets for a frame: two zero bytes, the frame, zeros up to the shortest Ethernet frame,
      and the good status. */
  predicate Delivery(f: Frame, s: seq<u8>) {
    var n := Max(|f|, 60);
    && |s| == n + 3 && s[0] == s[1] == 0 && s[n + 2] == 0x30
    && (forall i :: 0 <= i < |f| ==> s[2 + i] == f[i])
    && (forall i :: |f| + 2 <= i < n + 2 ==> s[i] == 0)
  }

  lemma StagedLayout(f: Frame)
    ensures Delivery(f, Staged(f))
  {
    var s, fill := Staged(f), Zeros(if |f| < ETH_MIN then ETH_MIN - |f| else 0);
    forall i | |f| + 2 <= i < Max(|f|, 60) + 2 ensures s[i] == 0 {
      assert s[i] == fill[i - |f| - 2];
    }
  }

  /** Once the queue is drained every accepted frame has been delivered whole. */
  lemma DrainedMeansDelivered(l: Ledger)
    requires Sound(l) && !Avail(l.rx.seeq)
    ensures var (done, part) := Assemble(l.fills);
      part == [] && |done| == |l.accepted| && forall i :: 0 <= i < |done| ==> Delivery(l.accepted[i], done[i])
  {
    hide Staged, Assemble, Delivery;
    var (done, part) := Assemble(l.fills);
    assert |l.accepted[|done|..]| == 0;
    forall i | 0 <= i < |done| ensures Delivery(l.accepted[i], done[i]) {
      StagedLayout(l.accepted[i]);
    }
  }

  // ---- what the driver finds in memory ----

  lemma {:induction false} AddrsAt(route: bool, buf: u32, n: nat, i: nat)
    requires i < n <= BCNT_SIZE
    ensures Addrs(route, buf, n)[i] == Loc(route, Plus(buf, i))
    decreases n
  {
    hide Loc;
    if i > 0 {
      AddrsAt(route, Plus(buf, 1), n - 1, i - 1);
    }
  }

  /** A buffer no longer than a count word can say never meets itself through the alias. */
  lemma BufferDistinct(route: bool, buf: u32, n: nat)
    requires n <= BCNT_SIZE
    ensures Distinct(Addrs(route, buf, n))
  {
    hide Addrs;
    var a := Addrs(route, buf, n);
    forall i, j | 0 <= i < j < n ensures a[i] != a[j] {
      AddrsAt(route, buf, n, i);
      AddrsAt(route, buf, n, j);
    }
  }

  /** The bytes a fill writes: its buffer and its count word. */
  predicate InFill(route: bool, f: Fill, x: u32) {
    x in Addrs(route, f.buf, |f.bytes|) || InWord(route, Plus(f.desc, 4), x)
  }

  predicate Whole(route: bool, f: Fill) {
    && Owned(f.info) && |f.bytes| <= Size(f.info)
    && Loc(route, Plus(f.desc, 4)) + 3 < DRAM_SIZE
    && forall x :: x in Addrs(route, f.buf, |f.bytes|) ==> !InWord(route, Plus(f.desc, 4), x)
  }

  /** The buffer holds the fill's bytes; the count word holds the flags, no OWN, and size less bytes. */
  predicate Found(mem: seq<u8>, route: bool, f: Fill)
    requires |mem| == DRAM_SIZE
  {
    && Owned(f.info) && |f.bytes| <= Size(f.info)
    && Gather(mem, Addrs(route, f.buf, |f.bytes|)) == f.bytes
    && Word(mem, route, Plus(f.desc, 4)) == Returned(f.info, |f.bytes|)
  }

  lemma FillFound(mem: seq<u8>, route: bool, f: Fill)
    requires |mem| == DRAM_SIZE && Whole(route, f)
    ensures Found(FillMem(mem, route, f), route, f)
  {
    hide Addrs, Loc, Scatter, PutWord, Word;
    var addrs := Addrs(route, f.buf, |f.bytes|);
    BufferDistinct(route, f.buf, |f.bytes|);
    var mid := Scatter(mem, addrs, f.bytes);
    PutsWord(mid, route, Plus(f.desc, 4), Returned(f.info, |f.bytes|));
    PutsBack(mid, route, Plus(f.desc, 4), Returned(f.info, |f.bytes|));
    forall i | 0 <= i < |addrs| ensures FillMem(mem, route, f)[addrs[i]] == f.bytes[i] {
      ScatterAt(mem, addrs, f.bytes, addrs[i]);
      assert addrs[i] in addrs;
    }
  }

  lemma FillFrame(mem: seq<u8>, route: bool, f: Fill, x: u32)
    requires |mem| == DRAM_SIZE && Owned(f.info) && |f.bytes| <= Size(f.info) && !InFill(route, f, x)
    ensures FillMem(mem, route, f)[x] == mem[x]
  {
    hide Addrs, Loc, Scatter, PutWord, Word;
    var addrs := Addrs(route, f.buf, |f.bytes|);
    PutsWord(Scatter(mem, addrs, f.bytes), route, Plus(f.desc, 4), Returned(f.info, |f.bytes|));
    ScatterAt(mem, addrs, f.bytes, x);
  }

  lemma {:induction false} RunFrame(s: Rx, x: u32)
    requires Ok(s) && forall f :: f in Run(s).1 ==> !InFill(s.route, f, x)
    ensures Run(s).0.mem[x] == s.mem[x]
    decreases Left(s.seeq), Sum(s.mem)
  {
    hide InFill, FillMem, Left, Sum, Word, Addrs, Loc;
    if Turns(s) {
      TurnEnds(s);
      FillFrame(s.mem, s.route, FillOf(s), x);
      if !Bit(FillOf(s).info, 0x80000000) {
        RunFrame(Turn(s), x);
      }
    }
  }

  predicate Disjoint(route: bool, f: Fill, g: Fill) {
    forall x: u32 :: !(InFill(route, f, x) && InFill(route, g, x))
  }

  /** After a run over descriptors and buffers that do not meet, every filled buffer and count word
      is there to be found. */
  lemma {:induction false} RunFound(s: Rx)
    requires Ok(s)
    requires forall f :: f in Run(s).1 ==> Whole(s.route, f)
    requires forall i, j :: 0 <= i < j < |Run(s).1| ==> Disjoint(s.route, Run(s).1[i], Run(s).1[j])
    ensures forall f :: f in Run(s).1 ==> Found(Run(s).0.mem, s.route, f)
    decreases Left(s.seeq), Sum(s.mem)
  {
    hide InFill, FillMem, Left, Sum, Word, Addrs, Loc, Whole, Found, Disjoint, FillOf;
    if Turns(s) {
      TurnEnds(s);
      var (t, f) := (Turn(s), FillOf(s));
      assert f in Run(s).1;
      FillFound(s.mem, s.route, f);
      if !Bit(f.info, 0x80000000) {
        var fs := Run(t).1;
        assert Run(s).1 == [f] + fs && t.route == s.route;
        forall i, j | 0 <= i < j < |fs| ensures Disjoint(t.route, fs[i], fs[j]) {
          assert Run(s).1[i + 1] == fs[i] && Run(s).1[j + 1] == fs[j];
        }
        RunFound(t);
        forall x: u32 | InFill(s.route, f, x) ensures Run(t).0.mem[x] == t.mem[x] {
          forall g | g in fs ensures !InFill(t.route, g, x) {
            var j :| 0 <= j < |fs| && fs[j] == g;
            assert Run(s).1[0] == f && Run(s).1[j + 1] == g;
            Meets(s.route, f, g, x);
          }
          RunFrame(t, x);
        }
        StillFound(t.mem, Run(t).0.mem, s.route, f);
      }
    }
  }

  lemma Meets(route: bool, f: Fill, g: Fill, x: u32)
    requires Disjoint(route, f, g) && InFill(route, f, x)
    ensures !InFill(route, g, x)
  {
  }

  lemma StillFound(mem: seq<u8>, mem2: seq<u8>, route: bool, f: Fill)
    requires |mem| == |mem2| == DRAM_SIZE && Whole(route, f) && Found(mem, route, f)
    requires forall x: u32 :: InFill(route, f, x) ==> mem2[x] == mem[x]
    ensures Found(mem2, route, f)
  {
    hide Addrs, Loc, Word;
    WordUnchanged(mem, mem2, route, Plus(f.desc, 4));
    assert Gather(mem2, Addrs(route, f.buf, |f.bytes|)) == Gather(mem, Addrs(route, f.buf, |f.bytes|));
  }

  // ---- byte by byte ----

  lemma {:induction false} ScatterMore(mem: seq<u8>, addrs: seq<u32>, data: seq<u8>, a: u32, v: u8)
    requires |mem| == DRAM_SIZE && |addrs| == |data|
    ensures Scatter(mem, addrs + [a], data + [v]) == Scatter(mem, addrs, data)[a := v]
    decreases |addrs|
  {
    if addrs == [] {
      assert Scatter(mem, [a], [v]) == Scatter(mem[a := v], [], []);
      assert addrs + [a] == [a] && data + [v] == [v];
    } else {
      assert (addrs + [a])[1..] == addrs[1..] + [a] && (data + [v])[1..] == data[1..] + [v];
      ScatterMore(mem[addrs[0] := data[0]], addrs[1..], data[1..], a, v);
    }
  }

  lemma AddrsMore(route: bool, buf: u32, n: nat)
    requires n < BCNT_SIZE
    ensures Addrs(route, buf, n + 1) == Addrs(route, buf, n) + [Loc(route, Plus(buf, n))]
  {
    hide Addrs, Plus, Loc;
    forall i | 0 <= i <= n ensures Addrs(route, buf, n + 1)[i] == (Addrs(route, buf, n) + [Loc(route, Plus(buf, n))])[i] {
      AddrsAt(route, buf, n + 1, i);
      if i < n {
        AddrsAt(route, buf, n, i);
      }
    }
  }
}
