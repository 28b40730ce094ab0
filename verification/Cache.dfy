/** The write-back cache over aliased DRAM, on values: lines, the fill and write-back steps, the
    CACHE ops and the DMA ops, and the flat memory the CPU sees through them. */
module Cache {
  import opened Words
  import opened Memory

  const LINE := 32
  const SETS := 4096

  datatype Line = Line(valid: bool, dirty: bool, tag: nat, data: seq<u8>)

  /** Cache lines by set, DRAM bytes, and whether the memory controller's alias is active. */
  datatype State = State(l1: seq<Line>, dram: seq<u8>, route: bool)

  function SetOf(pa: u32): (s: nat)
    ensures s < SETS
  {
    pa / LINE % SETS
  }

  function TagOf(pa: u32): nat { pa / LINE / SETS }
  function LineBase(tag: nat, set_: nat): nat { (tag * SETS + set_) * LINE }

  predicate ValidLine(set_: nat, l: Line) {
    |l.data| == LINE && LineBase(l.tag, set_) + LINE <= DRAM_SIZE
  }

  predicate Valid(s: State) {
    && |s.l1| == SETS && |s.dram| == DRAM_SIZE
    && forall i :: 0 <= i < SETS ==> ValidLine(i, s.l1[i])
  }

  /** Address split and its inverse; an aliased address keeps its set and its offset. */
  lemma Split(route: bool, pa: u32)
    ensures LineBase(TagOf(pa), SetOf(pa)) == pa - pa % LINE
    ensures SetOf(Loc(route, pa)) == SetOf(pa) && Loc(route, pa) % LINE == pa % LINE
    ensures Loc(route, pa - pa % LINE) == Loc(route, pa) - pa % LINE
  {
    var (q, r) := (pa / LINE, pa % LINE);
    if route && pa < 0x80000 {
      QuotientUnique(pa + 0x0800_0000, LINE, q + 1024 * SETS, r);
      QuotientUnique(q + 1024 * SETS, SETS, q / SETS + 1024, q % SETS);
    }
  }

  lemma LineAddress(route: bool, tag: nat, set_: nat)
    requires set_ < SETS && LineBase(tag, set_) + LINE <= DRAM_SIZE
    ensures var pa := LineBase(tag, set_);
      TagOf(pa) == tag && SetOf(pa) == set_ && pa % LINE == 0 && Loc(route, pa) + LINE <= DRAM_SIZE
  {
    QuotientUnique(LineBase(tag, set_), LINE, tag * SETS + set_, 0);
    QuotientUnique(tag * SETS + set_, SETS, tag, set_);
  }

  /** Where in DRAM the line of a set lives. */
  function HomeOf(route: bool, set_: nat, l: Line): u32
    requires ValidLine(set_, l)
  {
    Loc(route, LineBase(l.tag, set_))
  }

  // ---- line movement ----

  function Bytes(dram: seq<u8>, a: nat): (d: seq<u8>)
    requires a + LINE <= |dram|
    ensures |d| == LINE
  {
    dram[a..a + LINE]
  }

  function PutBytes(dram: seq<u8>, a: nat, d: seq<u8>): (r: seq<u8>)
    requires a + |d| <= |dram|
    ensures |r| == |dram|
    ensures forall i :: 0 <= i < |dram| ==> r[i] == if a <= i < a + |d| then d[i - a] else dram[i]
  {
    dram[..a] + d + dram[a + |d|..]
  }

  /** Push a dirty line to DRAM; leaves the line clean. */
  function Wb(s: State, set_: nat): (r: State)
    requires Valid(s) && set_ < SETS
    ensures Valid(r) && r.route == s.route
  {
    var l := s.l1[set_];
    if l.valid && l.dirty then
      LineAddress(s.route, l.tag, set_);
      s.(dram := PutBytes(s.dram, HomeOf(s.route, set_, l), l.data), l1 := s.l1[set_ := l.(dirty := false)])
    else s
  }

  predicate Resident(s: State, pa: u32)
    requires Valid(s)
  {
    var l := s.l1[SetOf(pa)];
    l.valid && l.tag == TagOf(pa)
  }

  /** Bring the line of pa into its set: evict a dirty conflicting line, then read from DRAM. */
  function Fill(s: State, pa: u32): (r: State)
    requires Valid(s)
    ensures Valid(r) && r.route == s.route
  {
    if Resident(s, pa) then s
    else
      Split(s.route, pa);
      var s := Wb(s, SetOf(pa));
      var base := Loc(s.route, pa) - pa % LINE;
      s.(l1 := s.l1[SetOf(pa) := Line(true, false, TagOf(pa), Bytes(s.dram, base))])
  }

  // ---- CPU accesses, a byte at a time ----

  function LoadByte(s: State, pa: u32): (u8, State)
    requires Valid(s)
  {
    var s := Fill(s, pa);
    (s.l1[SetOf(pa)].data[pa % LINE], s)
  }

  function StoreByte(s: State, pa: u32, v: u8): (r: State)
    requires Valid(s)
    ensures Valid(r) && r.route == s.route
  {
    var s := Fill(s, pa);
    var l := s.l1[SetOf(pa)];
    s.(l1 := s.l1[SetOf(pa) := l.(data := l.data[pa % LINE := v], dirty := true)])
  }

  /** An n-byte cached load and store; the address is a 32-bit word. */
  function LoadBytes(s: State, pa: u32, n: nat): (r: (seq<u8>, State))
    requires Valid(s)
    ensures Valid(r.1) && r.1.route == s.route && |r.0| == n
  {
    if n == 0 then ([], s)
    else
      var (d, t) := LoadBytes(s, pa, n - 1);
      var (b, u) := LoadByte(t, ToU32(pa + n - 1));
      (d + [b], u)
  }

  function StoreBytes(s: State, pa: u32, src: seq<u8>): (r: State)
    requires Valid(s)
    ensures Valid(r) && r.route == s.route
  {
    if src == [] then s
    else StoreByte(StoreBytes(s, pa, src[..|src| - 1]), ToU32(pa + |src| - 1), src[|src| - 1])
  }

  // ---- CACHE ops ----

  function Drop(s: State, set_: nat): (r: State)
    requires Valid(s) && set_ < SETS
    ensures Valid(r) && r.route == s.route
  {
    s.(l1 := s.l1[set_ := s.l1[set_].(valid := false)])
  }

  function HitWb(s: State, pa: u32): (r: State)
    requires Valid(s)
    ensures Valid(r) && r.route == s.route
  {
    if Resident(s, pa) then Wb(s, SetOf(pa)) else s
  }

  function HitInval(s: State, pa: u32): (r: State)
    requires Valid(s)
    ensures Valid(r) && r.route == s.route
  {
    if Resident(s, pa) then Drop(s, SetOf(pa)) else s
  }

  function HitWbInval(s: State, pa: u32): (r: State)
    requires Valid(s)
    ensures Valid(r) && r.route == s.route
  {
    if Resident(s, pa) then Drop(Wb(s, SetOf(pa)), SetOf(pa)) else s
  }

  function IndexInval(s: State, idx: u32): (r: State)
    requires Valid(s)
    ensures Valid(r) && r.route == s.route
  {
    Drop(s, SetOf(idx))
  }

  function IndexWbInval(s: State, idx: u32): (r: State)
    requires Valid(s)
    ensures Valid(r) && r.route == s.route
  {
    Drop(Wb(s, SetOf(idx)), SetOf(idx))
  }

  // ---- device accesses ----

  function DramWrite(s: State, pa: u32, v: u8): (r: State)
    requires Valid(s)
    ensures Valid(r) && r.route == s.route
  {
    s.(dram := s.dram[Loc(s.route, pa) := v])
  }

  /** A device byte: under speculation the target line is first pulled in with its old contents, and a
      snoop drops the line held under the device's own address. */
  function DeviceByte(s: State, spec: bool, snoop: bool, pa: u32, v: u8): (r: State)
    requires Valid(s)
    ensures Valid(r) && r.route == s.route
  {
    var t := DramWrite(if spec then Fill(s, pa) else s, pa, v);
    if snoop then HitInval(t, pa) else t
  }

  /** Both switched on. */
  function DmaByte(s: State, pa: u32, v: u8): (r: State)
    requires Valid(s)
    ensures Valid(r) && r.route == s.route
  {
    DeviceByte(s, true, true, pa, v)
  }

  // ---- what the CPU sees ----

  /** DRAM location a is held by the line of its set. */
  predicate Held(s: State, a: u32)
    requires Valid(s)
  {
    var i := SetOf(a);
    s.l1[i].valid && HomeOf(s.route, i, s.l1[i]) == a - a % LINE
  }

  /** The byte a cached load of DRAM location a returns. */
  function Byte(s: State, a: u32): u8
    requires Valid(s)
  {
    if Held(s, a) then s.l1[SetOf(a)].data[a % LINE] else s.dram[a]
  }

  /** A clean copy of location a matches DRAM. */
  predicate CleanAt(s: State, a: u32)
    requires Valid(s)
  {
    Held(s, a) && !s.l1[SetOf(a)].dirty ==> s.l1[SetOf(a)].data[a % LINE] == s.dram[a]
  }

  /** No clean line is stale: true of an empty cache, and broken only by writes behind its back. */
  ghost predicate Coherent(s: State)
    requires Valid(s)
  {
    forall a: u32 :: CleanAt(s, a)
  }

  /** The DRAM locations of a set's line are the locations of that set in one 32-byte line. */
  lemma HomeSet(s: State, set_: nat, a: u32)
    requires Valid(s) && set_ < SETS
    ensures var h := HomeOf(s.route, set_, s.l1[set_]);
      h + LINE <= DRAM_SIZE && (h <= a < h + LINE <==> h == a - a % LINE) && (h <= a < h + LINE ==> SetOf(a) == set_)
  {
    LineAddress(s.route, s.l1[set_].tag, set_);
    Split(s.route, LineBase(s.l1[set_].tag, set_));
    var h := HomeOf(s.route, set_, s.l1[set_]);
    hide Loc, LineBase, ValidLine;
    if h <= a < h + LINE {
      QuotientUnique(a, LINE, h / LINE, a - h);
    }
  }

  /** A write-back leaves the CPU's view alone and brings DRAM up to it. */
  lemma WbKeepsView(s: State, set_: nat, a: u32)
    requires Valid(s) && set_ < SETS
    ensures Byte(Wb(s, set_), a) == Byte(s, a)
    ensures Held(Wb(s, set_), a) == Held(s, a)
    ensures CleanAt(s, a) ==> CleanAt(Wb(s, set_), a) && (SetOf(a) == set_ ==> Wb(s, set_).dram[a] == Byte(s, a))
    ensures SetOf(a) != set_ ==> Wb(s, set_).dram[a] == s.dram[a]
    ensures !Wb(s, set_).l1[set_].valid || !Wb(s, set_).l1[set_].dirty
  {
    HomeSet(s, set_, a);
    hide LineBase, Loc, SetOf, ValidLine;
  }

  /** A resident line holds exactly the DRAM line its address names. */
  lemma ResidentHolds(s: State, pa: u32)
    requires Valid(s) && Resident(s, pa)
    ensures Held(s, Loc(s.route, pa))
    ensures Byte(s, Loc(s.route, pa)) == s.l1[SetOf(pa)].data[pa % LINE]
  {
    Split(s.route, pa);
    hide Loc, LineBase;
  }

  /** A fill is invisible: no byte the CPU sees changes, through either alias. */
  lemma FillKeepsView(s: State, pa: u32, a: u32)
    requires Valid(s) && CleanAt(s, a)
    ensures Byte(Fill(s, pa), a) == Byte(s, a)
    ensures CleanAt(Fill(s, pa), a)
    ensures Resident(Fill(s, pa), pa)
  {
    if !Resident(s, pa) {
      Split(s.route, pa);
      WbKeepsView(s, SetOf(pa), a);
      hide Loc, LineBase, Wb, SetOf;
    }
  }

  lemma DropView(s: State, set_: nat, a: u32)
    requires Valid(s) && set_ < SETS
    ensures Byte(Drop(s, set_), a) == if SetOf(a) == set_ then s.dram[a] else Byte(s, a)
    ensures CleanAt(s, a) ==> CleanAt(Drop(s, set_), a)
  {
    hide LineBase, Loc, SetOf, ValidLine;
  }

  /** A cached load returns what the CPU sees at the DRAM location its address names, and changes no byte
      the CPU sees. */
  lemma LoadSees(s: State, pa: u32, a: u32)
    requires Valid(s) && CleanAt(s, a)
    ensures a == Loc(s.route, pa) ==> LoadByte(s, pa).0 == Byte(s, a)
    ensures Byte(LoadByte(s, pa).1, a) == Byte(s, a) && CleanAt(LoadByte(s, pa).1, a)
  {
    hide Fill, Byte, Loc, CleanAt;
    FillKeepsView(s, pa, a);
    ResidentHolds(Fill(s, pa), pa);
  }

  /** A cached store changes what the CPU sees at that location, and nowhere else. */
  lemma StoreSeen(s: State, pa: u32, v: u8, a: u32)
    requires Valid(s) && CleanAt(s, a)
    ensures Byte(StoreByte(s, pa, v), a) == if a == Loc(s.route, pa) then v else Byte(s, a)
    ensures CleanAt(StoreByte(s, pa, v), a)
  {
    FillKeepsView(s, pa, a);
    FilledLine(s, pa);
    hide Fill, Loc, LineBase;
  }

  lemma FilledLine(s: State, pa: u32)
    requires Valid(s)
    ensures Resident(Fill(s, pa), pa)
    ensures HomeOf(s.route, SetOf(pa), Fill(s, pa).l1[SetOf(pa)]) == Loc(s.route, pa) - pa % LINE
    ensures SetOf(Loc(s.route, pa)) == SetOf(pa) && Loc(s.route, pa) % LINE == pa % LINE
  {
    Split(s.route, pa);
    hide Loc, LineBase, Wb, SetOf;
  }

  lemma HitWbKeepsView(s: State, pa: u32, a: u32)
    requires Valid(s) && CleanAt(s, a)
    ensures Byte(HitWb(s, pa), a) == Byte(s, a) && CleanAt(HitWb(s, pa), a)
  {
    hide Wb, Byte, CleanAt, Valid;
    WbKeepsView(s, SetOf(pa), a);
  }

  lemma WbDropKeepsView(s: State, set_: nat, a: u32)
    requires Valid(s) && set_ < SETS && CleanAt(s, a)
    ensures Byte(Drop(Wb(s, set_), set_), a) == Byte(s, a) && CleanAt(Drop(Wb(s, set_), set_), a)
  {
    hide Wb, Drop, Byte, CleanAt, SetOf, Valid;
    WbKeepsView(s, set_, a);
    DropView(Wb(s, set_), set_, a);
  }

  /** A multi-byte load returns what the CPU sees at each of its bytes. */
  lemma {:induction false} LoadBytesSee(s: State, pa: u32, n: nat, a: u32)
    requires Valid(s) && Coherent(s)
    ensures forall i :: 0 <= i < n ==> LoadBytes(s, pa, n).0[i] == Byte(s, LocOf(s.route, pa, i))
    ensures Byte(LoadBytes(s, pa, n).1, a) == Byte(s, a) && CleanAt(LoadBytes(s, pa, n).1, a)
  {
    hide LoadByte, Byte, CleanAt, Valid, ToU32, Loc;
    if n == 0 {
      assert CleanAt(s, a);
    } else {
      var t, b := LoadBytes(s, pa, n - 1).1, ToU32(pa + n - 1);
      LoadBytesSee(s, pa, n - 1, a);
      LoadSees(t, b, a);
      LoadBytesSee(s, pa, n - 1, Loc(s.route, b));
      LoadSees(t, b, Loc(s.route, b));
    }
  }

  /** No access and no descriptor is longer than a 14-bit count. */
  const MAX_BURST := 0x3fff

  /** The DRAM location of byte i of an access. */
  function LocOf(route: bool, pa: u32, i: nat): u32 {
    Loc(route, ToU32(pa + i))
  }

  lemma WrappedTargets(route: bool, pa: u32, i: nat, j: nat)
    requires i < j <= MAX_BURST
    ensures LocOf(route, pa, i) != LocOf(route, pa, j)
  {
    assert ToU32(pa + i) == if pa + i < U32 then pa + i else pa + i - U32;
    assert ToU32(pa + j) == if pa + j < U32 then pa + j else pa + j - U32;
  }

  /** A multi-byte store changes what the CPU sees at exactly its bytes' locations, to those bytes. */
  lemma {:induction false} StoreBytesSeen(s: State, pa: u32, src: seq<u8>, a: u32)
    requires Valid(s) && CleanAt(s, a) && |src| <= MAX_BURST
    ensures var t := StoreBytes(s, pa, src);
      && CleanAt(t, a)
      && (forall i :: 0 <= i < |src| && LocOf(s.route, pa, i) == a ==> Byte(t, a) == src[i])
      && ((forall i :: 0 <= i < |src| ==> LocOf(s.route, pa, i) != a) ==> Byte(t, a) == Byte(s, a))
    decreases |src|
  {
    hide StoreByte, Byte, CleanAt, Valid, ToU32, Loc;
    if src != [] {
      var n := |src| - 1;
      StoreBytesSeen(s, pa, src[..n], a);
      StoreSeen(StoreBytes(s, pa, src[..n]), ToU32(pa + n), src[n], a);
      forall i | 0 <= i < n ensures LocOf(s.route, pa, i) != LocOf(s.route, pa, n) {
        WrappedTargets(s.route, pa, i, n);
      }
      assert LocOf(s.route, pa, n) == Loc(s.route, ToU32(pa + n));
    }
  }

  /** Both names of a DRAM line share a set, so at most one copy of it is ever resident. */
  lemma OneCopy(s: State, pa: u32, pb: u32)
    requires Valid(s) && Loc(s.route, pa) == Loc(s.route, pb)
    ensures SetOf(pa) == SetOf(pb)
    ensures Resident(s, pa) && Resident(s, pb) ==> pa == pb
  {
    Split(s.route, pa);
    Split(s.route, pb);
  }

  // ---- devices ----

  /** One device byte: the location shows it, the line is gone, and the rest of the line shows what
      DRAM held; nothing else changes. Only dirty bytes of a line resident under the device's own
      address are lost. */
  lemma DmaByteView(s: State, pa: u32, v: u8, a: u32)
    requires Valid(s) && CleanAt(s, a)
    ensures var t := DmaByte(s, pa, v);
      && Byte(t, a) == (if a == Loc(s.route, pa) then v
                        else if Resident(s, pa) && SetOf(a) == SetOf(pa) then s.dram[a] else Byte(s, a))
      && CleanAt(t, a)
      && Held(t, a) == (SetOf(a) != SetOf(pa) && Held(s, a))
  {
    Split(s.route, pa);
    WbKeepsView(s, SetOf(pa), a);
    FilledLine(s, pa);
    hide Loc, LineBase, Wb, SetOf;
  }

  /** A burst of device bytes at pa, pa+1, ... */
  function DmaBytes(s: State, pa: u32, bytes: seq<u8>): (r: State)
    requires Valid(s) && pa + |bytes| <= DRAM_SIZE
    ensures Valid(r) && r.route == s.route
  {
    if bytes == [] then s
    else DmaByte(DmaBytes(s, pa, bytes[..|bytes| - 1]), pa + |bytes| - 1, bytes[|bytes| - 1])
  }

  /** After a burst no target byte is resident and the CPU sees exactly the device's bytes. */
  lemma {:induction false} DmaDelivers(s: State, pa: u32, bytes: seq<u8>)
    requires Valid(s) && Coherent(s) && pa + |bytes| <= DRAM_SIZE && |bytes| <= MAX_BURST
    ensures Coherent(DmaBytes(s, pa, bytes))
    ensures forall i :: 0 <= i < |bytes| ==> Delivered(DmaBytes(s, pa, bytes), pa + i, bytes[i])
  {
    hide Coherent, DmaByte, Valid, Delivered;
    if bytes != [] {
      var n := |bytes| - 1;
      DmaDelivers(s, pa, bytes[..n]);
      var m := DmaBytes(s, pa, bytes[..n]);
      forall i | 0 <= i < |bytes| ensures Delivered(DmaByte(m, pa + n, bytes[n]), pa + i, bytes[i]) {
        if i < n {
          assert Delivered(m, pa + i, bytes[..n][i]);
        }
        DmaStep(m, pa, n, bytes[n], i, bytes[i]);
      }
      DmaKeepsCoherent(m, pa + n, bytes[n]);
    }
  }

  /** The device byte is in DRAM, no line shadows it, and so the CPU sees it. */
  predicate Delivered(s: State, pa: u32, v: u8)
    requires Valid(s)
  {
    var a := Loc(s.route, pa);
    !Held(s, a) && s.dram[a] == v && Byte(s, a) == v
  }

  lemma DmaKeepsCoherent(s: State, pa: u32, v: u8)
    requires Valid(s) && Coherent(s)
    ensures Coherent(DmaByte(s, pa, v))
  {
    hide DmaByte, CleanAt, Valid;
    forall a: u32 ensures CleanAt(DmaByte(s, pa, v), a) {
      assert CleanAt(s, a);
      DmaByteView(s, pa, v, a);
    }
  }

  lemma DistinctTargets(route: bool, pa: u32, i: nat, n: nat)
    requires i < n <= MAX_BURST && pa + n < DRAM_SIZE
    ensures Loc(route, pa + i) != Loc(route, pa + n)
  {
  }

  /** Byte n of a burst is delivered, and does not disturb byte i. */
  lemma DmaStep(m: State, pa: u32, n: nat, v: u8, i: nat, w: u8)
    requires Valid(m) && Coherent(m) && pa + n < DRAM_SIZE && i <= n <= MAX_BURST
    requires if i < n then Delivered(m, pa + i, w) else w == v
    ensures Delivered(DmaByte(m, pa + n, v), pa + i, w)
  {
    hide Loc, SetOf, DmaByte, Valid, CleanAt;
    var a := Loc(m.route, pa + i);
    assert CleanAt(m, a);
    DmaByteView(m, pa + n, v, a);
    if i < n {
      DistinctTargets(m.route, pa, i, n);
    }
    Split(m.route, pa + i);
  }

  // ---- devices without the speculative fill, and where the two names of a line matter ----

  /** Location of pa is cached, but under its other name. */
  predicate HeldByOther(s: State, pa: u32)
    requires Valid(s)
  {
    Held(s, Loc(s.route, pa)) && !Resident(s, pa)
  }

  /** The CPU sees a device byte unless a line still holds another one for its location: without the
      snoop under either name, with it under the other one only, because the snoop compares addresses,
      not DRAM locations. */
  lemma DeviceByteSeen(s: State, spec: bool, snoop: bool, pa: u32, v: u8)
    requires Valid(s)
    ensures var (f, a) := (if spec then Fill(s, pa) else s, Loc(s.route, pa));
      var hidden := if snoop then HeldByOther(f, pa) else Held(f, a);
      Byte(DeviceByte(s, spec, snoop, pa, v), a) == v <==> !(hidden && f.l1[SetOf(a)].data[a % LINE] != v)
  {
    var f := if spec then Fill(s, pa) else s;
    Split(s.route, pa);
    if Resident(f, pa) {
      ResidentHolds(f, pa);
    }
    hide Loc, LineBase, SetOf, Fill;
  }

  /** And the other name does get in the way: bytes stored through the low name of a line survive a
      snooped device write through its high name. */
  lemma StaleUnderOtherName(s: State, pa: u32, v: u8, w: u8)
    requires Valid(s) && Coherent(s) && s.route && pa < 0x80000 && v != w
    ensures var t := StoreByte(s, pa, v);
      Byte(DeviceByte(t, false, true, pa + 0x0800_0000, w), Loc(true, pa + 0x0800_0000)) == v
  {
    hide Fill, Wb, LineBase;
    var a := Loc(true, pa);
    assert CleanAt(s, a);
    FillKeepsView(s, pa, a);
    FilledLine(s, pa);
    var t := StoreByte(s, pa, v);
    Split(true, pa + 0x0800_0000);
    assert TagOf(pa + 0x0800_0000) != TagOf(pa);
    assert !Resident(t, pa + 0x0800_0000);
  }

  // ---- whole runs: the cached machine is a flat memory ----

  /** Cached accesses, the CACHE ops that write dirty data back before dropping it, and snooped device
      writes, speculated or not. */
  datatype Op = Load(pa: u32) | Store(pa: u32, v: u8) | WriteBack(pa: u32) | WriteBackInval(pa: u32)
              | IndexWriteBackInval(idx: u32) | Device(spec: bool, pa: u32, v: u8)

  function Exec(s: State, op: Op): (r: (seq<u8>, State))
    requires Valid(s)
    ensures Valid(r.1) && r.1.route == s.route
  {
    match op
    case Load(pa) => ([LoadByte(s, pa).0], LoadByte(s, pa).1)
    case Store(pa, v) => ([], StoreByte(s, pa, v))
    case WriteBack(pa) => ([], HitWb(s, pa))
    case WriteBackInval(pa) => ([], HitWbInval(s, pa))
    case IndexWriteBackInval(idx) => ([], IndexWbInval(s, idx))
    case Device(spec, pa, v) => ([], DeviceByte(s, spec, true, pa, v))
  }

  /** A device writes to no dirty line under its own address, nor, unless its line is pulled in first,
      to one held under the other alias. */
  predicate Clean(s: State, op: Op)
    requires Valid(s)
  {
    op.Device? ==> !(Resident(s, op.pa) && s.l1[SetOf(op.pa)].dirty) && (op.spec || !HeldByOther(s, op.pa))
  }

  /** Every device write of the run finds its line so. */
  predicate CleanRun(s: State, ops: seq<Op>)
    requires Valid(s)
    decreases |ops|
  {
    ops == [] || (Clean(s, ops[0]) && CleanRun(Exec(s, ops[0]).1, ops[1..]))
  }

  /** Runs without devices do. */
  lemma {:induction false} CpuRunsClean(s: State, ops: seq<Op>)
    requires Valid(s) && forall op :: op in ops ==> !op.Device?
    ensures CleanRun(s, ops)
    decreases |ops|
  {
    hide Exec, Valid;
    if ops != [] {
      CpuRunsClean(Exec(s, ops[0]).1, ops[1..]);
    }
  }

  /** The bytes loaded by a run, and the state after it. */
  function Run(s: State, ops: seq<Op>): (r: (seq<u8>, State))
    requires Valid(s)
    ensures Valid(r.1) && r.1.route == s.route
    decreases |ops|
  {
    if ops == [] then ([], s)
    else
      var (out, next) := Exec(s, ops[0]);
      var (rest, end) := Run(next, ops[1..]);
      (out + rest, end)
  }

  /** The same run on a plain byte array: loads read it, stores and devices write it,
      CACHE ops do nothing. */
  function FlatRun(route: bool, mem: seq<u8>, ops: seq<Op>): (r: (seq<u8>, seq<u8>))
    requires |mem| == DRAM_SIZE
    ensures |r.1| == DRAM_SIZE
    decreases |ops|
  {
    if ops == [] then ([], mem)
    else
      match ops[0]
      case Load(pa) =>
        var (rest, end) := FlatRun(route, mem, ops[1..]);
        ([mem[Loc(route, pa)]] + rest, end)
      case Store(pa, v) => FlatRun(route, mem[Loc(route, pa) := v], ops[1..])
      case Device(_, pa, v) => FlatRun(route, mem[Loc(route, pa) := v], ops[1..])
      case _ => FlatRun(route, mem, ops[1..])
  }

  ghost predicate Sees(s: State, mem: seq<u8>)
    requires Valid(s)
  {
    |mem| == DRAM_SIZE && forall a: u32 :: Byte(s, a) == mem[a]
  }

  function FlatStep(route: bool, mem: seq<u8>, op: Op): (r: seq<u8>)
    requires |mem| == DRAM_SIZE
    ensures |r| == DRAM_SIZE
  {
    if op.Store? || op.Device? then mem[Loc(route, op.pa) := op.v] else mem
  }

  /** A snooped device byte on a clean line changes what the CPU sees at its location alone. */
  lemma DeviceIsStore(s: State, spec: bool, pa: u32, v: u8, a: u32)
    requires Valid(s) && CleanAt(s, a) && Clean(s, Device(spec, pa, v))
    ensures var t := DeviceByte(s, spec, true, pa, v);
      Byte(t, a) == (if a == Loc(s.route, pa) then v else Byte(s, a)) && CleanAt(t, a)
  {
    if spec {
      DmaByteView(s, pa, v, a);
      hide Fill, Loc, LineBase, SetOf;
    } else {
      Split(s.route, pa);
      hide Loc, LineBase, SetOf;
    }
  }

  lemma ExecIsFlat(s: State, mem: seq<u8>, op: Op)
    requires Valid(s) && Coherent(s) && Sees(s, mem) && Clean(s, op)
    ensures op.Load? ==> Exec(s, op).0 == [mem[Loc(s.route, op.pa)]]
    ensures Coherent(Exec(s, op).1) && Sees(Exec(s, op).1, FlatStep(s.route, mem, op))
  {
    hide Fill, Wb, Drop, Byte, CleanAt, Valid, SetOf, Loc, HitWb, StoreByte, DeviceByte, Clean;
    var t := Exec(s, op).1;
    if op.Load? {
      assert CleanAt(s, Loc(s.route, op.pa));
      LoadSees(s, op.pa, Loc(s.route, op.pa));
    }
    forall a: u32 ensures CleanAt(t, a) && Byte(t, a) == FlatStep(s.route, mem, op)[a] {
      assert CleanAt(s, a) && Byte(s, a) == mem[a];
      match op
      case Load(pa) => FillKeepsView(s, pa, a);
      case Store(pa, v) => StoreSeen(s, pa, v, a);
      case WriteBack(pa) => HitWbKeepsView(s, pa, a);
      case WriteBackInval(pa) => WbDropKeepsView(s, SetOf(pa), a);
      case IndexWriteBackInval(idx) => WbDropKeepsView(s, SetOf(idx), a);
      case Device(spec, pa, v) => DeviceIsStore(s, spec, pa, v, a);
    }
  }

  /** Every run of cached accesses, write-backs and snooped device writes to clean lines loads what a flat
      memory would, through either alias, whatever lines come and go. */
  lemma {:induction false} RunIsFlat(s: State, mem: seq<u8>, ops: seq<Op>)
    requires Valid(s) && Coherent(s) && Sees(s, mem) && CleanRun(s, ops)
    ensures Run(s, ops).0 == FlatRun(s.route, mem, ops).0
    ensures Coherent(Run(s, ops).1) && Sees(Run(s, ops).1, FlatRun(s.route, mem, ops).1)
    decreases |ops|
  {
    hide Exec, Coherent, Loc, Valid, Byte, Clean;
    if ops != [] {
      ExecIsFlat(s, mem, ops[0]);
      RunIsFlat(Exec(s, ops[0]).1, FlatStep(s.route, mem, ops[0]), ops[1..]);
      ExecOutput(s, ops[0]);
    }
  }

  lemma ExecOutput(s: State, op: Op)
    requires Valid(s)
    ensures !op.Load? ==> Exec(s, op).0 == []
  {
    hide Fill, Wb, DeviceByte;
  }

  /** Outside the aliased 512 KB and its image a location has one name. */
  predicate OneName(route: bool, pa: u32) {
    route ==> pa >= 0x80000 && !(0x0800_0000 <= pa < 0x0808_0000)
  }

  lemma OneNameHeld(s: State, pa: u32)
    requires Valid(s) && OneName(s.route, pa)
    ensures !HeldByOther(s, pa)
  {
    var i := SetOf(pa);
    if Held(s, Loc(s.route, pa)) {
      var l := s.l1[i];
      LineAddress(s.route, l.tag, i);
      assert Loc(s.route, LineBase(l.tag, i)) == pa - pa % LINE;
      assert LineBase(l.tag, i) == pa - pa % LINE;
      Split(s.route, pa);
    }
  }

  /** Hit write-backs over n consecutive lines from pa. */
  function HitWbLines(s: State, pa: u32, n: nat): (r: State)
    requires Valid(s) && pa % LINE == 0 && pa + n * LINE <= DRAM_SIZE
    ensures Valid(r) && r.route == s.route
  {
    if n == 0 then s else HitWb(HitWbLines(s, pa, n - 1), pa + (n - 1) * LINE)
  }

  /** A hit write-back changes no byte the CPU sees, and brings DRAM up to it exactly unless the line is
      held, and differs, under the other name. */
  lemma HitWbReaches(s: State, pa: u32, a: u32)
    requires Valid(s) && CleanAt(s, a)
    ensures var t := HitWb(s, pa);
      && Byte(t, a) == Byte(s, a) && CleanAt(t, a)
      && (s.dram[a] == Byte(s, a) ==> t.dram[a] == Byte(s, a))
      && (Loc(s.route, pa) == a ==> (t.dram[a] == Byte(s, a) <==> !(HeldByOther(s, pa) && s.dram[a] != Byte(s, a))))
  {
    WbKeepsView(s, SetOf(pa), a);
    Split(s.route, pa);
    hide Loc, LineBase, SetOf, Wb;
  }

  lemma HitWbKeepsNames(s: State, pa: u32, b: u32)
    requires Valid(s)
    ensures HeldByOther(HitWb(s, pa), b) == HeldByOther(s, b)
  {
    Split(s.route, b);
    hide Loc, LineBase, SetOf;
  }

  lemma SameLineReaches(s: State, pa: u32, pb: u32)
    requires Valid(s) && pa - pa % LINE == pb - pb % LINE
    ensures HitWb(s, pa) == HitWb(s, pb)
  {
  }

  /** After hit write-backs over a range, DRAM is what the CPU sees wherever no line is held under the
      other name; so everywhere outside the aliased memory (OneNameHeld). */
  lemma {:induction false} HitWbFlushes(s: State, pa: u32, n: nat, b: u32)
    requires Valid(s) && Coherent(s) && pa % LINE == 0 && pa + n * LINE <= DRAM_SIZE
    requires pa <= b < pa + n * LINE && !HeldByOther(s, b)
    ensures var (t, a) := (HitWbLines(s, pa, n), Loc(s.route, b)); t.dram[a] == Byte(t, a) == Byte(s, a)
  {
    hide Byte, Held, HeldByOther, CleanAt, Valid, HitWb, Loc;
    var a := Loc(s.route, b);
    var m := HitWbLines(s, pa, n - 1);
    var last := pa + (n - 1) * LINE;
    HitWbLinesKeepView(s, pa, n - 1, a);
    HitWbLinesKeepNames(s, pa, n - 1, b);
    if b < last {
      HitWbFlushes(s, pa, n - 1, b);
      HitWbReaches(m, last, a);
    } else {
      SameLineReaches(m, last, b);
      HitWbReaches(m, b, a);
    }
  }

  lemma {:induction false} HitWbLinesKeepNames(s: State, pa: u32, n: nat, b: u32)
    requires Valid(s) && pa % LINE == 0 && pa + n * LINE <= DRAM_SIZE
    ensures HeldByOther(HitWbLines(s, pa, n), b) == HeldByOther(s, b)
  {
    hide HitWb, HeldByOther, Valid;
    if n > 0 {
      HitWbLinesKeepNames(s, pa, n - 1, b);
      HitWbKeepsNames(HitWbLines(s, pa, n - 1), pa + (n - 1) * LINE, b);
    }
  }

  lemma {:induction false} HitWbLinesKeepView(s: State, pa: u32, n: nat, b: u32)
    requires Valid(s) && Coherent(s) && pa % LINE == 0 && pa + n * LINE <= DRAM_SIZE
    ensures var t := HitWbLines(s, pa, n); Byte(t, b) == Byte(s, b) && CleanAt(t, b)
  {
    hide HitWb, Byte, CleanAt, Valid;
    if n == 0 {
      assert CleanAt(s, b);
    } else {
      HitWbLinesKeepView(s, pa, n - 1, b);
      HitWbReaches(HitWbLines(s, pa, n - 1), pa + (n - 1) * LINE, b);
    }
  }

  // ---- the index sweep ----

  /** Index write-back-invalidate of sets 0..n-1. */
  function Sweep(s: State, n: nat): (r: State)
    requires Valid(s) && n <= SETS
    ensures Valid(r) && r.route == s.route
  {
    if n == 0 then s else IndexWbInval(Sweep(s, n - 1), (n - 1) * LINE)
  }

  lemma {:induction false} SweepSoFar(s: State, n: nat, b: u32)
    requires Valid(s) && Coherent(s) && n <= SETS
    ensures var t := Sweep(s, n);
      && Byte(t, b) == Byte(s, b) && CleanAt(t, b)
      && forall i :: 0 <= i < n ==> !t.l1[i].valid
  {
    hide Byte, CleanAt, Loc, LineBase, Wb;
    if n == 0 {
      assert CleanAt(s, b);
    } else {
      SweepSoFar(s, n - 1, b);
      var m := Sweep(s, n - 1);
      assert SetOf((n - 1) * LINE) == n - 1;
      WbDropKeepsView(m, n - 1, b);
      WbLines(m, n - 1);
    }
  }

  lemma WbLines(s: State, set_: nat)
    requires Valid(s) && set_ < SETS
    ensures forall i :: 0 <= i < SETS && i != set_ ==> Wb(s, set_).l1[i] == s.l1[i]
  {
  }

  /** A sweep over every set empties the cache and leaves DRAM equal to what the CPU saw. */
  lemma SweepFlushes(s: State, b: u32)
    requires Valid(s) && Coherent(s)
    ensures var t := Sweep(s, SETS);
      && (forall i :: 0 <= i < SETS ==> !t.l1[i].valid)
      && t.dram[b] == Byte(t, b) == Byte(s, b)
  {
    hide Sweep, Valid, LineBase, Loc;
    SweepSoFar(s, SETS, b);
  }
}
