/** Per-command packets of the graphics state: what np_pack writes and np_packplay reads. */
module NpPacket {
  import opened Words
  import opened Bitwise
  import opened ByteOrder

  const REX_WORDS := 80
  const BITMAP := 10

  /** The decoded REX3 register structure as words. */
  type Rex = s: seq<u32> | |s| == REX_WORDS witness seq(REX_WORDS, _ => 0)

  datatype Snap = Snap(
    globalMask: u32, writeMask: u32, blend: u8, fastClear: u8, planeEnable: u8, drawDepth: u8,
    logicop: u8, srcShift: u8, destAux: u8, pad: u8)

  const SNAP_BYTES := 16

  function SnapBytes(s: Snap): (b: seq<u8>)
    ensures |b| == SNAP_BYTES
  {
    Little(s.globalMask, 4) + Little(s.writeMask, 4)
    + [s.blend, s.fastClear, s.planeEnable, s.drawDepth, s.logicop, s.srcShift, s.destAux, s.pad]
  }

  function LoadSnap(b: seq<u8>): Snap
    requires |b| == SNAP_BYTES
  {
    Snap(Load32(b[..4]), Load32(b[4..8]), b[8], b[9], b[10], b[11], b[12], b[13], b[14], b[15])
  }

  function Load32(b: seq<u8>): u32
    requires |b| == 4
  {
    LoadsWord(b);
    FromLittle(b)
  }

  lemma LoadsWord(b: seq<u8>)
    requires |b| == 4
    ensures 0 <= FromLittle(b) < U32
  {
    assert Pow256(4) == U32;
    LittleBound(b);
  }

  lemma WordRoundTrip(x: u32)
    ensures Load32(Little(x, 4)) == x
  {
    assert Pow256(4) == U32;
    LittleRoundTrip(x, 4);
  }

  lemma SnapRoundTrip(s: Snap)
    ensures LoadSnap(SnapBytes(s)) == s
  {
    var b := SnapBytes(s);
    assert b[..4] == Little(s.globalMask, 4) && b[4..8] == Little(s.writeMask, 4);
    WordRoundTrip(s.globalMask);
    WordRoundTrip(s.writeMask);
  }

  // ---- the packet ----

  predicate Dirty(last: Rex, w: Rex, i: nat) {
    i < REX_WORDS && w[i] != last[i]
  }

  /** n bits of a bitmap from bit i on, low bit first. */
  function DirtyBits(last: Rex, w: Rex, i: nat, n: nat): (b: nat)
    ensures b < Pow2(n)
    decreases n
  {
    if n == 0 then 0 else (if Dirty(last, w, i) then 1 else 0) + 2 * DirtyBits(last, w, i + 1, n - 1)
  }

  lemma {:induction false} DirtyBitAt(last: Rex, w: Rex, i: nat, n: nat, k: nat)
    ensures BitAt(DirtyBits(last, w, i, n), k) <==> k < n && Dirty(last, w, i + k)
    decreases n
  {
    if n == 0 {
      ZeroBits(k);
    } else if k > 0 {
      DirtyBitAt(last, w, i + 1, n - 1, k - 1);
    }
  }

  function DirtyByte(last: Rex, w: Rex, j: nat): (b: u8) {
    assert Pow2(8) == 256;
    DirtyBits(last, w, 8 * j, 8)
  }

  function Bitmap(last: Rex, w: Rex): (bm: seq<u8>)
    ensures |bm| == BITMAP
  {
    seq(BITMAP, j requires 0 <= j < BITMAP => DirtyByte(last, w, j))
  }

  /** The values of the dirty words from word i on. */
  function Values(last: Rex, w: Rex, i: nat): seq<u8>
    requires i <= REX_WORDS
    decreases REX_WORDS - i
  {
    if i == REX_WORDS then []
    else (if Dirty(last, w, i) then Little(w[i], 4) else []) + Values(last, w, i + 1)
  }

  function Opcode(dm0: u32): u8 {
    dm0 % 4 + dm0 / 4 % 8 * 4
  }

  /** on_go: the state at the start of a command as a difference from the last command's end. */
  function Packet(last: Rex, lastSnap: Snap, w: Rex, snap: Snap): seq<u8> {
    [Opcode(w[0]), if snap != lastSnap then 1 else 0] + Bitmap(last, w) + Values(last, w, 0)
    + if snap != lastSnap then SnapBytes(snap) else []
  }

  // ---- reading it back ----

  datatype Option<T> = None | Some(value: T)

  /** Words under set bits are replaced in turn by the values that follow; None where the reader
      would run off the buffer or the words. */
  function Patch(w: Rex, bm: seq<u8>, i: nat, data: seq<u8>): Option<(Rex, seq<u8>)>
    requires i <= 8 * |bm|
    decreases 8 * |bm| - i
  {
    if i == 8 * |bm| then Some((w, data))
    else if !BitAt(bm[i / 8], i % 8) then Patch(w, bm, i + 1, data)
    else if i >= REX_WORDS || |data| < 4 then None
    else Patch(w[i := Load32(data[..4])], bm, i + 1, data[4..])
  }

  /** One packet: the state it gives and the rest of the file. */
  function Unpack(w: Rex, snap: Snap, file: seq<u8>): Option<(Rex, Snap, seq<u8>)> {
    if |file| < 2 + BITMAP then None
    else
      match Patch(w, file[2..2 + BITMAP], 0, file[2 + BITMAP..])
      case None => None
      case Some((w, rest)) =>
        if file[1] % 2 == 0 then Some((w, snap, rest))
        else if |rest| < SNAP_BYTES then None
        else Some((w, LoadSnap(rest[..SNAP_BYTES]), rest[SNAP_BYTES..]))
  }

  lemma BitmapBit(last: Rex, w: Rex, i: nat)
    requires i < REX_WORDS
    ensures BitAt(Bitmap(last, w)[i / 8], i % 8) <==> Dirty(last, w, i)
  {
    hide BitAt, DirtyBits, Dirty;
    DirtyBitAt(last, w, 8 * (i / 8), 8, i % 8);
    assert Bitmap(last, w)[i / 8] == DirtyByte(last, w, i / 8);
  }

  lemma ValuesHead(last: Rex, w: Rex, i: nat, rest: seq<u8>)
    requires i < REX_WORDS
    ensures var (data, more) := (Values(last, w, i) + rest, Values(last, w, i + 1) + rest);
      if Dirty(last, w, i) then |data| >= 4 && Load32(data[..4]) == w[i] && data[4..] == more else data == more
  {
    hide Little, Load32, Dirty;
    var (data, more) := (Values(last, w, i) + rest, Values(last, w, i + 1) + rest);
    if Dirty(last, w, i) {
      var word := Little(w[i], 4);
      assert data == word + more;
      assert data[..4] == word;
      WordRoundTrip(w[i]);
    }
  }

  /** One bit of the bitmap, and the word it stands for. */
  lemma PatchStep(last: Rex, w: Rex, cur: Rex, i: nat, rest: seq<u8>)
    requires i < REX_WORDS
    ensures Patch(cur, Bitmap(last, w), i, Values(last, w, i) + rest)
         == Patch(if Dirty(last, w, i) then cur[i := w[i]] else cur, Bitmap(last, w), i + 1, Values(last, w, i + 1) + rest)
  {
    hide Load32, BitAt, Bitmap, Dirty, Values;
    BitmapBit(last, w, i);
    ValuesHead(last, w, i, rest);
  }

  lemma {:induction false} PatchesBack(last: Rex, w: Rex, cur: Rex, i: nat, rest: seq<u8>)
    requires i <= REX_WORDS
    requires forall k :: 0 <= k < REX_WORDS ==> cur[k] == if k < i then w[k] else last[k]
    ensures Patch(cur, Bitmap(last, w), i, Values(last, w, i) + rest) == Some((w, rest))
    decreases REX_WORDS - i
  {
    hide Bitmap;
    if i == REX_WORDS {
      assert cur == w && Values(last, w, i) + rest == rest;
    } else {
      hide Patch, Values;
      PatchStep(last, w, cur, i, rest);
      PatchesBack(last, w, if Dirty(last, w, i) then cur[i := w[i]] else cur, i + 1, rest);
    }
  }

  /** A reader in the state the writer last saw gets the exact state the writer saw next. */
  lemma UnpacksBack(last: Rex, lastSnap: Snap, w: Rex, snap: Snap, rest: seq<u8>)
    ensures Unpack(last, lastSnap, Packet(last, lastSnap, w, snap) + rest) == Some((w, snap, rest))
  {
    hide Bitmap, Values, Patch, SnapBytes, LoadSnap;
    var changed := snap != lastSnap;
    var (p, tail) := (Packet(last, lastSnap, w, snap), (if changed then SnapBytes(snap) else []) + rest);
    var file := p + rest;
    assert file[2..2 + BITMAP] == Bitmap(last, w);
    assert file[2 + BITMAP..] == Values(last, w, 0) + tail;
    assert file[1] == if changed then 1 else 0;
    PatchesBack(last, w, last, 0, tail);
    if changed {
      SnapRoundTrip(snap);
      assert tail[..SNAP_BYTES] == SnapBytes(snap) && tail[SNAP_BYTES..] == rest;
    } else {
      assert tail == rest;
    }
  }

  // ---- whole traces ----

  /** Register state, RB2 state and framebuffers. */
  datatype Board<F> = Board(rex: Rex, snap: Snap, fb: F)

  /** One traced access: the register state it leaves, and whether it then starts a command. */
  datatype Access = Access(rex: Rex, snap: Snap, go: bool)

  function Decoded<F>(b: Board<F>, a: Access): Board<F> {
    Board(a.rex, a.snap, b.fb)
  }

  /** What np_pack writes for a trace, `last` being the state after the last command. */
  function Record<F>(b: Board<F>, last: Board<F>, trace: seq<Access>, go: Board<F> -> Board<F>): seq<u8>
    decreases |trace|
  {
    if trace == [] then []
    else
      var s := Decoded(b, trace[0]);
      if !trace[0].go then Record(s, last, trace[1..], go)
      else Packet(last.rex, last.snap, s.rex, s.snap) + Record(go(s), go(s), trace[1..], go)
  }

  /** The state at the start of every command of the trace. */
  function Starts<F>(b: Board<F>, trace: seq<Access>, go: Board<F> -> Board<F>): seq<Board<F>>
    decreases |trace|
  {
    if trace == [] then []
    else
      var s := Decoded(b, trace[0]);
      if !trace[0].go then Starts(s, trace[1..], go) else [s] + Starts(go(s), trace[1..], go)
  }

  /** np_packplay: n packets, with the state at the start of each command and after the last. */
  function Play<F>(b: Board<F>, file: seq<u8>, n: nat, go: Board<F> -> Board<F>): Option<(seq<Board<F>>, Board<F>)>
    decreases n
  {
    if n == 0 then Some(([], b))
    else
      match Unpack(b.rex, b.snap, file)
      case None => None
      case Some((rex, snap, rest)) =>
        var s := Board(rex, snap, b.fb);
        match Play(go(s), rest, n - 1, go)
        case None => None
        case Some((starts, end)) => Some(([s] + starts, end))
  }

  /** Playing a recording passes through the same state at the start of every command, framebuffers
      included, for any trace and whatever the commands do. */
  lemma {:induction false} PlaybackIsReplay<F>(b: Board<F>, last: Board<F>, trace: seq<Access>, go: Board<F> -> Board<F>)
    requires b.fb == last.fb
    ensures var starts := Starts(b, trace, go);
      && Play(last, Record(b, last, trace, go), |starts|, go) ==
        Some((starts, if starts == [] then last else go(starts[|starts| - 1])))
    decreases |trace|
  {
    hide Packet, Unpack;
    if trace != [] {
      var s := Decoded(b, trace[0]);
      if trace[0].go {
        var rest := Record(go(s), go(s), trace[1..], go);
        UnpacksBack(last.rex, last.snap, s.rex, s.snap, rest);
        PlaybackIsReplay(go(s), go(s), trace[1..], go);
        var more := Starts(go(s), trace[1..], go);
        assert Starts(b, trace, go) == [s] + more && ([s] + more)[1..] == more;
      } else {
        PlaybackIsReplay(s, last, trace[1..], go);
      }
    }
  }
}
