/** The packet format byte by byte, as another reader of the file would take it apart. */
module NpLayout {
  import opened Words
  import opened Bitwise
  import opened ByteOrder
  import opened NpPacket

  /** Four bytes, least significant first. */
  function LittleEndian(s: seq<u8>, at: nat): int
    requires at + 4 <= |s|
  {
    BigEndian(s[at + 3], s[at + 2], s[at + 1], s[at])
  }

  lemma LittleFour(x: u32)
    ensures LittleEndian(Little(x, 4), 0) == x
  {
    var s := Little(x, 4);
    LittleBytes(x);
    var a, b, c := x / 256, x / 256 / 256, x / 256 / 256 / 256;
    assert x == 256 * a + x % 256 && a == 256 * b + a % 256 && b == 256 * c + b % 256;
  }

  lemma LittleBytes(x: u32)
    ensures var (s, a, b, c) := (Little(x, 4), x / 256, x / 256 / 256, x / 256 / 256 / 256);
      s[0] == x % 256 && s[1] == a % 256 && s[2] == b % 256 && s[3] == c && c < 256
  {
    var t := Little(x / 256, 3);
    assert t[0] == x / 256 % 256;
    assert t[1..] == Little(x / 256 / 256, 2);
    assert Little(x / 256 / 256, 2) == [x / 256 / 256 % 256, x / 256 / 256 / 256 % 256];
  }

  /** Words below i that differ. */
  function Below(last: Rex, w: Rex, i: nat): nat
    requires i <= REX_WORDS
  {
    if i == 0 then 0 else Below(last, w, i - 1) + if w[i - 1] != last[i - 1] then 1 else 0
  }

  lemma OneBelow(last: Rex, w: Rex, k: nat)
    requires k < REX_WORDS
    ensures Below(last, w, k + 1) == Below(last, w, k) + if Dirty(last, w, k) then 1 else 0
    ensures Values(last, w, k) == (if Dirty(last, w, k) then Little(w[k], 4) else []) + Values(last, w, k + 1)
  {
  }

  lemma SliceAfter(head: seq<u8>, tail: seq<u8>, at: nat)
    requires at + 4 <= |tail|
    ensures (head + tail)[|head| + at..|head| + at + 4] == tail[at..at + 4]
  {
  }

  /** The values stand in word order, four bytes each. */
  lemma {:induction false} ValueAt(last: Rex, w: Rex, k: nat, i: nat)
    requires k <= i < REX_WORDS && w[i] != last[i]
    ensures var (v, at) := (Values(last, w, k), 4 * (Below(last, w, i) - Below(last, w, k)));
      0 <= at && at + 4 <= |v| && v[at..at + 4] == Little(w[i], 4)
    decreases i - k
  {
    hide Little, Below, Values;
    OneBelow(last, w, k);
    if k < i {
      ValueAt(last, w, k + 1, i);
      SliceAfter(if Dirty(last, w, k) then Little(w[k], 4) else [], Values(last, w, k + 1),
                 4 * (Below(last, w, i) - Below(last, w, k + 1)));
    }
  }

  lemma {:induction false} ValuesLength(last: Rex, w: Rex, k: nat)
    requires k <= REX_WORDS
    ensures |Values(last, w, k)| == 4 * (Below(last, w, REX_WORDS) - Below(last, w, k))
    decreases REX_WORDS - k
  {
    if k < REX_WORDS {
      ValuesLength(last, w, k + 1);
    }
  }

  /** Opcode and address mode in the first byte; whether the RB2 state follows in the second; then ten
      bytes with a bit for each word that changed, low bit first; then the changed words in order, least
      significant byte first; then the RB2 state if it changed. */
  lemma PacketBytes(last: Rex, lastSnap: Snap, w: Rex, snap: Snap, i: nat, high: nat, adr: nat, op: nat)
    requires i < REX_WORDS && w[0] == high * 32 + adr * 4 + op && adr < 8 && op < 4
    ensures var p := Packet(last, lastSnap, w, snap);
      var (n, at) := (12 + 4 * Below(last, w, 80), 12 + 4 * Below(last, w, i));
      && |p| == n + (if snap != lastSnap then 16 else 0)
      && p[0] == adr * 4 + op && p[1] == (if snap != lastSnap then 1 else 0)
      && (BitAt(p[2 + i / 8], i % 8) <==> w[i] != last[i])
      && (w[i] != last[i] ==> at + 4 <= n && LittleEndian(p, at) == w[i])
      && (snap != lastSnap ==> p[n..] == SnapBytes(snap))
  {
    hide BitAt, Bitmap, Values, SnapBytes, Little, Below, Opcode;
    var p, v := Packet(last, lastSnap, w, snap), Values(last, w, 0);
    OpcodeByte(w[0], high, adr, op);
    NoneBelow(last, w);
    ValuesLength(last, w, 0);
    BitmapBit(last, w, i);
    PacketParts(last, lastSnap, w, snap);
    assert p[2 + i / 8] == p[2..12][i / 8];
    if w[i] != last[i] {
      ValueAt(last, w, 0, i);
      var at := 4 * Below(last, w, i);
      SliceOfSlice(p, 12, |v|, at);
      SliceWord(p, 12 + at, w[i]);
    }
  }

  lemma PacketParts(last: Rex, lastSnap: Snap, w: Rex, snap: Snap)
    ensures var (p, v) := (Packet(last, lastSnap, w, snap), Values(last, w, 0));
      && |p| >= 12 + |v| && p[2..12] == Bitmap(last, w) && p[12..12 + |v|] == v
      && (snap != lastSnap ==> p[12 + |v|..] == SnapBytes(snap))
  {
    hide Bitmap, Values, SnapBytes, Opcode;
    FourParts([Opcode(w[0]), if snap != lastSnap then 1 else 0], Bitmap(last, w), Values(last, w, 0),
              if snap != lastSnap then SnapBytes(snap) else []);
  }

  lemma FourParts(a: seq<u8>, b: seq<u8>, c: seq<u8>, d: seq<u8>)
    ensures var (p, m, n) := (a + b + c + d, |a| + |b|, |a| + |b| + |c|);
      p[|a|..m] == b && p[m..n] == c && p[n..] == d
  {
    var p := a + b + c + d;
    assert p == a + b + (c + d) && p == (a + b) + c + d;
    Middle(a, b, c + d);
    Middle(a + b, c, d);
  }

  lemma Middle(x: seq<u8>, y: seq<u8>, z: seq<u8>)
    ensures (x + y + z)[|x|..|x| + |y|] == y && (x + y + z)[|x| + |y|..] == z
  {
  }

  lemma SliceOfSlice(p: seq<u8>, from: nat, n: nat, at: nat)
    requires from + n <= |p| && at + 4 <= n
    ensures p[from..from + n][at..at + 4] == p[from + at..from + at + 4]
  {
    var s, t, u := p[from..from + n], p[from..from + n][at..at + 4], p[from + at..from + at + 4];
    forall i | 0 <= i < 4 ensures t[i] == u[i] {
      assert t[i] == s[at + i];
    }
  }

  lemma NoneBelow(last: Rex, w: Rex)
    ensures Below(last, w, 0) == 0
  {
  }

  lemma SliceWord(p: seq<u8>, at: nat, x: u32)
    requires at + 4 <= |p| && p[at..at + 4] == Little(x, 4)
    ensures LittleEndian(p, at) == x
  {
    LittleFour(x);
    var s := p[at..at + 4];
    assert p[at] == s[0] && p[at + 1] == s[1] && p[at + 2] == s[2] && p[at + 3] == s[3];
  }

  lemma OpcodeByte(x: u32, high: nat, adr: nat, op: nat)
    requires x == high * 32 + adr * 4 + op && adr < 8 && op < 4
    ensures Opcode(x) == adr * 4 + op
  {
    QuotientUnique(x, 4, high * 8 + adr, op);
    QuotientUnique(high * 8 + adr, 8, high, adr);
  }

  /** The RB2 state: both masks, least significant byte first, and eight single bytes. */
  lemma SnapLayout(s: Snap)
    ensures var b := SnapBytes(s);
      && LittleEndian(b, 0) == s.globalMask && LittleEndian(b, 4) == s.writeMask
      && b[8..] == [s.blend, s.fastClear, s.planeEnable, s.drawDepth, s.logicop, s.srcShift, s.destAux, s.pad]
  {
    hide Little;
    var b := SnapBytes(s);
    assert b[0..4] == Little(s.globalMask, 4) && b[4..8] == Little(s.writeMask, 4);
    SliceWord(b, 0, s.globalMask);
    SliceWord(b, 4, s.writeMask);
  }
}
