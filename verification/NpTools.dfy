/** The packet writer and the packet player as they run: bit loops over the dirty bitmap, words
    patched in place. */
module NpTools {
  import opened Words
  import opened Bitwise
  import opened ByteOrder
  import opened NpPacket

  /** Bits below i say which words differ; bits from i on are clear. */
  ghost predicate Marked(bm: seq<u8>, last: Rex, w: Rex, i: nat)
    requires |bm| == BITMAP
  {
    forall j, k: nat :: 0 <= j < BITMAP ==> (BitAt(bm[j], k) <==> k < 8 && 8 * j + k < i && Dirty(last, w, 8 * j + k))
  }

  lemma NothingMarked(bm: seq<u8>, last: Rex, w: Rex)
    requires |bm| == BITMAP && forall j :: 0 <= j < BITMAP ==> bm[j] == 0
    ensures Marked(bm, last, w, 0)
  {
    forall j, k: nat | 0 <= j < BITMAP ensures !BitAt(bm[j], k) {
      ZeroBits(k);
    }
  }

  lemma MarksNext(was: seq<u8>, bm: seq<u8>, last: Rex, w: Rex, i: nat)
    requires |was| == |bm| == BITMAP && i < REX_WORDS && Marked(was, last, w, i)
    requires forall j, k: nat :: 0 <= j < BITMAP ==>
      (BitAt(bm[j], k) <==> BitAt(was[j], k) || (Dirty(last, w, i) && j == i / 8 && k == i % 8))
    ensures Marked(bm, last, w, i + 1)
  {
    hide BitAt, Dirty;
  }

  lemma AllMarked(bm: seq<u8>, last: Rex, w: Rex)
    requires |bm| == BITMAP && Marked(bm, last, w, REX_WORDS)
    ensures bm == Bitmap(last, w)
  {
    hide BitAt, DirtyBits;
    forall j | 0 <= j < BITMAP ensures bm[j] == DirtyByte(last, w, j) {
      forall k: nat ensures BitAt(bm[j], k) <==> BitAt(DirtyByte(last, w, j), k) {
        DirtyBitAt(last, w, 8 * j, 8, k);
      }
      SameBits(bm[j], DirtyByte(last, w, j));
    }
  }

  lemma ValuesStep(last: Rex, w: Rex, i: nat, vals: seq<u8>)
    requires i < REX_WORDS
    ensures (if w[i] != last[i] then vals + Little(w[i], 4) else vals) + Values(last, w, i + 1) == vals + Values(last, w, i)
  {
    hide Little;
  }

  lemma ValuesEnd(last: Rex, w: Rex, vals: seq<u8>)
    ensures vals + Values(last, w, REX_WORDS) == vals
  {
  }

  /** np_pack: the state after the last command, and the packets written so far. */
  class Packer {
    const last: array<u32>
    var lastSnap: Snap
    var pkt: seq<u8>

    ghost predicate Valid() {
      last.Length == REX_WORDS
    }

    constructor (rex: Rex, snap: Snap)
      ensures Valid() && fresh(last) && last[..] == rex && lastSnap == snap && pkt == []
    {
      last := new u32[REX_WORDS](i requires 0 <= i < REX_WORDS => rex[i]);
      lastSnap, pkt := snap, [];
      new;
      assert last[..] == rex;
    }

    /** Word by word, the dirty bits and the dirty values. */
    method Diff(w: array<u32>, bm: array<u8>) returns (vals: seq<u8>)
      requires Valid() && w.Length == REX_WORDS && bm.Length == BITMAP
      requires forall j :: 0 <= j < BITMAP ==> bm[j] == 0
      modifies bm
      ensures bm[..] == Bitmap(last[..], w[..]) && vals == Values(last[..], w[..], 0)
    {
      hide Little, Marked, Bitmap, Values, BitAt;
      ghost var (a, b) := (last[..], w[..]);
      vals := [];
      var i := 0;
      assert vals + Values(a, b, 0) == Values(a, b, 0);
      NothingMarked(bm[..], a, b);
      while i < REX_WORDS
        modifies bm
        invariant 0 <= i <= REX_WORDS && vals + Values(a, b, i) == Values(a, b, 0)
        invariant Marked(bm[..], a, b, i)
      {
        ghost var was := bm[..];
        ValuesStep(a, b, i, vals);
        if w[i] != last[i] {
          SetBit(bm, i);
          vals := vals + Little(w[i], 4);
        }
        MarksNext(was, bm[..], a, b, i);
        i := i + 1;
      }
      AllMarked(bm[..], a, b);
      ValuesEnd(a, b, vals);
    }

    method SetBit(bm: array<u8>, i: nat)
      requires bm.Length == BITMAP && i < 8 * BITMAP
      modifies bm
      ensures forall j, k: nat :: 0 <= j < BITMAP ==> (BitAt(bm[j], k) <==> old(BitAt(bm[j], k)) || (j == i / 8 && k == i % 8))
    {
      var v: nat := bm[i / 8];
      assert Pow2(8) == 256;
      Pow2Grows(i % 8, 8);
      OrBound(v, Pow2(i % 8), 8);
      bm[i / 8] := Or(v, Pow2(i % 8));
      forall k: nat ensures BitAt(bm[i / 8], k) <==> BitAt(v, k) || k == i % 8 {
        OrBits(v, Pow2(i % 8), k);
        Pow2Bits(i % 8, k);
      }
    }

    /** on_go. */
    method OnGo(w: array<u32>, snap: Snap)
      requires Valid() && w.Length == REX_WORDS
      modifies this`pkt
      ensures pkt == old(pkt) + Packet(last[..], lastSnap, w[..], snap)
    {
      hide Bitmap, Values, SnapBytes, Opcode;
      var bm := new u8[BITMAP](_ => 0);
      var vals := Diff(w, bm);
      var changed := snap != lastSnap;
      pkt := pkt + ([Opcode(w[0]), if changed then 1 else 0] + bm[..] + vals + if changed then SnapBytes(snap) else []);
    }

    /** A command has run: its end state is what the next packet is a difference from. */
    method Track(w: array<u32>, snap: Snap)
      requires Valid() && w.Length == REX_WORDS
      modifies this`lastSnap, last
      ensures last[..] == old(w[..]) && lastSnap == snap
    {
      forall i | 0 <= i < REX_WORDS {
        last[i] := w[i];
      }
      lastSnap := snap;
    }
  }

  /** np_packplay: the register words, the RB2 state and the read pointer. */
  class Player {
    const rw: array<u32>
    var snap: Snap
    const buf: seq<u8>
    var p: nat

    ghost predicate Valid()
      reads this
    {
      rw.Length == REX_WORDS && p <= |buf|
    }

    constructor (rex: Rex, rb: Snap, packets: seq<u8>)
      ensures Valid() && fresh(rw) && rw[..] == rex && snap == rb && buf == packets && p == 0
    {
      rw := new u32[REX_WORDS](i requires 0 <= i < REX_WORDS => rex[i]);
      snap, buf, p := rb, packets, 0;
      new;
      assert rw[..] == rex;
    }

    lemma SkipsClear(w: Rex, bm: seq<u8>, i: nat, j: nat, data: seq<u8>)
      requires i <= j <= 8 * |bm| && forall k :: i <= k < j ==> !BitAt(bm[k / 8], k % 8)
      ensures Patch(w, bm, i, data) == Patch(w, bm, j, data)
      decreases j - i
    {
      if i < j {
        SkipsClear(w, bm, i + 1, j, data);
      }
    }

    /** The set bits of one bitmap byte, lowest first. */
    method PatchByte(bm: seq<u8>, i: nat, v: nat) returns (next: nat)
      requires Valid() && i < |bm| && v <= |buf| && Patch(rw[..], bm, 8 * i, buf[v..]).Some?
      modifies rw
      ensures next <= |buf| && Patch(rw[..], bm, 8 * i + 8, buf[next..]) == Patch(old(rw[..]), bm, 8 * i, buf[v..])
    {
      hide And, Ctz, Patch, Load32, RestOf;
      next := v;
      var b: nat := bm[i];
      ghost var c := 0;
      RestStart(b);
      while b != 0
        invariant 0 <= c <= 8 && next <= |buf| && RestOf(b, bm[i], c)
        invariant Patch(rw[..], bm, 8 * i + c, buf[next..]) == Patch(old(rw[..]), bm, 8 * i, buf[v..])
      {
        var j := Ctz(b);
        RestNext(b, bm[i], c);
        SkipsTo(rw[..], bm, i, c, j, buf[next..]);
        b := And(b, b - 1);
        PatchStep(rw[..], bm, i, j, buf[next..]);
        rw[i * 8 + j] := Load32(buf[next..next + 4]);
        assert buf[next..][..4] == buf[next..next + 4] && buf[next..][4..] == buf[next + 4..];
        next := next + 4;
        c := j + 1;
      }
      RestEnd(bm[i], c);
      SkipsTo(rw[..], bm, i, c, 8, buf[next..]);
    }

    /** b has just the bits of x from bit c on. */
    static ghost predicate RestOf(b: nat, x: u8, c: nat) {
      forall k: nat :: BitAt(b, k) <==> BitAt(x, k) && k >= c
    }

    lemma RestStart(x: u8)
      ensures RestOf(x, x, 0)
    {
    }

    lemma RestNext(b: nat, x: u8, c: nat)
      requires b > 0 && RestOf(b, x, c)
      ensures var j := Ctz(b);
        && c <= j < 8 && BitAt(x, j) && (forall k: nat :: c <= k < j ==> !BitAt(x, k))
        && And(b, b - 1) < b && RestOf(And(b, b - 1), x, j + 1)
    {
      hide BitAt, And, Ctz;
      var j := Ctz(b);
      forall k: nat ensures BitAt(b, j) && (BitAt(b, k) ==> j <= k) {
        CtzIsLowest(b, k);
      }
      BitInByte(x, j);
      forall k: nat ensures And(b, b - 1) < b && (BitAt(And(b, b - 1), k) <==> BitAt(x, k) && k >= j + 1) {
        ClearsLowest(b, k);
      }
    }

    lemma RestEnd(x: u8, c: nat)
      requires RestOf(0, x, c)
      ensures forall k: nat :: c <= k ==> !BitAt(x, k)
    {
      hide BitAt;
      forall k: nat | c <= k ensures !BitAt(x, k) {
        ZeroBits(k);
      }
    }

    lemma BitInByte(x: u8, j: nat)
      requires BitAt(x, j)
      ensures j < 8
    {
      assert Pow2(8) == 256;
      if j >= 8 {
        HighBits(x, 8, j);
      }
    }

    lemma SkipsTo(w: Rex, bm: seq<u8>, i: nat, c: nat, j: nat, data: seq<u8>)
      requires i < |bm| && c <= j <= 8 && forall k: nat :: c <= k < j ==> !BitAt(bm[i], k)
      ensures Patch(w, bm, 8 * i + c, data) == Patch(w, bm, 8 * i + j, data)
    {
      hide BitAt, Patch;
      forall k | 8 * i + c <= k < 8 * i + j ensures !BitAt(bm[k / 8], k % 8) {
        assert k / 8 == i && k % 8 == k - 8 * i;
      }
      SkipsClear(w, bm, 8 * i + c, 8 * i + j, data);
    }

    lemma PatchStep(w: Rex, bm: seq<u8>, i: nat, j: nat, data: seq<u8>)
      requires i < |bm| && j < 8 && BitAt(bm[i], j) && Patch(w, bm, 8 * i + j, data).Some?
      ensures 8 * i + j < REX_WORDS && |data| >= 4
      ensures Patch(w, bm, 8 * i + j, data) == Patch(w[8 * i + j := Load32(data[..4])], bm, 8 * i + j + 1, data[4..])
    {
      hide BitAt, Load32;
      assert (8 * i + j) / 8 == i && (8 * i + j) % 8 == j;
    }

    /** The state at the start of the next command, where the packet is whole. */
    method Next()
      requires Valid() && Unpack(rw[..], snap, buf[p..]).Some?
      modifies this`p, this`snap, rw
      ensures Valid() && Unpack(old(rw[..]), old(snap), old(buf[p..])) == Some((rw[..], snap, buf[p..]))
    {
      hide BitAt, LoadSnap, Patch;
      ghost var file := buf[p..];
      var (flags, bm) := (buf[p + 1], buf[p + 2..p + 2 + BITMAP]);
      var v := p + 2 + BITMAP;
      assert file[2..2 + BITMAP] == bm && file[2 + BITMAP..] == buf[v..];
      var i := 0;
      while i < BITMAP
        modifies rw
        invariant 0 <= i <= BITMAP && 0 <= v <= |buf|
        invariant Patch(rw[..], bm, 8 * i, buf[v..]) == Patch(old(rw[..]), bm, 0, file[2 + BITMAP..])
      {
        v := PatchByte(bm, i, v);
        i := i + 1;
      }
      PatchDone(rw[..], bm, buf[v..]);
      p := v;
      if flags % 2 == 1 {
        assert buf[v..][..SNAP_BYTES] == buf[v..v + SNAP_BYTES] && buf[v..][SNAP_BYTES..] == buf[v + SNAP_BYTES..];
        snap := LoadSnap(buf[p..p + SNAP_BYTES]);
        p := p + SNAP_BYTES;
      }
    }

    lemma PatchDone(w: Rex, bm: seq<u8>, data: seq<u8>)
      requires |bm| == BITMAP
      ensures Patch(w, bm, 8 * BITMAP, data) == Some((w, data))
    {
    }
  }
}
