/** Framebuffer words as their 32 bits (bit 0 first), and how RB2 stores a pixel into one. */
module PixelOps {
  import opened Words

  /** RB2 control state. */
  datatype Rb = Rb(
    writeMask: Bits, globalMask: Bits, blend: bool, fastClear: bool,
    planeEnable: nat, drawDepth: nat, logicop: nat, srcShift: nat)

  /** The write mask the board applies never exceeds the 24 bits of a pixel: the global mask is
      0xff or 0xffffff for the life of the board. */
  predicate ValidRb(rb: Rb) {
    rb.logicop < 16 && forall i :: 24 <= i < 32 ==> !rb.globalMask[i]
  }

  function Shl(w: Bits, n: nat): Bits {
    seq(32, i requires 0 <= i < 32 => i >= n && w[i - n])
  }

  function Shr(w: Bits, n: nat): Bits {
    seq(32, i requires 0 <= i < 32 => i + n < 32 && w[i + n])
  }

  function Or(a: Bits, b: Bits): Bits {
    seq(32, i requires 0 <= i < 32 => a[i] || b[i])
  }

  /** A pixel value copied into every lane of a framebuffer word. */
  function Replicate(rb: Rb, src: Bits): Bits {
    var v :=
      if rb.drawDepth == 0 then
        var a := Or(src, Shl(src, 4)); var a := Or(a, Shl(a, 8)); Or(a, Shl(a, 16))
      else if rb.drawDepth == 1 then
        var a := Or(src, Shl(src, 8)); Or(a, Shl(a, 16))
      else if rb.drawDepth == 2 then Or(src, Shl(src, 12))
      else src;
    if rb.planeEnable == 4 then Shl(v, 8) else if rb.planeEnable == 5 then Shl(v, 2) else v
  }

  /** rb_read: the stored bits above the source shift. */
  function RbRead(rb: Rb, word: Bits): Bits {
    Shr(word, rb.srcShift)
  }

  /** rb_store: merge under the write mask. */
  function Store(rb: Rb, word: Bits, v: Bits): Bits {
    seq(32, i requires 0 <= i < 32 => if rb.writeMask[i] && rb.globalMask[i] then v[i] else word[i])
  }

  /** Bit i of the 16-way switch of rb_write. */
  predicate LogicBit(op: nat, i: nat, s: bool, d: bool) {
    if op == 0 then false
    else if op == 1 then s && d
    else if op == 2 then s && !d
    else if op == 3 then s
    else if op == 4 then !s && d
    else if op == 5 then d
    else if op == 6 then s != d
    else if op == 7 then s || d
    else if op == 8 then !(s || d)
    else if op == 9 then s == d
    else if op == 10 then !d
    else if op == 11 then s || !d
    else if op == 12 then !s
    else if op == 13 then !s || d
    else if op == 14 then !(s && d)
    else i < 24
  }

  function LogicOp(op: nat, src: Bits, dst: Bits): Bits {
    seq(32, i requires 0 <= i < 32 => LogicBit(op, i, src[i], dst[i]))
  }

  /** rb_write: the framebuffer word after `src` is written over `word`. */
  function RbWrite(rb: Rb, word: Bits, src: Bits): Bits {
    var v := Replicate(rb, src);
    if rb.blend || rb.fastClear then Store(rb, word, v)
    else Store(rb, word, LogicOp(rb.logicop, v, RbRead(rb, word)))
  }

  /** The span kernel's logic op: bits 0..3 of the op select the four bit combinations. */
  function TableOp(op: nat, v: Bits, d: Bits): Bits {
    var t0, t1, t2, t3 := op % 2 == 1, op / 2 % 2 == 1, op / 4 % 2 == 1, op / 8 % 2 == 1;
    seq(32, i requires 0 <= i < 32 =>
      (v[i] && d[i] && t0) || (v[i] && !d[i] && t1) || (!v[i] && d[i] && t2) || (!v[i] && !d[i] && t3))
  }

  function SpanWrite(rb: Rb, word: Bits, color: Bits): Bits {
    var v := Replicate(rb, color);
    Store(rb, word, if rb.blend || rb.fastClear then v else TableOp(rb.logicop, v, RbRead(rb, word)))
  }

  /** The switch and the table give the same bit, except above bit 23 under op 15. */
  lemma TableBitAgrees(op: nat, v: Bits, d: Bits, i: nat)
    requires op < 16 && i < 32
    ensures TableOp(op, v, d)[i] == LogicOp(op, v, d)[i] <==> op != 15 || i < 24
  {
  }

  /** Under a write mask of at most 24 bits the span kernel writes the word rb_write writes. */
  lemma SpanWriteAgrees(rb: Rb, word: Bits, color: Bits)
    requires ValidRb(rb)
    ensures SpanWrite(rb, word, color) == RbWrite(rb, word, color)
  {
    hide Replicate, RbRead, TableOp, LogicOp;
    var v, d := Replicate(rb, color), RbRead(rb, word);
    forall i | 0 <= i < 32 ensures SpanWrite(rb, word, color)[i] == RbWrite(rb, word, color)[i] {
      TableBitAgrees(rb.logicop, v, d, i);
    }
  }
}
