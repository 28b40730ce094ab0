/** The image a screen-to-screen copy leaves, pixel by pixel, in screen coordinates. */
module NewportImage {
  import opened Words
  import opened PixelOps
  import opened Newport
  import opened NewportCopy
  import NewportShade

  /** Column i and line j of the block in scan order. */
  function Col(b: Block, i: int): int { if b.left then b.x - i else b.x + i }
  function Row(b: Block, j: int): int { if b.up then b.y - j else b.y + j }

  /** The image of that pixel is word a of the framebuffer. */
  predicate Lands(c: Regs, b: Block, i: int, j: int, a: nat)
    requires ValidRegs(c)
  {
    NewportShade.SpotIs(c, ToI16(Col(b, i) + c.xMove), ToI16(Row(b, j) + c.yMove), a)
  }

  lemma OneLands(c: Regs, b: Block, i: nat, j: nat, i2: nat, j2: nat, a: nat)
    requires ValidRegs(c) && NoWrap(c, b) && i < b.w && i2 < b.w && j < b.h && j2 < b.h
    requires Lands(c, b, i, j, a) && Lands(c, b, i2, j2, a)
    ensures i == i2 && j == j2
  {
    hide ValidRegs, ToI16, NewportShade.SpotIs;
    FitsI16(b.x, b.left, b.w, c.xMove, c.xWindow);
    FitsI16(b.y, b.up, b.h, c.yMove, c.yWindow);
    assert Along(b.x, b.left, i) == Col(b, i) && Along(b.x, b.left, i2) == Col(b, i2);
    assert Along(b.y, b.up, j) == Row(b, j) && Along(b.y, b.up, j2) == Row(b, j2);
    NewportShade.SpotsApart(c, ToI16(Col(b, i) + c.xMove), ToI16(Row(b, j) + c.yMove),
                            ToI16(Col(b, i2) + c.xMove), ToI16(Row(b, j2) + c.yMove), a);
  }

  lemma PutLands(c: Regs, g: Gfx, s: seq<Bits>, b: Block, i: nat, j: nat, a: nat)
    requires ValidGfx(c, g) && |s| == FB_W * FB_H && a < FB_W * FB_H
    ensures ValidRegs(c) && var (x, y) := (Along(b.x, b.left, i), Along(b.y, b.up, j));
      PutPixel(c, g, s, x, y).fb[a] == if Lands(c, b, i, j, a) then RbWrite(c.rb, g.fb[a], ReadAt(c, s, x, y)) else g.fb[a]
  {
    hide ReadAt, RbWrite, NewportShade.SpotIs, OutputPixel, ValidRegs, ValidShift;
    var (x, y) := (Along(b.x, b.left, i), Along(b.y, b.up, j));
    NewportShade.OutputAt(c, g, ToI16(x + c.xMove), ToI16(y + c.yMove), ReadAt(c, s, x, y), a);
  }

  /** The part of a copied row that one word shows. */
  lemma {:induction false} RowLands(c: Regs, g: Gfx, s: seq<Bits>, b: Block, j: nat, k: nat, a: nat)
    requires ValidGfx(c, g) && |s| == FB_W * FB_H && NoWrap(c, b) && j < b.h && k <= b.w && a < FB_W * FB_H
    ensures ValidRegs(c) && var (r, y) := (SnapRow(c, g, s, b.x, Along(b.y, b.up, j), b.left, k), Along(b.y, b.up, j));
      && |r.fb| == |g.fb| == FB_W * FB_H
      && (forall i :: 0 <= i < k && Lands(c, b, i, j, a) ==>
            r.fb[a] == RbWrite(c.rb, g.fb[a], ReadAt(c, s, Along(b.x, b.left, i), y)))
      && ((forall i :: 0 <= i < k ==> !Lands(c, b, i, j, a)) ==> r.fb[a] == g.fb[a])
  {
    hide ReadAt, RbWrite, Lands, PutPixel, ValidRegs, ValidShift, NoWrap, Along;
    Sized(c, g);
    if k > 0 {
      RowLands(c, g, s, b, j, k - 1, a);
      var h := SnapRow(c, g, s, b.x, Along(b.y, b.up, j), b.left, k - 1);
      PutLands(c, h, s, b, k - 1, j, a);
      Sized(c, PutPixel(c, h, s, Along(b.x, b.left, k - 1), Along(b.y, b.up, j)));
      forall i | 0 <= i < k - 1 && Lands(c, b, i, j, a) ensures !Lands(c, b, k - 1, j, a) {
        if Lands(c, b, k - 1, j, a) {
          OneLands(c, b, i, j, k - 1, j, a);
        }
      }
    }
  }

  lemma Sized(c: Regs, g: Gfx)
    requires ValidGfx(c, g)
    ensures ValidRegs(c) && |g.fb| == FB_W * FB_H
  {
    hide ValidShift;
  }

  lemma {:induction false} RowsLand(c: Regs, g: Gfx, s: seq<Bits>, b: Block, n: nat, a: nat)
    requires ValidGfx(c, g) && |s| == FB_W * FB_H && NoWrap(c, b) && n <= b.h && a < FB_W * FB_H
    ensures ValidRegs(c) && var r := SnapRows(c, g, s, b, n);
      && |r.fb| == |g.fb| == FB_W * FB_H
      && (forall i, j :: 0 <= i < b.w && 0 <= j < n && Lands(c, b, i, j, a) ==>
            r.fb[a] == RbWrite(c.rb, g.fb[a], ReadAt(c, s, Along(b.x, b.left, i), Along(b.y, b.up, j))))
      && ((forall i, j :: 0 <= i < b.w && 0 <= j < n ==> !Lands(c, b, i, j, a)) ==> r.fb[a] == g.fb[a])
  {
    hide ReadAt, RbWrite, Lands, SnapRow, ValidRegs, ValidShift, Along, Fits;
    Sized(c, g);
    if n > 0 {
      var m := n - 1;
      RowsLand(c, g, s, b, m, a);
      RowLands(c, SnapRows(c, g, s, b, m), s, b, m, b.w, a);
      forall i, j | 0 <= i < b.w && 0 <= j < m && Lands(c, b, i, j, a)
        ensures forall k :: 0 <= k < b.w ==> !Lands(c, b, k, m, a)
      {
        forall k | 0 <= k < b.w ensures !Lands(c, b, k, m, a) {
          if Lands(c, b, k, m, a) {
            OneLands(c, b, i, j, k, m, a);
          }
        }
      }
    }
  }

  /** The source pixel of a copy: what the frame holds there, above the source shift, or black. */
  function Source(c: Regs, s: seq<Bits>, x: int, y: int): Bits
    requires |s| == FB_W * FB_H
  {
    var (sx, sy) := (x + c.xWindow - 0x1000, y + c.yWindow - 0x1000);
    if 0 <= sx < 1344 && 0 <= sy < 1088 then
      seq(32, k requires 0 <= k < 32 => k + c.rb.srcShift < 32 && s[sy * 1344 + sx][k + c.rb.srcShift])
    else seq(32, _ => false)
  }

  lemma ZeroWord(n: nat)
    ensures LowBits(0, n) == seq(n, _ => false)
  {
    if n > 0 {
      ZeroWord(n - 1);
    }
  }

  lemma SourceIs(c: Regs, s: seq<Bits>, x: int, y: int)
    requires |s| == FB_W * FB_H
    ensures Source(c, s, x, y) == ReadAt(c, s, x, y)
  {
    ZeroWord(32);
  }

  /** The whole command, when the image lies behind: the pixel i columns and j lines into the block is
      written to its moved place if the clip lets it, with the source as the frame held it before the
      command. */
  lemma CopyLeaves(c: Regs, g: Gfx, b: Block, i: nat, j: nat)
    requires ValidGfx(c, g) && NoWrap(c, b) && Behind(c, b) && i < b.w && j < b.h
    ensures ValidRegs(c) && |g.fb| == FB_W * FB_H
    ensures I16(Along(b.x, b.left, b.w)) && I16(Along(b.y, b.up, b.h)) && I16(b.x) && I16(b.y)
    ensures var q := Scan(c, BlockLimits(b), g, b.x, b.y).0;
      var (x, y) := (Col(b, i), Row(b, j));
      var a := (y + c.yMove + c.yWindow - 0x1000) * 1344 + (x + c.xMove + c.xWindow - 0x1000);
      |q.fb| == FB_W * FB_H && (ClipPass(c, x + c.xMove, y + c.yMove) ==>
        0 <= a < FB_W * FB_H && q.fb[a] == RbWrite(c.rb, g.fb[a], Source(c, g.fb, x, y)))
  {
    hide ReadAt, RbWrite, SnapRows, ValidRegs, ValidShift, Scan, Behind, ClipPass, Source, NoWrap, Lands;
    Sized(c, g);
    ScanIsSnapshot(c, g, b);
    RowsLand(c, g, g.fb, b, b.h, 0);
    var (x, y) := (Col(b, i), Row(b, j));
    SourceIs(c, g.fb, x, y);
    assert Along(b.x, b.left, i) == x && Along(b.y, b.up, j) == y;
    if ClipPass(c, x + c.xMove, y + c.yMove) {
      ImageLands(c, b, i, j);
      RowsLand(c, g, g.fb, b, b.h, NewportShade.Spot(c, x + c.xMove, y + c.yMove));
    }
  }

  lemma ImageLands(c: Regs, b: Block, i: nat, j: nat)
    requires ValidRegs(c) && NoWrap(c, b) && i < b.w && j < b.h
    ensures var (x, y) := (Col(b, i) + c.xMove, Row(b, j) + c.yMove);
      ClipPass(c, x, y) ==>
        Lands(c, b, i, j, NewportShade.Spot(c, x, y)) &&
        NewportShade.Spot(c, x, y) == (y + c.yWindow - 0x1000) * 1344 + (x + c.xWindow - 0x1000)
  {
    hide ToI16, ValidRegs, ClipPass;
    FitsI16(b.x, b.left, b.w, c.xMove, c.xWindow);
    FitsI16(b.y, b.up, b.h, c.yMove, c.yWindow);
    assert Along(b.x, b.left, i) == Col(b, i) && Along(b.y, b.up, j) == Row(b, j);
  }

  /** And nothing else changes. */
  lemma CopyKeeps(c: Regs, g: Gfx, b: Block, a: nat)
    requires ValidGfx(c, g) && NoWrap(c, b) && Behind(c, b) && a < FB_W * FB_H
    ensures ValidRegs(c) && |g.fb| == FB_W * FB_H
    ensures I16(Along(b.x, b.left, b.w)) && I16(Along(b.y, b.up, b.h)) && I16(b.x) && I16(b.y)
    ensures var q := Scan(c, BlockLimits(b), g, b.x, b.y).0;
      |q.fb| == FB_W * FB_H &&
      ((forall i, j :: 0 <= i < b.w && 0 <= j < b.h ==> !Lands(c, b, i, j, a)) ==> q.fb[a] == g.fb[a])
  {
    hide ReadAt, RbWrite, SnapRows, ValidRegs, ValidShift, Scan, Behind, Lands, NoWrap;
    Sized(c, g);
    ScanIsSnapshot(c, g, b);
    RowsLand(c, g, g.fb, b, b.h, a);
  }
}
