/** Screen-to-screen copies onto their own unread part: where the copy in place and the copy from a
    snapshot part ways. */
module NewportOverlap {
  import opened Words
  import opened PixelOps
  import opened Newport
  import opened NewportCopy

  /** Bit n of a written pixel reads back. */
  ghost predicate Carries(rb: Rb, n: nat) {
    n < 32 && forall word: Bits, v: Bits :: RbRead(rb, RbWrite(rb, word, v))[n] == v[n]
  }

  /** A plain copy carries every enabled bit: op 3, no plane or source shift. */
  lemma PlainCarries(rb: Rb, n: nat)
    requires n < 32 && !rb.blend && !rb.fastClear && rb.logicop == 3 && rb.srcShift == 0
    requires rb.drawDepth == 3 && rb.planeEnable != 4 && rb.planeEnable != 5 && rb.writeMask[n] && rb.globalMask[n]
    ensures Carries(rb, n)
  {
  }

  function SrcX(b: Block, k: int): int { Along(b.x, b.left, k) }
  function SrcY(b: Block, j: int): int { Along(b.y, b.up, j) }

  predicate Inside(b: Block, j: int, k: int) {
    0 <= j < b.h && 0 <= k < b.w
  }

  /** Every source pixel is in the frame and every image passes the clip. */
  ghost predicate OnScreen(c: Regs, b: Block)
    requires ValidRegs(c)
  {
    forall j, k :: Inside(b, j, k) ==>
      && 0 <= SrcX(b, k) + c.xWindow - 0x1000 < FB_W && 0 <= SrcY(b, j) + c.yWindow - 0x1000 < FB_H
      && ClipPass(c, SrcX(b, k) + c.xMove, SrcY(b, j) + c.yMove)
  }

  /** The board with rows before j and k pixels of row j copied, in place if `live`, from s otherwise. */
  function After(c: Regs, g: Gfx, s: seq<Bits>, b: Block, live: bool, j: nat, k: nat): (r: Gfx)
    requires ValidGfx(c, g) && |s| == FB_W * FB_H
    ensures ValidGfx(c, r)
  {
    if live then CopyRow(c, CopyRows(c, g, b, j), b.x, SrcY(b, j), b.left, k)
    else SnapRow(c, SnapRows(c, g, s, b, j), s, b.x, SrcY(b, j), b.left, k)
  }

  /** Pixel k of row j comes before pixel i of row r. */
  predicate Before(j: int, k: int, r: int, i: int) {
    j < r || (j == r && k < i)
  }

  lemma Placed(c: Regs, b: Block, j: nat, k: nat)
    requires NoWrap(c, b) && Inside(b, j, k)
    ensures var (x, y) := (SrcX(b, k) + c.xMove, SrcY(b, j) + c.yMove);
      && x == ToI16(x) && y == ToI16(y)
      && WindowX(c, x) == x + c.xWindow - 0x1000 && WindowY(c, y) == y + c.yWindow - 0x1000
  {
    hide ToI16, Fits, Along;
    FitsI16(b.x, b.left, b.w, c.xMove, c.xWindow);
    FitsI16(b.y, b.up, b.h, c.yMove, c.yWindow);
  }

  /** A copied pixel's carried bit arrives at its image. */
  lemma PutArrives(c: Regs, h: Gfx, s: seq<Bits>, b: Block, j: nat, k: nat, n: nat)
    requires ValidGfx(c, h) && |s| == FB_W * FB_H && NoWrap(c, b) && OnScreen(c, b) && Carries(c.rb, n) && Inside(b, j, k)
    ensures var (x, y) := (SrcX(b, k), SrcY(b, j));
      ReadAt(c, PutPixel(c, h, s, x, y).fb, x + c.xMove, y + c.yMove)[n] == ReadAt(c, s, x, y)[n]
  {
    hide RbRead, RbWrite, ToI16, NoWrap, ToBits, ValidShift, Along;
    Placed(c, b, j, k);
  }

  /** A place that no pixel in between is copied to keeps its value. */
  lemma {:induction false} KeptBetween(c: Regs, g: Gfx, s: seq<Bits>, b: Block, live: bool, j: nat, k: nat, r: nat, i: nat, px: int, py: int)
    requires ValidGfx(c, g) && |s| == FB_W * FB_H && NoWrap(c, b) && k <= b.w && i <= b.w && r < b.h
    requires (j == r && k == i) || Before(j, k, r, i)
    requires forall j2, k2 | Inside(b, j2, k2) && !Before(j2, k2, j, k) && Before(j2, k2, r, i) ::
      px != SrcX(b, k2) + c.xMove || py != SrcY(b, j2) + c.yMove
    ensures ReadAt(c, After(c, g, s, b, live, r, i).fb, px, py) == ReadAt(c, After(c, g, s, b, live, j, k).fb, px, py)
    decreases r, i
  {
    hide PutPixel, ReadAt, NoWrap, ValidRegs, ValidShift, Along;
    if j == r && k == i {
    } else if i == 0 {
      KeptBetween(c, g, s, b, live, j, k, r - 1, b.w, px, py);
    } else {
      KeptBetween(c, g, s, b, live, j, k, r, i - 1, px, py);
      var h := After(c, g, s, b, live, r, i - 1);
      Placed(c, b, r, i - 1);
      PutElsewhere(c, h, if live then h.fb else s, SrcX(b, i - 1), SrcY(b, r), px, py);
    }
  }

  lemma Images(c: Regs, b: Block, j: int, k: int, r: int, i: int)
    ensures SrcX(b, k) + c.xMove == SrcX(b, i) + c.xMove && SrcY(b, j) + c.yMove == SrcY(b, r) + c.yMove <==> j == r && k == i
  {
  }

  /** What the image of a pixel holds in the end is what was read for it. */
  lemma Arrives(c: Regs, g: Gfx, s: seq<Bits>, b: Block, live: bool, r: nat, i: nat, n: nat)
    requires ValidGfx(c, g) && |s| == FB_W * FB_H && NoWrap(c, b) && OnScreen(c, b) && Carries(c.rb, n) && Inside(b, r, i)
    ensures var read := if live then After(c, g, s, b, live, r, i).fb else s;
      ReadAt(c, After(c, g, s, b, live, b.h - 1, b.w).fb, SrcX(b, i) + c.xMove, SrcY(b, r) + c.yMove)[n]
      == ReadAt(c, read, SrcX(b, i), SrcY(b, r))[n]
  {
    hide PutPixel, ReadAt, NoWrap, OnScreen, Carries, ValidRegs, ValidShift, Along;
    var h := After(c, g, s, b, live, r, i);
    PutArrives(c, h, if live then h.fb else s, b, r, i, n);
    forall j, k | Inside(b, j, k) && !Before(j, k, r, i + 1) && Before(j, k, b.h - 1, b.w)
      ensures SrcX(b, i) + c.xMove != SrcX(b, k) + c.xMove || SrcY(b, r) + c.yMove != SrcY(b, j) + c.yMove
    {
      Images(c, b, j, k, r, i);
    }
    KeptBetween(c, g, s, b, live, r, i + 1, b.h - 1, b.w, SrcX(b, i) + c.xMove, SrcY(b, r) + c.yMove);
  }

  /** Words that read back with bit n set or clear. */
  function Shown(rb: Rb, n: nat, on: bool): Bits {
    RbWrite(rb, ToBits(0), seq(32, i => i == n && on))
  }

  function Place(c: Regs, x: int, y: int): int {
    (y + c.yWindow - 0x1000) * FB_W + x + c.xWindow - 0x1000
  }

  predicate InFrame(c: Regs, x: int, y: int) {
    0 <= x + c.xWindow - 0x1000 < FB_W && 0 <= y + c.yWindow - 0x1000 < FB_H
  }

  /** A black frame but for one dot. */
  function Dot(rb: Rb, a: int, n: nat): (fb: seq<Bits>)
    ensures |fb| == FB_W * FB_H
    ensures forall i :: 0 <= i < |fb| ==> fb[i] == Shown(rb, n, i == a)
  {
    seq<Bits>(FB_W * FB_H, i => Shown(rb, n, i == a))
  }

  lemma DotRead(c: Regs, x: int, y: int, px: int, py: int, n: nat)
    requires ValidRegs(c) && Carries(c.rb, n) && InFrame(c, x, y) && InFrame(c, px, py)
    ensures ReadAt(c, Dot(c.rb, Place(c, px, py), n), x, y)[n] == (x == px && y == py)
  {
    hide RbRead, RbWrite, Dot;
  }

  /** A pixel of the first row that nothing before it is copied to still shows at its image when a later
      pixel of the scan is read. */
  lemma ShowsLater(c: Regs, g: Gfx, b: Block, k: nat, r: nat, i: nat, n: nat)
    requires ValidGfx(c, g) && NoWrap(c, b) && OnScreen(c, b) && Carries(c.rb, n)
    requires Inside(b, 0, k) && Inside(b, r, i) && Before(0, k, r, i)
    requires forall k2 :: 0 <= k2 < k ==> SrcX(b, k) != SrcX(b, k2) + c.xMove || c.yMove != 0
    ensures ReadAt(c, After(c, g, g.fb, b, true, r, i).fb, SrcX(b, k) + c.xMove, SrcY(b, 0) + c.yMove)[n]
         == ReadAt(c, g.fb, SrcX(b, k), SrcY(b, 0))[n]
  {
    hide PutPixel, ReadAt, NoWrap, OnScreen, Carries, ValidRegs, ValidShift, Along;
    var x, y := SrcX(b, k), SrcY(b, 0);
    KeptBetween(c, g, g.fb, b, true, 0, 0, 0, k, x, y);
    var h := After(c, g, g.fb, b, true, 0, k);
    PutArrives(c, h, h.fb, b, 0, k, n);
    forall j2, k2 | Inside(b, j2, k2) && !Before(j2, k2, 0, k + 1) && Before(j2, k2, r, i)
      ensures x + c.xMove != SrcX(b, k2) + c.xMove || y + c.yMove != SrcY(b, j2) + c.yMove
    {
      Images(c, b, j2, k2, 0, k);
    }
    KeptBetween(c, g, g.fb, b, true, 0, k + 1, r, i, x + c.xMove, y + c.yMove);
  }

  lemma InFrameAt(c: Regs, b: Block, j: int, k: int)
    requires ValidRegs(c) && OnScreen(c, b) && Inside(b, j, k)
    ensures InFrame(c, SrcX(b, k), SrcY(b, j))
  {
  }

  /** An image ahead of the scan: a pixel that is read later has been overwritten by then, and a frame
      with one dot shows it. */
  lemma AheadSpoils(c: Regs, b: Block, n: nat) returns (g: Gfx)
    requires ValidRegs(c) && NoWrap(c, b) && OnScreen(c, b) && Carries(c.rb, n) && !Behind(c, b)
    ensures ValidGfx(c, g) && CopyRows(c, g, b, b.h).fb != SnapRows(c, g, g.fb, b, b.h).fb
  {
    hide Carries, OnScreen, ReadAt, PutPixel, ValidRegs, Dot, Fits, InFrame, Place;
    var mx, my: int := Along(0, b.left, c.xMove), Along(0, b.up, c.yMove);
    var k := Max(0, 0 - mx);
    var x, y := SrcX(b, k), SrcY(b, 0);
    var (r, i) := (my, k + mx);
    var fb := Dot(c.rb, Place(c, x, y), n);
    g := Gfx(Iter(0, 0, 0, 0, 0, 0), fb, 0);
    ShowsLater(c, g, b, k, r, i, n);
    Arrives(c, g, fb, b, true, r, i, n);
    Arrives(c, g, fb, b, false, r, i, n);
    InFrameAt(c, b, 0, k);
    InFrameAt(c, b, r, i);
    DotRead(c, x, y, x, y, n);
    DotRead(c, SrcX(b, i), SrcY(b, r), x, y, n);
  }

  /** scr2scr equals a copy from a snapshot, whatever the frame holds, exactly when the image does not
      lie ahead of the scan. */
  lemma SnapshotIff(c: Regs, b: Block, n: nat)
    requires ValidRegs(c) && NoWrap(c, b) && OnScreen(c, b) && Carries(c.rb, n)
    ensures I16(Along(b.x, b.left, b.w)) && I16(Along(b.y, b.up, b.h)) && I16(b.x) && I16(b.y)
    ensures Behind(c, b) <==> forall g :: ValidGfx(c, g) ==>
      Scan(c, BlockLimits(b), g, b.x, b.y).0 == SnapRows(c, g, g.fb, b, b.h)
  {
    hide Carries, OnScreen, ValidRegs, Scan, CopyRows, SnapRows, CopyRow, Behind;
    FitsI16(b.x, b.left, b.w, c.xMove, c.xWindow);
    FitsI16(b.y, b.up, b.h, c.yMove, c.yWindow);
    if Behind(c, b) {
      forall g | ValidGfx(c, g) ensures Scan(c, BlockLimits(b), g, b.x, b.y).0 == SnapRows(c, g, g.fb, b, b.h) {
        ScanIsSnapshot(c, g, b);
      }
    } else {
      var g := AheadSpoils(c, b, n);
      ScanIsCopy(c, g, b);
    }
  }

  lemma ScanIsCopy(c: Regs, g: Gfx, b: Block)
    requires ValidGfx(c, g) && NoWrap(c, b)
    ensures I16(Along(b.x, b.left, b.w)) && I16(Along(b.y, b.up, b.h)) && I16(b.x) && I16(b.y)
    ensures Scan(c, BlockLimits(b), g, b.x, b.y).0 == CopyRows(c, g, b, b.h)
  {
    hide Scan, PutPixel, ValidRegs, ValidShift;
    FitsI16(b.y, b.up, b.h, c.yMove, c.yWindow);
    ScanIsBlock(c, g, b, 0, 0);
  }
}
