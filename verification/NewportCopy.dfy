/** Screen-to-screen copy: the pixel scan of scr2scr, and when it equals a copy from a snapshot. */
module NewportCopy {
  import opened Words
  import opened PixelOps
  import opened Newport

  /** The corner a scan starts from, its directions, and its extent. */
  datatype Block = Block(x: int, y: int, left: bool, up: bool, w: nat, h: nat)

  function Along(start: int, back: bool, i: int): int {
    if back then start - i else start + i
  }

  /** The source pixel at (x, y) of framebuffer s; black outside the frame. */
  function ReadAt(c: Regs, s: seq<Bits>, x: int, y: int): Bits
    requires |s| == FB_W * FB_H
  {
    var sx, sy := x + c.xWindow - 0x1000, y + c.yWindow - 0x1000;
    if 0 <= sx < FB_W && 0 <= sy < FB_H then RbRead(c.rb, s[sy * FB_W + sx]) else ToBits(0)
  }

  /** Copy one pixel of framebuffer s to the moved position. */
  function PutPixel(c: Regs, g: Gfx, s: seq<Bits>, x: int, y: int): (r: Gfx)
    requires ValidGfx(c, g) && |s| == FB_W * FB_H
    ensures ValidGfx(c, r)
  {
    OutputPixel(c, g, ToI16(x + c.xMove), ToI16(y + c.yMove), ReadAt(c, s, x, y))
  }

  // ---- the scan of the program ----

  /** How many unit steps in a direction reach the goal: at least one. */
  function StepsTo(x: int, goal: int, back: bool): (k: nat)
    ensures 1 <= k <= 0x10000
  {
    if back then Ahead(goal, x) else Ahead(x, goal)
  }

  lemma AheadCloser(x: i16, goal: i16)
    requires ToI16(x + 1) != goal
    ensures Ahead(ToI16(x + 1), goal) == Ahead(x, goal) - 1
  {
    if x < 0x7fff {
      assert ToI16(x + 1) == x + 1;
    } else {
      assert ToI16(x + 1) == -0x8000;
    }
  }

  lemma BehindCloser(x: i16, goal: i16)
    requires ToI16(x - 1) != goal
    ensures Ahead(goal, ToI16(x - 1)) == Ahead(goal, x) - 1
  {
    if -0x8000 < x {
      assert ToI16(x - 1) == x - 1;
    } else {
      assert ToI16(x - 1) == 0x7fff;
    }
  }

  lemma StepCloser(x: i16, goal: i16, back: bool)
    ensures var next := ToI16(Along(x, back, 1)); next != goal ==> StepsTo(next, goal, back) < StepsTo(x, goal, back)
  {
    hide ToI16, Ahead;
    if back && ToI16(x - 1) != goal {
      BehindCloser(x, goal);
    } else if !back && ToI16(x + 1) != goal {
      AheadCloser(x, goal);
    }
  }

  /** The limits of a scan: stop columns and rows, the column a new row starts in, stop bits. */
  datatype Limits = Limits(endX: i16, endY: i16, xSave: i16, left: bool, up: bool, stopX: bool, stopY: bool)

  /** Every pixel the two nested loops copy from (x, y) on, and where they leave the cursor. */
  function Scan(c: Regs, l: Limits, g: Gfx, x: i16, y: i16): (r: (Gfx, i16, i16))
    requires ValidGfx(c, g)
    ensures ValidGfx(c, r.0)
    decreases StepsTo(y, l.endY, l.up), StepsTo(x, l.endX, l.left), 0
  {
    StepCloser(x, l.endX, l.left);
    hide ToI16, StepsTo;
    var g := PutPixel(c, g, g.fb, x, y);
    var nx := ToI16(Along(x, l.left, 1));
    if nx != l.endX && l.stopX then Scan(c, l, g, nx, y) else RowEnd(c, l, g, nx, y)
  }

  /** The outer loop's test, after the inner loop left column x of row y. */
  function RowEnd(c: Regs, l: Limits, g: Gfx, x: i16, y: i16): (r: (Gfx, i16, i16))
    requires ValidGfx(c, g)
    ensures ValidGfx(c, r.0)
    decreases StepsTo(y, l.endY, l.up), if x == l.endX then 0 else StepsTo(x, l.endX, l.left), 1
  {
    StepCloser(y, l.endY, l.up);
    hide ToI16, StepsTo;
    var (nx, ny) := if x == l.endX then (l.xSave, ToI16(Along(y, l.up, 1))) else (x, y);
    if ny != l.endY && l.stopY then Scan(c, l, g, nx, ny) else (g, nx, ny)
  }

  // ---- the block copied, row by row, in place and from a snapshot ----

  function CopyRow(c: Regs, g: Gfx, x: int, y: int, left: bool, k: nat): (r: Gfx)
    requires ValidGfx(c, g)
    ensures ValidGfx(c, r)
  {
    if k == 0 then g
    else var h := CopyRow(c, g, x, y, left, k - 1); PutPixel(c, h, h.fb, Along(x, left, k - 1), y)
  }

  function CopyRows(c: Regs, g: Gfx, b: Block, j: nat): (r: Gfx)
    requires ValidGfx(c, g)
    ensures ValidGfx(c, r)
  {
    if j == 0 then g else CopyRow(c, CopyRows(c, g, b, j - 1), b.x, Along(b.y, b.up, j - 1), b.left, b.w)
  }

  function SnapRow(c: Regs, g: Gfx, s: seq<Bits>, x: int, y: int, left: bool, k: nat): (r: Gfx)
    requires ValidGfx(c, g) && |s| == FB_W * FB_H
    ensures ValidGfx(c, r)
  {
    if k == 0 then g else PutPixel(c, SnapRow(c, g, s, x, y, left, k - 1), s, Along(x, left, k - 1), y)
  }

  function SnapRows(c: Regs, g: Gfx, s: seq<Bits>, b: Block, j: nat): (r: Gfx)
    requires ValidGfx(c, g) && |s| == FB_W * FB_H
    ensures ValidGfx(c, r)
  {
    if j == 0 then g else SnapRow(c, SnapRows(c, g, s, b, j - 1), s, b.x, Along(b.y, b.up, j - 1), b.left, b.w)
  }

  /** n cursor values from `start`, the one after them, their moved images and the window
      coordinates of those all fit 16 bits. */
  predicate Fits(start: int, back: bool, n: nat, move: i16, window: i16) {
    var last, shift := Along(start, back, n - 1), move + window - 0x1000;
    && Along(start, back, n) == ToI16(Along(start, back, n)) && start == ToI16(start)
    && start + move == ToI16(start + move) && last + move == ToI16(last + move)
    && start + shift == ToI16(start + shift) && last + shift == ToI16(last + shift)
  }

  predicate NoWrap(c: Regs, b: Block) {
    b.w > 0 && b.h > 0 && Fits(b.x, b.left, b.w, c.xMove, c.xWindow) && Fits(b.y, b.up, b.h, c.yMove, c.yWindow)
  }

  /** Each destination pixel inside the source block comes no later in the scan than its source:
      the image is apart from the block, or lies behind it in scan order. */
  predicate Behind(c: Regs, b: Block) {
    var mx, my: int := Along(0, b.left, c.xMove), Along(0, b.up, c.yMove);
    mx <= 0 - b.w || mx >= b.w || my < 0 || my >= b.h || (my == 0 && mx <= 0)
  }

  // ---- the scan covers exactly the block ----

  function BlockLimits(b: Block): Limits
    requires I16(Along(b.x, b.left, b.w)) && I16(Along(b.y, b.up, b.h)) && I16(b.x)
  {
    Limits(Along(b.x, b.left, b.w), Along(b.y, b.up, b.h), b.x, b.left, b.up, true, true)
  }

  predicate I16(x: int) { -0x8000 <= x < 0x8000 }

  lemma CursorStep(start: int, back: bool, n: nat, k: nat)
    requires k < n && I16(start) && I16(Along(start, back, n))
    ensures I16(Along(start, back, k)) && I16(Along(start, back, k + 1))
    ensures ToI16(Along(Along(start, back, k), back, 1)) == Along(start, back, k + 1)
    ensures Along(start, back, k + 1) == Along(start, back, n) <==> k + 1 == n
  {
  }

  /** From pixel k of row j, with rows before j and k pixels of it copied, the scan finishes the block. */
  lemma {:induction false} ScanIsBlock(c: Regs, g: Gfx, b: Block, j: nat, k: nat)
    requires ValidGfx(c, g) && NoWrap(c, b) && j < b.h && k < b.w
    ensures I16(Along(b.x, b.left, b.w)) && I16(Along(b.y, b.up, b.h)) && I16(b.x)
    ensures I16(Along(b.x, b.left, k)) && I16(Along(b.y, b.up, j))
    ensures
      Scan(c, BlockLimits(b), CopyRow(c, CopyRows(c, g, b, j), b.x, Along(b.y, b.up, j), b.left, k),
        Along(b.x, b.left, k), Along(b.y, b.up, j)) == (CopyRows(c, g, b, b.h), b.x, Along(b.y, b.up, b.h))
    decreases b.h - j, b.w - k
  {
    hide PutPixel, ValidShift, ValidRegs, ToI16;
    FitsI16(b.x, b.left, b.w, c.xMove, c.xWindow);
    FitsI16(b.y, b.up, b.h, c.yMove, c.yWindow);
    CursorStep(b.x, b.left, b.w, k);
    CursorStep(b.y, b.up, b.h, j);
    if k + 1 < b.w {
      ScanIsBlock(c, g, b, j, k + 1);
    } else if j + 1 < b.h {
      ScanIsBlock(c, g, b, j + 1, 0);
    }
  }

  lemma FitsI16(start: int, back: bool, n: nat, move: i16, window: i16)
    requires Fits(start, back, n, move, window) && n > 0
    ensures I16(start) && I16(Along(start, back, n))
    ensures forall k :: 0 <= k < n ==>
      && I16(Along(start, back, k))
      && ToI16(Along(start, back, k) + move) == Along(start, back, k) + move
      && ToI16(Along(start, back, k) + move + window - 0x1000) == Along(start, back, k) + move + window - 0x1000
  {
  }

  // ---- overlap ----

  /** What the scan still has to read is what the snapshot holds: from pixel k of row j on. */
  ghost predicate Unread(c: Regs, h: Gfx, s: seq<Bits>, b: Block, j: int, k: int)
    requires |h.fb| == |s| == FB_W * FB_H
  {
    forall i, r | 0 <= i < b.w && 0 <= r < b.h && (r > j || (r == j && i >= k)) ::
      ReadAt(c, h.fb, Along(b.x, b.left, i), Along(b.y, b.up, r)) ==
      ReadAt(c, s, Along(b.x, b.left, i), Along(b.y, b.up, r))
  }

  /** Copying to (x, y) moved changes no pixel read elsewhere. */
  lemma PutElsewhere(c: Regs, h: Gfx, s: seq<Bits>, x: int, y: int, px: int, py: int)
    requires ValidGfx(c, h) && |s| == FB_W * FB_H
    requires x + c.xMove == ToI16(x + c.xMove) && y + c.yMove == ToI16(y + c.yMove)
    requires WindowX(c, x + c.xMove) == x + c.xMove + c.xWindow - 0x1000
    requires WindowY(c, y + c.yMove) == y + c.yMove + c.yWindow - 0x1000
    requires px != x + c.xMove || py != y + c.yMove
    ensures ReadAt(c, PutPixel(c, h, s, x, y).fb, px, py) == ReadAt(c, h.fb, px, py)
  {
    hide ValidRegs, ValidShift, RbRead, RbWrite, MaskHit, ToBits, ToI16, AnyMask;
  }

  /** The image of a pixel is no pixel that comes after it in the scan. */
  lemma ImageIsNotLater(c: Regs, b: Block, j: nat, k: nat, r: nat, i: nat)
    requires Behind(c, b) && j < b.h && k < b.w && r < b.h && i < b.w
    requires r > j || (r == j && i >= k + 1)
    ensures Along(b.x, b.left, i) != Along(b.x, b.left, k) + c.xMove || Along(b.y, b.up, r) != Along(b.y, b.up, j) + c.yMove
  {
  }

  /** Copying pixel k of row j changes no pixel that is read later. */
  lemma PutKeepsUnread(c: Regs, h: Gfx, s: seq<Bits>, b: Block, j: nat, k: nat)
    requires ValidGfx(c, h) && |s| == FB_W * FB_H && NoWrap(c, b) && Behind(c, b) && j < b.h && k < b.w
    requires Unread(c, h, s, b, j, k)
    ensures Unread(c, PutPixel(c, h, s, Along(b.x, b.left, k), Along(b.y, b.up, j)), s, b, j, k + 1)
  {
    hide ValidRegs, ValidShift, PutPixel, ReadAt, Behind, ToI16, Fits, Along;
    FitsI16(b.x, b.left, b.w, c.xMove, c.xWindow);
    FitsI16(b.y, b.up, b.h, c.yMove, c.yWindow);
    var x, y := Along(b.x, b.left, k), Along(b.y, b.up, j);
    forall i, r | 0 <= i < b.w && 0 <= r < b.h && (r > j || (r == j && i >= k + 1))
      ensures ReadAt(c, PutPixel(c, h, s, x, y).fb, Along(b.x, b.left, i), Along(b.y, b.up, r)) ==
              ReadAt(c, s, Along(b.x, b.left, i), Along(b.y, b.up, r))
    {
      ImageIsNotLater(c, b, j, k, r, i);
      PutElsewhere(c, h, s, x, y, Along(b.x, b.left, i), Along(b.y, b.up, r));
    }
  }

  lemma {:induction false} RowFromSnapshot(c: Regs, h: Gfx, s: seq<Bits>, b: Block, j: nat, k: nat)
    requires ValidGfx(c, h) && |s| == FB_W * FB_H && NoWrap(c, b) && Behind(c, b) && j < b.h && k <= b.w
    requires Unread(c, h, s, b, j, 0)
    ensures var y := Along(b.y, b.up, j);
      && CopyRow(c, h, b.x, y, b.left, k) == SnapRow(c, h, s, b.x, y, b.left, k)
      && Unread(c, CopyRow(c, h, b.x, y, b.left, k), s, b, j, k)
  {
    hide PutPixel, ReadAt, NoWrap, Behind, ValidRegs, ValidShift;
    if k > 0 {
      RowFromSnapshot(c, h, s, b, j, k - 1);
      var y := Along(b.y, b.up, j);
      var r := CopyRow(c, h, b.x, y, b.left, k - 1);
      assert ReadAt(c, r.fb, Along(b.x, b.left, k - 1), y) == ReadAt(c, s, Along(b.x, b.left, k - 1), y);
      SameRead(c, r, r.fb, s, Along(b.x, b.left, k - 1), y);
      PutKeepsUnread(c, r, s, b, j, k - 1);
    }
  }

  lemma SameRead(c: Regs, g: Gfx, s: seq<Bits>, t: seq<Bits>, x: int, y: int)
    requires ValidGfx(c, g) && |s| == |t| == FB_W * FB_H && ReadAt(c, s, x, y) == ReadAt(c, t, x, y)
    ensures PutPixel(c, g, s, x, y) == PutPixel(c, g, t, x, y)
  {
    hide ReadAt, OutputPixel;
  }

  /** Copying in place reads what a snapshot of the block would, when the image lies behind. */
  lemma {:induction false} CopyFromSnapshot(c: Regs, g: Gfx, b: Block, j: nat)
    requires ValidGfx(c, g) && NoWrap(c, b) && Behind(c, b) && j <= b.h
    ensures CopyRows(c, g, b, j) == SnapRows(c, g, g.fb, b, j)
    ensures Unread(c, CopyRows(c, g, b, j), g.fb, b, j, 0)
  {
    hide PutPixel, ReadAt, NoWrap, Behind, ValidRegs, ValidShift, CopyRow, SnapRow;
    if j > 0 {
      CopyFromSnapshot(c, g, b, j - 1);
      RowFromSnapshot(c, CopyRows(c, g, b, j - 1), g.fb, b, j - 1, b.w);
    }
  }

  /** The whole command: with both stop bits set and the saved column the starting one, scr2scr
      leaves the snapshot copy of its block and the cursor one row past it. */
  lemma ScanIsSnapshot(c: Regs, g: Gfx, b: Block)
    requires ValidGfx(c, g) && NoWrap(c, b) && Behind(c, b)
    ensures I16(Along(b.x, b.left, b.w)) && I16(Along(b.y, b.up, b.h)) && I16(b.x) && I16(b.y)
    ensures Scan(c, BlockLimits(b), g, b.x, b.y) == (SnapRows(c, g, g.fb, b, b.h), b.x, Along(b.y, b.up, b.h))
  {
    hide PutPixel, ReadAt, Behind, ValidRegs, ValidShift, SnapRow, SnapRows, Scan;
    FitsI16(b.y, b.up, b.h, c.yMove, c.yWindow);
    ScanIsBlock(c, g, b, 0, 0);
    CopyFromSnapshot(c, g, b, b.h);
  }
}
