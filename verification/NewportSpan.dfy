/** The lane forms the span kernel uses in place of per-pixel calls, each against its per-pixel
    form, and the two conditions under which the kernel departs from the per-pixel loop. */
module NewportSpan {
  import opened Words
  import opened PixelOps
  import opened Newport
  import opened NewportRow

  const SPAN_MAX := 2048

  // ---- colour ----

  function SpanClamp(c: u32): u8 {
    var v := c / 0x800 % 0x200;
    var lim := if v > 0xff then 0xff else v;
    if v >= 0x180 || c / 0x80000000 != 0 then 0 else lim
  }

  function Flag(b: bool): nat { if b then 1 else 0 }

  /** A lane's channel, branch-free and unnarrowed: add the comparison, then cap. */
  function Lane(s: nat, bay: nat, top: u8): (d: u8)
    requires top <= 15
    ensures d <= top
  {
    var d := s / 16 % (top + 1) + Flag(s % 16 > bay);
    if d > top then top else d
  }

  function DitherLane(depth: nat, cr: u32, cg: u32, cb: u32, ca: u32, bay: nat): u32 {
    var red, green, blue, alpha := SpanClamp(cr), SpanClamp(cg), SpanClamp(cb), SpanClamp(ca);
    var (sr, sg, sb) := Scaled(depth, red, green, blue);
    if depth == 0 then Packed(0, alpha, Lane(sr, bay, 1), Lane(sg, bay, 3), Lane(sb, bay, 1))
    else if depth == 1 then Packed(1, alpha, Lane(sr, bay, 7), Lane(sg, bay, 7), Lane(sb, bay, 3))
    else if depth == 2 then Packed(2, alpha, Lane(sr, bay, 15), Lane(sg, bay, 15), Lane(sb, bay, 15))
    else alpha * 0x1000000 + blue * 0x10000 + green * 0x100 + red
  }

  lemma ClampAgrees(c: u32)
    ensures SpanClamp(c) == Clamp(c)
  {
  }

  /** The 8-bit variable of the switch loses nothing: a scaled channel fits it. */
  lemma ChannelAgrees(s: nat, narrow: bool, bay: nat, top: u8)
    requires s < 256 && top <= 15
    ensures Bump(s, narrow, bay, top) == Lane(s, bay, top)
  {
    assert s % 256 == s;
    var d := s / 16 % (top + 1);
    assert Bump(s, narrow, bay, top) == if s % 16 > bay then Min(d + 1, top) else Min(d, top);
  }

  lemma ScaledFits(depth: nat, red: u8, green: u8, blue: u8)
    ensures var (sr, sg, sb) := Scaled(depth, red, green, blue); sr < 256 && sg < 256 && sb < 256
  {
  }

  /** The branch-free lane colour is rgb_from's colour in RGB mode with dithering. */
  lemma DitherAgrees(c: Regs, cr: u32, cg: u32, cb: u32, ca: u32, x: int, y: int)
    requires c.planeDepth < 4 && RgbMode(c) && Dither(c)
    ensures DitherLane(c.planeDepth, cr, cg, cb, ca, Bayer(x, y)) == RgbFrom(c, cr, cg, cb, ca, x, y)
  {
    hide Bump, Lane, Scaled, Packed, Clamp, SpanClamp, DefaultColor, ConvertDepth, Bayer;
    ClampAgrees(cr);
    ClampAgrees(cg);
    ClampAgrees(cb);
    ClampAgrees(ca);
    var depth, bay := c.planeDepth, Bayer(x, y);
    var (sr, sg, sb) := Scaled(depth, Clamp(cr), Clamp(cg), Clamp(cb));
    ScaledFits(depth, Clamp(cr), Clamp(cg), Clamp(cb));
    if depth == 0 {
      ChannelAgrees(sr, true, bay, 1);
      ChannelAgrees(sg, true, bay, 3);
      ChannelAgrees(sb, true, bay, 1);
    } else if depth == 1 {
      ChannelAgrees(sr, true, bay, 7);
      ChannelAgrees(sg, true, bay, 7);
      ChannelAgrees(sb, true, bay, 3);
    } else if depth == 2 {
      ChannelAgrees(sr, false, bay, 15);
      ChannelAgrees(sg, false, bay, 15);
      ChannelAgrees(sb, false, bay, 15);
    }
  }

  // ---- slopes ----

  lemma AddMod(a: int, s: int)
    ensures ToU32(ToU32(a) + s) == ToU32(a + s)
  {
  }

  lemma {:induction false} ChannelSlope(start: u32, step: u32, k: nat)
    ensures ToU32(ToU32(start + k * step) + step) == ToU32(start + (k + 1) * step)
  {
    AddMod(start + k * step, step);
    assert (k + 1) * step == k * step + step;
  }

  /** Lane k of a shaded row: the start plus k slopes, modulo 2^32. */
  function SlopeAt(c: Regs, it: Iter, k: nat): Iter {
    it.(red := ToU32(it.red + k * Step24(c.slopeRed)), green := ToU32(it.green + k * Step20(c.slopeGreen)),
        blue := ToU32(it.blue + k * Step20(c.slopeBlue)), alpha := ToU32(it.alpha + k * Step20(c.slopeAlpha)))
  }

  /** Repeated addition equals the closed form while the iterators are not clamped. */
  lemma {:induction false} SlopeAgrees(c: Regs, it: Iter, k: nat)
    requires Shade(c) && !CiClamp(c)
    ensures LaneShade(c, it, k) == SlopeAt(c, it, k)
  {
    hide Step24, Step20, ToU32, ClampIter, ClampCi;
    if k == 0 {
      ZeroSlopes(c, it);
    } else {
      SlopeAgrees(c, it, k - 1);
      ChannelSlope(it.red, Step24(c.slopeRed), k - 1);
      ChannelSlope(it.green, Step20(c.slopeGreen), k - 1);
      ChannelSlope(it.blue, Step20(c.slopeBlue), k - 1);
      ChannelSlope(it.alpha, Step20(c.slopeAlpha), k - 1);
    }
  }

  lemma ZeroSlopes(c: Regs, it: Iter)
    ensures SlopeAt(c, it, 0) == it
  {
  }

  // ---- clipping, once per row ----

  /** Mask b is enabled and its y range holds window row y. */
  predicate MaskRow(c: Regs, b: nat, y: int)
    requires ValidRegs(c) && 1 <= b < 5
  {
    c.clipMode[b] && ToI16(c.masks[b].minY - 0x1000) <= y <= ToI16(c.masks[b].maxY - 0x1000)
  }

  /** One of the masks 1..b-1 holds the point. */
  predicate HitBelow(c: Regs, b: nat, x: int, y: int)
    requires ValidRegs(c) && b <= 5
    ensures HitBelow(c, b, x, y) <==> exists d :: 1 <= d < b && MaskHit(c, d, x, y)
  {
    b > 1 && (MaskHit(c, b - 1, x, y) || HitBelow(c, b - 1, x, y))
  }

  /** Some pixel of row y could pass the clip. */
  predicate RowOk(c: Regs, y: int)
    requires ValidRegs(c)
  {
    && 0 <= WindowY(c, y) < DISP_H
    && (c.clipMode[0] ==> c.masks[0].minY <= y <= c.masks[0].maxY)
    && (AnyMask(c) ==> exists b :: 1 <= b < 5 && MaskRow(c, b, WindowY(c, y)))
  }

  lemma RowClip(c: Regs, x: int, y: int)
    requires ValidRegs(c) && ClipPass(c, x, y)
    ensures RowOk(c, y)
  {
    if AnyMask(c) {
      var b :| 1 <= b < 5 && MaskHit(c, b, WindowX(c, x), WindowY(c, y));
      assert MaskRow(c, b, WindowY(c, y));
    }
  }

  // ---- where the kernel applies, and where it departs from the loop ----

  /** The kernel leaves the row to the per-pixel loop. */
  predicate Declines(c: Regs, x: int, n: nat) {
    n > SPAN_MAX || !NoWrap(c, x, n) || Blend(c)
  }

  /** Lanes [VisibleFrom, VisibleTo) fall on framebuffer columns. */
  function VisibleFrom(c: Regs, x: int): int {
    Max(0, -(x + c.xWindow - 0x1000))
  }

  function VisibleTo(c: Regs, x: int, n: nat): int {
    Min(n, FB_W - (x + c.xWindow - 0x1000))
  }

  /** A visible row whose first lane lies before the start of the framebuffer. Its 32-bit row
      index wraps to near 2^32, and the lane offset is added to the pointer without wrapping
      back. */
  predicate StartsBeforeFrame(c: Regs, x: int, y: int, n: nat)
    requires ValidRegs(c)
  {
    RowOk(c, y) && VisibleFrom(c, x) < VisibleTo(c, x, n) && RowBase(c, x, y) < 0
  }

  /** Shaded rows whose colour does not come from the iterators: the kernel does not step them. */
  predicate SkipsShade(c: Regs) {
    Shade(c) && (c.colorHost || FastClear(c))
  }

  /** What the kernel leaves: the row of the per-pixel loop, with the shade iterators unstepped
      where it skips them. */
  function SpanRow(c: Regs, g: Gfx, x: int, y: int, n: nat): (r: Gfx)
    requires ValidGfx(c, g)
    ensures ValidGfx(c, r)
  {
    var r := DrawRow(c, g, x, y, n);
    if SkipsShade(c) then r.(it := g.it.(hostShift := r.it.hostShift)) else r
  }

  /** The kernel's row is the loop's row exactly unless it skips iterators that n steps move. */
  lemma SpanRowExact(c: Regs, g: Gfx, x: i16, y: i16, n: nat)
    requires ValidGfx(c, g) && NoWrap(c, x, n)
    ensures SpanRow(c, g, x, y, n) == DrawRow(c, g, x, y, n) <==> (SkipsShade(c) ==> LaneShade(c, g.it, n) == g.it)
  {
    RowIsLanes(c, g, x, y, n);
    hide RowBase, Cell;
  }

  /** With the iterators unclamped, n steps leave a channel alone iff n slopes are 0 modulo 2^32. */
  lemma ShadeFixed(c: Regs, it: Iter, n: nat)
    requires Shade(c) && !CiClamp(c)
    ensures LaneShade(c, it, n) == it <==>
      && n * Step24(c.slopeRed) % U32 == 0 && n * Step20(c.slopeGreen) % U32 == 0
      && n * Step20(c.slopeBlue) % U32 == 0 && n * Step20(c.slopeAlpha) % U32 == 0
  {
    hide Step24, Step20, ToU32;
    SlopeAgrees(c, it, n);
    ChannelFixed(it.red, n * Step24(c.slopeRed));
    ChannelFixed(it.green, n * Step20(c.slopeGreen));
    ChannelFixed(it.blue, n * Step20(c.slopeBlue));
    ChannelFixed(it.alpha, n * Step20(c.slopeAlpha));
  }

  lemma ChannelFixed(start: u32, d: int)
    ensures ToU32(start + d) == start <==> d % U32 == 0
  {
  }

  // ---- the kernel's early exits and its row pointer ----

  /** The row pointer of a visible row is in the frame unless the row starts before it. */
  lemma RowPointer(c: Regs, x: i16, y: i16, n: nat)
    requires ValidRegs(c) && !Declines(c, x, n) && RowOk(c, y) && VisibleFrom(c, x) < VisibleTo(c, x, n)
    ensures var row := ToU32(WindowY(c, y) * FB_W + ToU32(x + c.xWindow - 0x1000));
      && (row + VisibleTo(c, x, n) > FB_W * FB_H <==> StartsBeforeFrame(c, x, y, n))
      && (!StartsBeforeFrame(c, x, y, n) ==> row == RowBase(c, x, y))
  {
    hide RowOk, Declines, NoWrap, ToI16, MaskHit;
    LeftFits(c, x, y, n);
    var (left, top) := (x + c.xWindow - 0x1000, WindowY(c, y) * FB_W);
    if 0 <= left {
      QuotientUnique(left, U32, 0, left);
      QuotientUnique(top + left, U32, 0, top + left);
    } else if 0 <= top + left {
      QuotientUnique(left, U32, -1, left + U32);
      QuotientUnique(top + left + U32, U32, 1, top + left);
    } else {
      QuotientUnique(left, U32, -1, left + U32);
      QuotientUnique(top + left + U32, U32, 0, top + left + U32);
    }
  }

  lemma LeftFits(c: Regs, x: i16, y: i16, n: nat)
    requires ValidRegs(c) && !Declines(c, x, n) && RowOk(c, y)
    ensures -0x8000 <= x + c.xWindow - 0x1000 <= 0x8000 && n <= SPAN_MAX && 0 <= WindowY(c, y) < DISP_H
  {
    hide ToI16;
  }

  /** A lane that stores is a visible lane of an acceptable row. */
  lemma StoresVisible(c: Regs, x: i16, y: i16, n: nat, k: nat)
    requires ValidRegs(c) && NoWrap(c, x, n) && k < n && Stores(c, x, y, k)
    ensures RowOk(c, y) && VisibleFrom(c, x) <= k < VisibleTo(c, x, n)
  {
    hide MaskHit, Writes, RowOk;
    RowClip(c, x + k, y);
    assert WindowX(c, x + k) == x + k + c.xWindow - 0x1000;
  }

  lemma RowUntouched(c: Regs, g: Gfx, x: i16, y: i16, n: nat)
    requires ValidGfx(c, g) && NoWrap(c, x, n)
    requires !RowOk(c, y) || VisibleFrom(c, x) >= VisibleTo(c, x, n)
    ensures forall a :: 0 <= a < |g.fb| ==> Cell(c, g, x, y, n, a) == g.fb[a]
  {
    hide Stores, RowOk, RbWrite, LaneColor, ToBits, ValidShift, ValidRegs, RowBase;
    forall a | 0 <= a < |g.fb| ensures Cell(c, g, x, y, n, a) == g.fb[a] {
      var k := a - RowBase(c, x, y);
      if 0 <= k < n && Stores(c, x, y, k) {
        StoresVisible(c, x, y, n, k);
      }
    }
  }

  /** Lane stores over the visible lanes give every word its cell. */
  lemma RowTouched(c: Regs, g: Gfx, x: i16, y: i16, n: nat, pass: seq<bool>, col: seq<u32>, fb: seq<Bits>)
    requires ValidGfx(c, g) && NoWrap(c, x, n) && |pass| == |col| == n && |fb| == |g.fb|
    requires forall k :: 0 <= k < n ==> pass[k] == Stores(c, x, y, k) && col[k] == LaneColor(c, g.it, x, y, k)
    requires forall a :: 0 <= a < |fb| ==>
      var k := a - RowBase(c, x, y);
      fb[a] == if VisibleFrom(c, x) <= k < VisibleTo(c, x, n) && pass[k] then RbWrite(c.rb, g.fb[a], ToBits(col[k]))
               else g.fb[a]
    ensures forall a :: 0 <= a < |fb| ==> fb[a] == Cell(c, g, x, y, n, a)
  {
    hide Stores, RowOk, RbWrite, LaneColor, ToBits, ValidShift, ValidRegs, RowBase;
    forall a | 0 <= a < |fb| ensures fb[a] == Cell(c, g, x, y, n, a) {
      var k := a - RowBase(c, x, y);
      if 0 <= k < n && Stores(c, x, y, k) {
        StoresVisible(c, x, y, n, k);
      }
    }
  }

  // ---- both departures happen ----

  /** A single shaded host-coloured or fast-cleared pixel with a red slope: the loop steps the red
      iterator, the kernel does not. */
  lemma SkippedShadeDiffers(c: Regs, g: Gfx, x: i16, y: i16)
    requires ValidGfx(c, g) && NoWrap(c, x, 1)
    requires SkipsShade(c) && !CiClamp(c) && c.slopeRed == 1
    ensures SpanRow(c, g, x, y, 1) != DrawRow(c, g, x, y, 1)
  {
    hide DrawRow, LaneShade, Step20;
    SpanRowExact(c, g, x, y, 1);
    ShadeFixed(c, g.it, 1);
  }

  /** An unmasked two-pixel row at the top of the screen, half a step left of it. */
  lemma StartsBeforeFrameHappens(c: Regs)
    requires ValidRegs(c) && !Blend(c) && !c.clipMode[0] && !AnyMask(c)
    requires c.xWindow == 0x1000 - 1 && c.yWindow == 0x1000
    ensures !Declines(c, 0, 2) && StartsBeforeFrame(c, 0, 0, 2)
  {
  }
}
