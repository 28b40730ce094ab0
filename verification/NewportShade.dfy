/** A shaded block, pixel by pixel: which colour each pixel of each row takes, from the registers, in
    whatever segments the rows are drawn and whether the span kernel draws them or the loop. */
module NewportShade {
  import opened Words
  import opened PixelOps
  import opened Newport
  import opened NewportRow
  import opened NewportSpan
  import opened NewportBlock
  import NewportCopy
  import NewportColors

  // ---- slopes ----

  /** The low n bits of a slope as a signed number whose top bit alone counts as nothing. */
  function SlopeOf(slope: u32, top: nat): int
    requires top > 0
  {
    var v := slope % (2 * top);
    if v < top then v else if v == top then 0 else v - 2 * top
  }

  lemma SlopeSteps(slope: u32)
    ensures Step24(slope) == SlopeOf(slope, 0x80_0000) % U32 && Step20(slope) == SlopeOf(slope, 0x8_0000) % U32
  {
    hide Step24, Step20, SlopeOf;
    WideSteps(slope);
    NarrowSteps(slope);
  }

  lemma WideSteps(slope: u32)
    ensures Step24(slope) == SlopeOf(slope, 0x80_0000) % U32
  {
    var s := slope % 0x100_0000;
    if s >= 0x80_0000 {
      QuotientUnique(s, 0x80_0000, 1, s - 0x80_0000);
      QuotientUnique(s - 0x100_0000, U32, -1, s + 0xff00_0000);
    }
  }

  lemma NarrowSteps(slope: u32)
    ensures Step20(slope) == SlopeOf(slope, 0x8_0000) % U32
  {
    var s := slope % 0x10_0000;
    if s >= 0x8_0000 {
      QuotientUnique(s, 0x8_0000, 1, s - 0x8_0000);
      QuotientUnique(s - 0x10_0000, U32, -1, s + 0xfff0_0000);
    }
  }

  /** Adding k steps modulo 2^32 is adding k slopes. */
  lemma StepsAre(start: u32, step: u32, slope: int, k: nat)
    requires step == slope % U32
    ensures ToU32(start + k * step) == (start + k * slope) % U32
  {
    var q := slope / U32;
    assert slope == U32 * q + step;
    assert k * slope == U32 * (k * q) + k * step;
    var a := start + k * step;
    QuotientUnique(start + k * slope, U32, k * q + a / U32, a % U32);
  }

  /** With the iterators clamped, a step still shows each channel a slope further on, saturated. */
  lemma ClampedStep(c: Regs, it: Iter)
    requires c.drawMode0[21] && c.drawMode1[15]
    ensures var r := IterateShade(c, it);
      && Clamp(r.red) == Clamp((it.red + SlopeOf(c.slopeRed, 0x80_0000)) % U32)
      && Clamp(r.green) == Clamp((it.green + SlopeOf(c.slopeGreen, 0x8_0000)) % U32)
      && Clamp(r.blue) == Clamp((it.blue + SlopeOf(c.slopeBlue, 0x8_0000)) % U32)
      && Clamp(r.alpha) == Clamp((it.alpha + SlopeOf(c.slopeAlpha, 0x8_0000)) % U32)
  {
    hide Step24, Step20, SlopeOf, Clamp, ClampIter;
    ClampedChannel(it.red, Step24(c.slopeRed), SlopeOf(c.slopeRed, 0x80_0000));
    ClampedChannel(it.green, Step20(c.slopeGreen), SlopeOf(c.slopeGreen, 0x8_0000));
    ClampedChannel(it.blue, Step20(c.slopeBlue), SlopeOf(c.slopeBlue, 0x8_0000));
    ClampedChannel(it.alpha, Step20(c.slopeAlpha), SlopeOf(c.slopeAlpha, 0x8_0000));
    SlopeSteps(c.slopeRed);
    SlopeSteps(c.slopeGreen);
    SlopeSteps(c.slopeBlue);
    SlopeSteps(c.slopeAlpha);
  }

  lemma ClampedChannel(start: u32, step: u32, slope: int)
    ensures step == slope % U32 ==> Clamp(ClampIter(ToU32(start + step))) == Clamp((start + slope) % U32)
  {
    hide Clamp, ClampIter;
    if step == slope % U32 {
      StepsAre(start, step, slope, 1);
    }
    NewportColors.ClampKeepsColor(ToU32(start + step));
  }

  // ---- one segment of a row ----

  /** Shaded RGB, unclamped, no fast clear, no host colours: pixels show the iterators as the slopes
      move them. */
  predicate Gouraud(c: Regs) {
    c.drawMode0[18] && c.drawMode1[15] && !c.drawMode0[21] && !c.drawMode1[17] && !c.colorHost
  }

  /** The framebuffer word of a point the clip lets through. */
  function Spot(c: Regs, x: int, y: int): (a: nat)
    requires ValidRegs(c) && ClipPass(c, x, y)
    ensures a < FB_W * FB_H
  {
    WindowY(c, y) * FB_W + WindowX(c, x)
  }

  predicate SpotIs(c: Regs, x: int, y: int, a: nat)
    requires ValidRegs(c)
  {
    ClipPass(c, x, y) && Spot(c, x, y) == a
  }

  /** The clip in screen coordinates, where no 16-bit sum wraps: inside the frame, inside mask 0 if it is
      enabled, and, if any of the other four is, inside one that is, those held 4096 further on. */
  lemma ClipIs(c: Regs, x: int, y: int)
    requires ValidRegs(c)
    requires var (sx, sy) := (x + c.xWindow - 0x1000, y + c.yWindow - 0x1000);
      -0x8000 <= sx < 0x8000 && -0x8000 <= sy < 0x8000
    requires forall b :: 1 <= b < 5 ==> var m := c.masks[b];
      m.minX >= -0x7000 && m.maxX >= -0x7000 && m.minY >= -0x7000 && m.maxY >= -0x7000
    ensures var (sx, sy) := (x + c.xWindow - 0x1000, y + c.yWindow - 0x1000);
      ClipPass(c, x, y) <==>
        && 0 <= sx < 1344 && 0 <= sy < 1024
        && (c.clipMode[0] ==> c.masks[0].minX <= x <= c.masks[0].maxX && c.masks[0].minY <= y <= c.masks[0].maxY)
        && ((c.clipMode[1] || c.clipMode[2] || c.clipMode[3] || c.clipMode[4]) ==>
              exists b :: 1 <= b < 5 && c.clipMode[b] && Within(c.masks[b], sx + 0x1000, sy + 0x1000))
  {
    forall b | 1 <= b < 5 ensures MaskHit(c, b, WindowX(c, x), WindowY(c, y)) ==
      (c.clipMode[b] && Within(c.masks[b], x + c.xWindow, y + c.yWindow))
    {
      MaskIs(c, b, x, y);
    }
  }

  predicate Within(m: Mask, x: int, y: int) {
    m.minX <= x <= m.maxX && m.minY <= y <= m.maxY
  }

  lemma MaskIs(c: Regs, b: nat, x: int, y: int)
    requires ValidRegs(c) && 1 <= b < 5
    requires -0x8000 <= x + c.xWindow - 0x1000 < 0x8000 && -0x8000 <= y + c.yWindow - 0x1000 < 0x8000
    requires var m := c.masks[b]; m.minX >= -0x7000 && m.maxX >= -0x7000 && m.minY >= -0x7000 && m.maxY >= -0x7000
    ensures MaskHit(c, b, WindowX(c, x), WindowY(c, y)) ==
      (c.clipMode[b] && Within(c.masks[b], x + c.xWindow, y + c.yWindow))
  {
    hide ToI16;
    var m := c.masks[b];
    WholeI16(m.minX - 0x1000);
    WholeI16(m.maxX - 0x1000);
    WholeI16(m.minY - 0x1000);
    WholeI16(m.maxY - 0x1000);
    WholeI16(x + c.xWindow - 0x1000);
    WholeI16(y + c.yWindow - 0x1000);
  }

  /** Different points have different words. */
  lemma SpotsApart(c: Regs, x: i16, y: i16, x2: i16, y2: i16, a: nat)
    requires ValidRegs(c) && SpotIs(c, x, y, a) && SpotIs(c, x2, y2, a)
    ensures x == x2 && y == y2
  {
    hide MaskHit, ValidRegs, AnyMask;
    var u: int, v: int, u2: int, v2: int := WindowX(c, x), WindowY(c, y), WindowX(c, x2), WindowY(c, y2);
    assert 0 <= u < FB_W && 0 <= u2 < FB_W;
    QuotientUnique(a, FB_W, v, u);
    QuotientUnique(a, FB_W, v2, u2);
    ShiftApart(x, x2, c.xWindow - 0x1000);
    ShiftApart(y, y2, c.yWindow - 0x1000);
  }

  lemma ShiftApart(x: i16, x2: i16, d: int)
    ensures ToI16(x + d) == ToI16(x2 + d) ==> x == x2
  {
  }

  /** A channel k slopes from its start. */
  function Channel(start: u32, slope: int, k: nat): u32 {
    (start + k * slope) % U32
  }

  function Along(c: Regs, it: Iter, k: nat): (u32, u32, u32, u32) {
    (Channel(it.red, SlopeOf(c.slopeRed, 0x80_0000), k), Channel(it.green, SlopeOf(c.slopeGreen, 0x8_0000), k),
     Channel(it.blue, SlopeOf(c.slopeBlue, 0x8_0000), k), Channel(it.alpha, SlopeOf(c.slopeAlpha, 0x8_0000), k))
  }

  lemma AlongIs(c: Regs, it: Iter, k: nat)
    requires Shade(c) && !CiClamp(c)
    ensures var l := LaneShade(c, it, k); (l.red, l.green, l.blue, l.alpha) == Along(c, it, k)
  {
    hide SlopeOf, Step24, Step20, ToU32, LaneShade;
    SlopeAgrees(c, it, k);
    SlopeSteps(c.slopeRed);
    SlopeSteps(c.slopeGreen);
    SlopeSteps(c.slopeBlue);
    SlopeSteps(c.slopeAlpha);
    StepsAre(it.red, Step24(c.slopeRed), SlopeOf(c.slopeRed, 0x80_0000), k);
    StepsAre(it.green, Step20(c.slopeGreen), SlopeOf(c.slopeGreen, 0x8_0000), k);
    StepsAre(it.blue, Step20(c.slopeBlue), SlopeOf(c.slopeBlue, 0x8_0000), k);
    StepsAre(it.alpha, Step20(c.slopeAlpha), SlopeOf(c.slopeAlpha, 0x8_0000), k);
  }

  /** The colour of a point whose channels have come k slopes: the background where the pattern is
      clear. */
  function Tint(c: Regs, it: Iter, lane: nat, k: nat, x: int, y: int): u32
    requires ValidRegs(c)
  {
    if !Pattern(c)[31 - lane % 32] then c.colorBack
    else
      var (red, green, blue, alpha) := Along(c, it, k);
      RgbFrom(c, red, green, blue, alpha, x, y)
  }

  lemma OutputAt(c: Regs, g: Gfx, x: i16, y: i16, color: Bits, a: nat)
    requires ValidGfx(c, g) && a < |g.fb|
    ensures OutputPixel(c, g, x, y, color).fb[a] == if SpotIs(c, x, y, a) then RbWrite(c.rb, g.fb[a], color) else g.fb[a]
  {
    hide ClipPass, RbWrite, ValidShift;
  }

  lemma TurnColor(c: Regs, it: Iter, x: i16, y: i16, k: nat)
    requires ValidRegs(c) && Gouraud(c)
    ensures Pat(c, k) == Pattern(c)[31 - k % 32]
    ensures Pat(c, k) ==> OwnColor(c, LaneShade(c, it, k + 1), x, y) == Tint(c, it, k, k + 1, x, y)
  {
    hide RgbFrom, Along, Pattern, IterateShade, DefaultColor, LaneShade;
    AlongIs(c, it, k + 1);
    assert (31 - k) % 32 == 31 - k % 32;
  }

  /** A turn of the pixel loop writes its own point, if the pattern or an opaque mode lets it. */
  lemma StepPuts(c: Regs, g: Gfx, it: Iter, x: i16, y: i16, k: nat, a: nat)
    requires ValidGfx(c, g) && Gouraud(c) && a < |g.fb|
    ensures g.it == LaneShade(c, it, k) ==> PixelStep(c, g, x, y, k).it == LaneShade(c, it, k + 1)
    ensures g.it == LaneShade(c, it, k) ==>
      var put := SpotIs(c, x, y, a) && (Pattern(c)[31 - k % 32] || Opaque(c));
      PixelStep(c, g, x, y, k).fb[a] ==
      if put then RbWrite(c.rb, g.fb[a], ToBits(Tint(c, it, k, k + 1, x, y))) else g.fb[a]
  {
    TurnColor(c, it, x, y, k);
    hide RbWrite, ToBits, Opaque, Pattern, ValidShift, ValidRegs, StepShade, OwnColor, OutputPixel, SpotIs, Pat, HostPixel, NextShift;
    var next := StepShade(c, g.it);
    if g.it == LaneShade(c, it, k) {
      assert next == LaneShade(c, it, k + 1);
      if Pat(c, k) {
        OutputAt(c, g.(it := next), x, y, ToBits(OwnColor(c, next, x, y)), a);
      } else if Opaque(c) {
        OutputAt(c, g.(it := next), x, y, ToBits(c.colorBack), a);
      }
    }
  }

  /** Pattern and clip let lane `lane` of a segment, at (x, y), write word a. */
  predicate Inked(c: Regs, lane: nat, x: int, y: int, a: nat)
    requires ValidRegs(c)
  {
    SpotIs(c, x, y, a) && (Pattern(c)[31 - lane % 32] || Opaque(c))
  }

  predicate LaneInks(c: Regs, x: int, k: nat, y: int, a: nat)
    requires ValidRegs(c)
  {
    Inked(c, k, x + k, y, a)
  }

  /** What a segment does to one word: the one lane that writes it, if any. */
  lemma {:induction false} SegmentInks(c: Regs, g: Gfx, x: i16, y: i16, n: nat, a: nat)
    requires ValidGfx(c, g) && Gouraud(c) && x + n <= 0x7fff && a < |g.fb|
    ensures var r := DrawRow(c, g, x, y, n);
      && r.it == LaneShade(c, g.it, n)
      && (forall k :: 0 <= k < n && LaneInks(c, x, k, y, a) ==>
            r.fb[a] == RbWrite(c.rb, g.fb[a], ToBits(Tint(c, g.it, k, k + 1, x + k, y))))
      && ((forall k :: 0 <= k < n ==> !LaneInks(c, x, k, y, a)) ==> r.fb[a] == g.fb[a])
  {
    hide RbWrite, ToBits, Opaque, Pattern, ValidShift, ValidRegs, Gouraud, PixelStep, SpotIs, Tint, LaneShade;
    if n == 0 {
      ZeroLanes(c, g.it);
    } else {
      SegmentInks(c, g, x, y, n - 1, a);
      WholeI16(x + (n - 1));
      StepPuts(c, DrawRow(c, g, x, y, n - 1), g.it, x + (n - 1), y, n - 1, a);
      assert LaneInks(c, x, n - 1, y, a) == Inked(c, n - 1, x + (n - 1), y, a);
      forall k | 0 <= k < n - 1 && LaneInks(c, x, k, y, a) ensures !LaneInks(c, x, n - 1, y, a) {
        if LaneInks(c, x, n - 1, y, a) {
          SpotsApart(c, x + k, y, x + (n - 1), y, a);
        }
      }
    }
  }

  lemma ZeroLanes(c: Regs, it: Iter)
    ensures LaneShade(c, it, 0) == it
  {
  }

  // ---- the whole draw ----

  /** Row r of the draw. */
  function Row(e: Extent, y: int, r: int): i16 {
    ToI16(if e.up then y - r else y + r)
  }

  /** The rows of the draw still to come. */
  function Rows(e: Extent, y: i16): (n: nat)
    ensures 1 <= n <= 0x1_0000
  {
    if e.up then (y - e.endY - 1) % 0x1_0000 + 1 else (e.endY - y - 1) % 0x1_0000 + 1
  }

  /** The column a row starts at: the first where the draw is, the others at the saved one. */
  function RowStart(e: Extent, d: Drawing, r: nat): i16
    requires d.Drawing?
  {
    if r == 0 then d.x else e.xSave
  }

  predicate InBlock(e: Extent, d: Drawing, r: nat, x: int)
    requires d.Drawing?
  {
    r < Rows(e, d.y) && RowStart(e, d, r) <= x < e.endX
  }

  /** The pattern position of column x of a row: it starts again with each segment. */
  function Lane(e: Extent, start: int, x: int): nat
    requires start <= x
  {
    if !e.stopX then 0 else if start < e.primEnd <= x then x - e.primEnd else x - start
  }

  /** The pixel of row r in column x writes word a. */
  predicate Hit(c: Regs, e: Extent, d: Drawing, r: nat, x: int, a: nat)
    requires ValidRegs(c) && d.Drawing? && InBlock(e, d, r, x)
  {
    Inked(c, Lane(e, RowStart(e, d, r), x), x, Row(e, d.y, r), a)
  }

  /** The channels a row starts with. */
  function Begins(c: Regs, it: Iter, r: nat): Iter {
    if r == 0 then it
    else it.(red := it.colorRed, green := c.colorGreen, blue := c.colorBlue, alpha := c.colorAlpha)
  }

  /** The colour of that pixel: the row's start and one slope more than columns passed. */
  function Ink(c: Regs, e: Extent, d: Drawing, r: nat, x: int): u32
    requires ValidRegs(c) && d.Drawing? && InBlock(e, d, r, x)
  {
    var start := RowStart(e, d, r);
    Tint(c, Begins(c, d.g.it, r), Lane(e, start, x), x - start + 1, x, Row(e, d.y, r))
  }

  /** A draw of this kind, at a point where it goes on to its last row. */
  predicate Whole(c: Regs, e: Extent, d: Drawing) {
    && d.Drawing? && ValidGfx(c, d.g) && Gouraud(c)
    && e.block && e.stopY && WholeRows(e, d) && d.x < e.endX && e.xSave < e.endX
  }

  /** Lanes of the segment at column x. */
  function Span(e: Extent, x: i16): int {
    if !e.stopX then 1 else if x < e.primEnd < e.endX then e.primEnd - x else e.endX - x
  }

  lemma SpanIsLanes(e: Extent, x: i16)
    requires x < e.endX
    ensures Lanes(x, e.primEnd, e.endX, e.stopX) == Span(e, x) && 1 <= Span(e, x) <= e.endX - x
    ensures ToI16(x + Span(e, x)) == x + Span(e, x)
  {
  }

  lemma RowsTurn(e: Extent, y: i16)
    ensures Row(e, y, 0) == y && Row(e, y, 1) == StepY(e, y)
    ensures StepY(e, y) == e.endY ==> Rows(e, y) == 1
    ensures StepY(e, y) != e.endY ==> Rows(e, y) == Rows(e, StepY(e, y)) + 1
  {
    if e.up {
      UpRows(y, e.endY);
    } else {
      DownRows(y, e.endY);
    }
  }

  lemma UpRows(y: i16, endY: i16)
    ensures ToI16(y) == y
    ensures var n, k := ToI16(y - 1), (y - endY - 1) % 0x1_0000;
      if n == endY then k == 0 else k == (n - endY - 1) % 0x1_0000 + 1
  {
    hide ToI16;
    WholeI16(y);
    BackOne(y);
    Folded(y - endY - 1);
    Folded(ToI16(y - 1) - endY - 1);
  }

  lemma DownRows(y: i16, endY: i16)
    ensures ToI16(y) == y
    ensures var n, k := ToI16(y + 1), (endY - y - 1) % 0x1_0000;
      if n == endY then k == 0 else k == (endY - n - 1) % 0x1_0000 + 1
  {
    hide ToI16;
    WholeI16(y);
    OnOne(y);
    Folded(endY - y - 1);
    Folded(endY - ToI16(y + 1) - 1);
  }

  lemma BackOne(y: i16)
    ensures ToI16(y - 1) == if y == -0x8000 then 0x7fff else y - 1
  {
  }

  lemma OnOne(y: i16)
    ensures ToI16(y + 1) == if y == 0x7fff then -0x8000 else y + 1
  {
  }

  lemma Folded(z: int)
    requires -0x1_0000 <= z < 0x1_0000
    ensures z % 0x1_0000 == if z < 0 then z + 0x1_0000 else z
  {
  }

  lemma RowShifts(e: Extent, y: i16, r: nat)
    ensures Row(e, StepY(e, y), r) == Row(e, y, r + 1)
  {
    Wraps(y, if e.up then -1 else 1, if e.up then 0 - r else r);
  }

  lemma Wraps(y: int, d: int, k: int)
    ensures ToI16(ToI16(y + d) + k) == ToI16(y + d + k)
  {
  }

  lemma RowsApart(e: Extent, y: i16, r: nat, q: nat)
    requires r < 0x1_0000 && q < 0x1_0000 && Row(e, y, r) == Row(e, y, q)
    ensures r == q
  {
  }

  /** The row ends with this segment. */
  predicate LastOfRow(e: Extent, d: Drawing)
    requires d.Drawing?
  {
    d.x + Span(e, d.x) == e.endX
  }

  /** The board after the segment and what follows it. */
  function After(c: Regs, e: Extent, d: Drawing): (t: Drawing)
    requires d.Drawing? && ValidGfx(c, d.g)
    ensures ValidDrawing(c, t)
  {
    Turn(c, e, Segment(c, e, true, d))
  }

  lemma AfterParts(c: Regs, e: Extent, d: Drawing)
    requires Whole(c, e, d)
    ensures 1 <= Span(e, d.x) <= e.endX - d.x
    ensures var t, g := After(c, e, d), DrawRow(c, d.g, d.x, d.y, Span(e, d.x));
      && t.Drawing? && t.g.fb == g.fb && |t.g.fb| == FB_W * FB_H
      && (if LastOfRow(e, d) then t.g.it == ResetColor(c, g.it) && t.x == e.xSave && t.y == StepY(e, d.y)
          else t.g.it == g.it && t.x == d.x + Span(e, d.x) && t.y == d.y)
      && (GoesOn(e, t) <==> !(LastOfRow(e, d) && Rows(e, d.y) == 1)) && (GoesOn(e, t) ==> Whole(c, e, t))
  {
    hide DrawRow, ResetColor, Declines, StartsBeforeFrame, ValidRegs, ValidShift, Lanes, ToI16, StepY, Rows, Gouraud, Row;
    SpanIsLanes(e, d.x);
    RowsTurn(e, d.y);
  }

  /** The pixel of the draw from t is the pixel of the draw from d, row by row. */
  lemma Later(c: Regs, e: Extent, d: Drawing, r: nat, x: int)
    requires Whole(c, e, d)
    ensures var t, q := After(c, e, d), if LastOfRow(e, d) then r + 1 else r;
      GoesOn(e, t) && InBlock(e, t, r, x) ==>
      && InBlock(e, d, q, x) && (q == 0 ==> x >= d.x + Span(e, d.x))
      && Row(e, d.y, q) == Row(e, t.y, r) && Lane(e, RowStart(e, d, q), x) == Lane(e, RowStart(e, t, r), x)
  {
    AfterParts(c, e, d);
    hide DrawRow, ResetColor, Declines, StartsBeforeFrame, ValidRegs, ValidShift, Lanes, ToI16, StepY, Rows, Gouraud, Row,
      After, WholeRows;
    RowsTurn(e, d.y);
    RowShifts(e, d.y, r);
  }

  /** Every pixel of the draw is one of the segment or one of the draw after it. */
  lemma Covered(c: Regs, e: Extent, d: Drawing, r: nat, x: int)
    requires Whole(c, e, d) && InBlock(e, d, r, x) && (r == 0 ==> x >= d.x + Span(e, d.x))
    ensures var t, q := After(c, e, d), if LastOfRow(e, d) then r - 1 else r;
      t.Drawing? && GoesOn(e, t) && q >= 0 && InBlock(e, t, q, x)
  {
    AfterParts(c, e, d);
    hide DrawRow, ResetColor, Declines, StartsBeforeFrame, ValidRegs, ValidShift, Lanes, ToI16, StepY, Rows, Gouraud, Row,
      After, WholeRows;
    RowsTurn(e, d.y);
  }

  /** The channels go on where the segment left them. */
  lemma GoesAlong(c: Regs, it: Iter, n: nat, k: nat)
    requires Shade(c) && !CiClamp(c)
    ensures Along(c, LaneShade(c, it, n), k) == Along(c, it, n + k) && LaneShade(c, it, n).colorRed == it.colorRed
  {
    hide SlopeOf, LaneShade, Channel;
    AlongIs(c, it, n);
    StartStays(c, it, n);
    Onwards(it.red, SlopeOf(c.slopeRed, 0x80_0000), n, k);
    Onwards(it.green, SlopeOf(c.slopeGreen, 0x8_0000), n, k);
    Onwards(it.blue, SlopeOf(c.slopeBlue, 0x8_0000), n, k);
    Onwards(it.alpha, SlopeOf(c.slopeAlpha, 0x8_0000), n, k);
  }

  lemma {:induction false} StartStays(c: Regs, it: Iter, n: nat)
    requires Shade(c) && !CiClamp(c)
    ensures LaneShade(c, it, n).colorRed == it.colorRed
  {
    if n > 0 {
      StartStays(c, it, n - 1);
    }
  }

  lemma Onwards(start: u32, s: int, n: nat, k: nat)
    ensures Channel(Channel(start, s, n), s, k) == Channel(start, s, n + k)
  {
    assert (n + k) * s == n * s + k * s;
    AddMod(start + n * s, k * s);
  }

  /** The channels of that pixel. */
  function Channels(c: Regs, e: Extent, d: Drawing, r: nat, x: int): (u32, u32, u32, u32)
    requires d.Drawing? && InBlock(e, d, r, x)
  {
    Along(c, Begins(c, d.g.it, r), x - RowStart(e, d, r) + 1)
  }

  /** What a segment leaves of the iterators. */
  predicate Carries(c: Regs, e: Extent, d: Drawing, t: Drawing)
    requires d.Drawing? && t.Drawing? && Span(e, d.x) >= 1
  {
    var it := LaneShade(c, d.g.it, Span(e, d.x));
    if LastOfRow(e, d) then t.g.it == ResetColor(c, it) && t.x == e.xSave
    else t.g.it == it && t.x == d.x + Span(e, d.x)
  }

  lemma LaterChannels(c: Regs, e: Extent, d: Drawing, t: Drawing, q: nat, r: nat, x: int)
    requires d.Drawing? && t.Drawing? && Shade(c) && !CiClamp(c) && Span(e, d.x) >= 1 && Carries(c, e, d, t)
    requires q == (if LastOfRow(e, d) then r + 1 else r) && InBlock(e, d, q, x) && InBlock(e, t, r, x)
    ensures Channels(c, e, d, q, x) == Channels(c, e, t, r, x)
  {
    hide LaneShade, Along, Span, Rows;
    var n := Span(e, d.x);
    if q == 0 {
      GoesAlong(c, d.g.it, n, x - t.x + 1);
    } else {
      StartStays(c, d.g.it, n);
      BeginsAlike(c, d.g.it, t.g.it, q, r);
      AlongReads(c, Begins(c, d.g.it, q), Begins(c, t.g.it, r), x - e.xSave + 1);
    }
  }

  lemma Carried(c: Regs, e: Extent, d: Drawing)
    requires Whole(c, e, d)
    ensures Span(e, d.x) >= 1 && After(c, e, d).Drawing? && Carries(c, e, d, After(c, e, d))
  {
    AfterParts(c, e, d);
    WholeParts(c, e, d);
    SegmentInks(c, d.g, d.x, d.y, Span(e, d.x), 0);
    hide ValidRegs, ValidShift, DrawRow, LaneShade, Span, ResetColor, After;
  }

  /** So the later pixel has its colour and writes its word in either draw. */
  lemma LaterInk(c: Regs, e: Extent, d: Drawing, r: nat, x: int, a: nat)
    requires Whole(c, e, d)
    ensures ValidRegs(c)
    ensures var t, q := After(c, e, d), if LastOfRow(e, d) then r + 1 else r;
      GoesOn(e, t) && InBlock(e, t, r, x) ==>
      && InBlock(e, d, q, x) && (q == 0 ==> x >= d.x + Span(e, d.x))
      && Hit(c, e, d, q, x, a) == Hit(c, e, t, r, x, a) && Ink(c, e, d, q, x) == Ink(c, e, t, r, x)
  {
    WholeParts(c, e, d);
    Later(c, e, d, r, x);
    Carried(c, e, d);
    hide ValidRegs, ValidShift, ToI16, Rows, Row, After, Whole, Inked, RgbFrom, Lane, Along, Span, Begins, Carries;
    if GoesOn(e, After(c, e, d)) && InBlock(e, After(c, e, d), r, x) {
      LaterChannels(c, e, d, After(c, e, d), if LastOfRow(e, d) then r + 1 else r, r, x);
    }
  }

  predicate SameChannels(it: Iter, jt: Iter) {
    it.red == jt.red && it.green == jt.green && it.blue == jt.blue && it.alpha == jt.alpha
  }

  lemma BeginsAlike(c: Regs, it: Iter, jt: Iter, q: nat, r: nat)
    requires q > 0 && it.colorRed == jt.colorRed
    requires r == 0 ==> jt == ResetColor(c, jt)
    ensures SameChannels(Begins(c, it, q), Begins(c, jt, r))
  {
  }

  lemma AlongReads(c: Regs, it: Iter, jt: Iter, k: nat)
    requires SameChannels(it, jt)
    ensures Along(c, it, k) == Along(c, jt, k)
  {
    hide SlopeOf;
  }

  lemma WholeParts(c: Regs, e: Extent, d: Drawing)
    requires Whole(c, e, d)
    ensures Shade(c) && !CiClamp(c) && Gouraud(c) && d.Drawing? && ValidGfx(c, d.g) && ValidRegs(c)
    ensures |d.g.fb| == FB_W * FB_H && Span(e, d.x) >= 1 && d.x + Span(e, d.x) <= e.endX
  {
    hide ValidShift, WholeRows;
  }

  /** No word is written twice. */
  lemma OneHit(c: Regs, e: Extent, d: Drawing, r: nat, x: int, q: nat, z: int, a: nat)
    requires Whole(c, e, d) && InBlock(e, d, r, x) && InBlock(e, d, q, z)
    ensures ValidRegs(c)
    ensures Hit(c, e, d, r, x, a) && Hit(c, e, d, q, z, a) ==> r == q && x == z
  {
    WholeParts(c, e, d);
    hide ValidRegs, ValidShift, Row, Rows, Lane, SpotIs, Whole;
    if Hit(c, e, d, r, x, a) && Hit(c, e, d, q, z, a) {
      SpotsApart(c, x, Row(e, d.y, r), z, Row(e, d.y, q), a);
      RowsApart(e, d.y, r, q);
    }
  }

  lemma FirstHit(c: Regs, e: Extent, d: Drawing, x: int, a: nat)
    requires Whole(c, e, d) && InBlock(e, d, 0, x) && x < d.x + Span(e, d.x)
    ensures ValidRegs(c) && Hit(c, e, d, 0, x, a) == LaneInks(c, d.x, x - d.x, d.y, a)
    ensures Ink(c, e, d, 0, x) == Tint(c, d.g.it, x - d.x, x - d.x + 1, x, d.y)
  {
    hide ValidRegs, ValidShift, SpotIs, Gouraud, WholeRows, Tint;
    RowsTurn(e, d.y);
  }

  /** Word a of board q is that of board d under the colour of the one pixel that writes it, if any. */
  ghost predicate Inks(c: Regs, e: Extent, d: Drawing, q: Drawing, a: nat)
    requires ValidRegs(c) && d.Drawing? && q.Drawing? && a < |d.g.fb| && a < |q.g.fb|
  {
    && (forall r: nat, x :: InBlock(e, d, r, x) && Hit(c, e, d, r, x, a) ==>
          q.g.fb[a] == RbWrite(c.rb, d.g.fb[a], ToBits(Ink(c, e, d, r, x))))
    && ((forall r: nat, x :: InBlock(e, d, r, x) ==> !Hit(c, e, d, r, x, a)) ==> q.g.fb[a] == d.g.fb[a])
  }

  /** The board after the segment becomes q: by the rest of the draw, or at once. */
  ghost predicate Finishes(c: Regs, e: Extent, d: Drawing, q: Drawing, a: nat)
    requires Whole(c, e, d) && a < FB_W * FB_H
  {
    WholeParts(c, e, d);
    var t := After(c, e, d);
    && t.Drawing? && q.Drawing? && |q.g.fb| == |t.g.fb| == FB_W * FB_H
    && if GoesOn(e, t) then Inks(c, e, t, q, a) else q == t
  }

  predicate InSegment(e: Extent, d: Drawing, x: int)
    requires d.Drawing?
  {
    d.x <= x < d.x + Span(e, d.x) && x < e.endX
  }

  lemma SegmentIn(e: Extent, d: Drawing, x: int)
    requires d.Drawing? && InSegment(e, d, x)
    ensures InBlock(e, d, 0, x)
  {
  }

  /** The segment's own pixels. */
  lemma SegmentHits(c: Regs, e: Extent, d: Drawing, a: nat)
    requires Whole(c, e, d) && a < FB_W * FB_H
    ensures ValidGfx(c, d.g) && ValidRegs(c) && After(c, e, d).Drawing? && |After(c, e, d).g.fb| == |d.g.fb| == FB_W * FB_H
    ensures forall x :: InSegment(e, d, x) && InBlock(e, d, 0, x) && Hit(c, e, d, 0, x, a) ==>
      After(c, e, d).g.fb[a] == RbWrite(c.rb, d.g.fb[a], ToBits(Ink(c, e, d, 0, x)))
    ensures (forall x :: InSegment(e, d, x) && InBlock(e, d, 0, x) ==> !Hit(c, e, d, 0, x, a)) ==>
      After(c, e, d).g.fb[a] == d.g.fb[a]
  {
    hide Whole, ValidGfx, ValidRegs, ValidShift, DrawRow, Span, ResetColor, After, Hit, LaneInks, Tint, Ink, RbWrite, ToBits,
      Gouraud, InBlock, LaneShade, GoesOn, LastOfRow, StepY, Rows;
    WholeParts(c, e, d);
    AfterParts(c, e, d);
    SegmentInks(c, d.g, d.x, d.y, Span(e, d.x), a);
    forall x | InSegment(e, d, x)
      ensures InBlock(e, d, 0, x)
      ensures Hit(c, e, d, 0, x, a) == LaneInks(c, d.x, x - d.x, d.y, a)
      ensures Ink(c, e, d, 0, x) == Tint(c, d.g.it, x - d.x, x - d.x + 1, x, d.y)
    {
      SegmentIn(e, d, x);
      FirstHit(c, e, d, x, a);
    }
    if forall x :: InSegment(e, d, x) && InBlock(e, d, 0, x) ==> !Hit(c, e, d, 0, x, a) {
      forall k: nat | k < Span(e, d.x) ensures !LaneInks(c, d.x, k, d.y, a) {
        assert InSegment(e, d, d.x + k);
      }
    }
  }

  /** A pixel of the draw lands: of its first segment, or of what follows it. */
  lemma HitLands(c: Regs, e: Extent, d: Drawing, q: Drawing, r: nat, x: int, a: nat)
    requires Whole(c, e, d) && a < FB_W * FB_H && InBlock(e, d, r, x)
    ensures ValidRegs(c) && |d.g.fb| == FB_W * FB_H && (Finishes(c, e, d, q, a) ==> q.Drawing? && |q.g.fb| == FB_W * FB_H)
    ensures Finishes(c, e, d, q, a) && Hit(c, e, d, r, x, a) ==> q.g.fb[a] == RbWrite(c.rb, d.g.fb[a], ToBits(Ink(c, e, d, r, x)))
  {
    hide Whole, ValidGfx, ValidRegs, ValidShift, Span, ResetColor, After, Hit, Ink, RbWrite, ToBits, Carries,
      Gouraud, InBlock, GoesOn, StepY, Rows, Row, Lane, RowStart;
    WholeParts(c, e, d);
    Carried(c, e, d);
    SegmentHits(c, e, d, a);
    var t := After(c, e, d);
    if Finishes(c, e, d, q, a) && Hit(c, e, d, r, x, a) {
      if r == 0 && InSegment(e, d, x) {
        if GoesOn(e, t) {
          forall z, w: nat | InBlock(e, t, w, z) ensures !Hit(c, e, t, w, z, a) {
            LaterInk(c, e, d, w, z, a);
            OneHit(c, e, d, 0, x, if LastOfRow(e, d) then w + 1 else w, z, a);
          }
        }
      } else {
        BlockStarts(e, d, r, x);
        Covered(c, e, d, r, x);
        LaterInk(c, e, d, if LastOfRow(e, d) then r - 1 else r, x, a);
        forall z | InSegment(e, d, z) && InBlock(e, d, 0, z) ensures !Hit(c, e, d, 0, z, a) {
          OneHit(c, e, d, r, x, 0, z, a);
        }
      }
    }
  }

  lemma BlockStarts(e: Extent, d: Drawing, r: nat, x: int)
    requires d.Drawing? && InBlock(e, d, r, x)
    ensures r == 0 && !InSegment(e, d, x) ==> x >= d.x + Span(e, d.x)
  {
  }

  /** A word that no pixel of the draw writes stays. */
  lemma NoneKept(c: Regs, e: Extent, d: Drawing, q: Drawing, a: nat)
    requires Whole(c, e, d) && a < FB_W * FB_H
    ensures ValidRegs(c) && |d.g.fb| == FB_W * FB_H && (Finishes(c, e, d, q, a) ==> q.Drawing? && |q.g.fb| == FB_W * FB_H)
    ensures Finishes(c, e, d, q, a) && (forall r: nat, x :: InBlock(e, d, r, x) ==> !Hit(c, e, d, r, x, a)) ==> q.g.fb[a] == d.g.fb[a]
  {
    hide Whole, ValidGfx, ValidRegs, ValidShift, Span, ResetColor, After, Hit, Ink, RbWrite, ToBits, Carries,
      Gouraud, InBlock, GoesOn, StepY, Rows, Row, Lane, RowStart;
    WholeParts(c, e, d);
    Carried(c, e, d);
    SegmentHits(c, e, d, a);
    var t := After(c, e, d);
    if Finishes(c, e, d, q, a) && GoesOn(e, t) && forall r: nat, x :: InBlock(e, d, r, x) ==> !Hit(c, e, d, r, x, a) {
      forall z, w: nat | InBlock(e, t, w, z) ensures !Hit(c, e, t, w, z, a) {
        LaterInk(c, e, d, w, z, a);
      }
    }
  }

  /** What the draw leaves in a word, by the pixel loop. */
  lemma {:induction false} BlockInks(c: Regs, e: Extent, d: Drawing, a: nat)
    requires Whole(c, e, d) && a < FB_W * FB_H
    ensures ValidGfx(c, d.g) && ValidRegs(c) && var q := Draws(c, e, true, d);
      q.Drawing? && |d.g.fb| == |q.g.fb| == FB_W * FB_H && Inks(c, e, d, q, a)
    decreases RowsLeft(e, d), ColumnsLeft(e, d)
  {
    hide Whole, ValidGfx, ValidRegs, ValidShift, Segment, Turn, GoesOn, RowsLeft, ColumnsLeft, Hit, Ink, InBlock, RbWrite, ToBits,
      Span, StepY, Rows, LastOfRow;
    WholeParts(c, e, d);
    AfterParts(c, e, d);
    TurnEnds(c, e, true, d);
    var t, q := After(c, e, d), Draws(c, e, true, d);
    if GoesOn(e, t) {
      BlockInks(c, e, t, a);
    }
    assert Finishes(c, e, d, q, a);
    forall r: nat, x | InBlock(e, d, r, x) && Hit(c, e, d, r, x, a)
      ensures q.g.fb[a] == RbWrite(c.rb, d.g.fb[a], ToBits(Ink(c, e, d, r, x)))
    {
      HitLands(c, e, d, q, r, x, a);
    }
    NoneKept(c, e, d, q, a);
  }

  lemma KernelToo(c: Regs, e: Extent, scalar: bool, d: Drawing)
    requires Whole(c, e, d)
    ensures d.Drawing? && ValidGfx(c, d.g)
    ensures Draws(c, e, scalar, d).Drawing? ==> Draws(c, e, scalar, d) == Draws(c, e, true, d)
  {
    hide Draws, Visited, ValidGfx, WholeRows, LosesAt, DeclinesAt, KeepsStart, Lanes, LaneShade, Declines;
    KernelDrawsTheSame(c, e, d);
  }

  /** The word of a pixel of the block. */
  lemma SpotAfter(c: Regs, e: Extent, d: Drawing, r: nat, x: i16)
    requires Whole(c, e, d) && InBlock(e, d, r, x)
    ensures ValidGfx(c, d.g) && ValidRegs(c) && |d.g.fb| == FB_W * FB_H && Draws(c, e, true, d).Drawing?
    ensures var (q, y) := (Draws(c, e, true, d), Row(e, d.y, r));
      ClipPass(c, x, y) ==>
        var a := Spot(c, x, y);
        && |q.g.fb| == FB_W * FB_H
        && q.g.fb[a] == if Pattern(c)[31 - Lane(e, RowStart(e, d, r), x) % 32] || Opaque(c) then
                          RbWrite(c.rb, d.g.fb[a], ToBits(Ink(c, e, d, r, x))) else d.g.fb[a]
  {
    hide Whole, ValidGfx, ValidRegs, ValidShift, Draws, RbWrite, ToBits, Rows, Row, Lane, Ink, Opaque, Pattern, ClipPass, InBlock, ToI16;
    WholeParts(c, e, d);
    var y := Row(e, d.y, r);
    BlockInks(c, e, d, 0);
    if ClipPass(c, x, y) {
      var a := Spot(c, x, y);
      BlockInks(c, e, d, a);
      if !Hit(c, e, d, r, x, a) {
        forall w: nat, z | InBlock(e, d, w, z) ensures !Hit(c, e, d, w, z, a) {
          if Hit(c, e, d, w, z, a) {
            ColumnFits(e, d, w, z);
            SpotsApart(c, x, y, z, Row(e, d.y, w), a);
            SameRow(e, d, r, x, w, z);
          }
        }
      }
    }
  }

  lemma ColumnFits(e: Extent, d: Drawing, r: nat, x: int)
    requires d.Drawing? && InBlock(e, d, r, x)
    ensures -0x8000 <= x < 0x8000
  {
  }

  lemma SameRow(e: Extent, d: Drawing, r: nat, x: int, q: nat, z: int)
    requires d.Drawing? && InBlock(e, d, r, x) && InBlock(e, d, q, z) && Row(e, d.y, r) == Row(e, d.y, q)
    ensures r == q
  {
    RowsApart(e, d.y, r, q);
  }

  lemma InkIs(c: Regs, e: Extent, d: Drawing, r: nat, x: i16)
    requires ValidRegs(c) && d.Drawing? && InBlock(e, d, r, x)
    ensures var (red, green, blue, alpha) := if r == 0 then (d.g.it.red, d.g.it.green, d.g.it.blue, d.g.it.alpha)
                                             else (d.g.it.colorRed, c.colorGreen, c.colorBlue, c.colorAlpha);
      var (y, start) := (Row(e, d.y, r), RowStart(e, d, r));
      var k := x - start + 1;
      Ink(c, e, d, r, x) ==
      if Pattern(c)[31 - Lane(e, start, x) % 32] then
        RgbFrom(c, (red + k * SlopeOf(c.slopeRed, 0x80_0000)) % U32, (green + k * SlopeOf(c.slopeGreen, 0x8_0000)) % U32,
                (blue + k * SlopeOf(c.slopeBlue, 0x8_0000)) % U32, (alpha + k * SlopeOf(c.slopeAlpha, 0x8_0000)) % U32, x, y)
      else c.colorBack
  {
    hide ValidRegs, Row, Lane, RgbFrom, SlopeOf, Pattern, Rows;
  }

  /** The pattern bit of a lane, bit 31 first: of one pattern register, the other, or neither. */
  predicate Stippled(c: Regs, lane: nat) {
    var bit := 31 - lane % 32;
    if c.drawMode0[12] then c.zPattern[bit] else c.drawMode0[13] ==> c.lsPattern[bit]
  }

  lemma StippledIs(c: Regs)
    ensures forall lane: nat :: Stippled(c, lane) == Pattern(c)[31 - lane % 32]
  {
  }

  /** A shaded block, by kernel or loop: the pixel of row r in column x, if the clip lets it through, is
      drawn where the pattern is set in the colour of the row's start, red, green, blue and alpha each one
      slope more than columns passed, modulo 2^32; in the background where it is clear and the mode
      opaque; else not at all. The rows after the first start with the colour registers. */
  lemma ShadedBlock(c: Regs, e: Extent, scalar: bool, d: Drawing, r: nat, x: i16)
    requires Whole(c, e, d) && InBlock(e, d, r, x)
    ensures ValidGfx(c, d.g) && ValidRegs(c) && |d.g.fb| == FB_W * FB_H
    ensures var (q, y) := (Draws(c, e, scalar, d), Row(e, d.y, r));
      q.Drawing? && ClipPass(c, x, y) ==>
        var (start, a) := (RowStart(e, d, r), WindowY(c, y) * FB_W + WindowX(c, x));
        var (red, green, blue, alpha) := if r == 0 then (d.g.it.red, d.g.it.green, d.g.it.blue, d.g.it.alpha)
                                         else (d.g.it.colorRed, c.colorGreen, c.colorBlue, c.colorAlpha);
        var k := x - start + 1;
        && 0 <= a < FB_W * FB_H && |q.g.fb| == FB_W * FB_H
        && q.g.fb[a] ==
           if Stippled(c, Lane(e, start, x)) then
             RbWrite(c.rb, d.g.fb[a], ToBits(RgbFrom(c,
               (red + k * SlopeOf(c.slopeRed, 0x80_0000)) % U32, (green + k * SlopeOf(c.slopeGreen, 0x8_0000)) % U32,
               (blue + k * SlopeOf(c.slopeBlue, 0x8_0000)) % U32, (alpha + k * SlopeOf(c.slopeAlpha, 0x8_0000)) % U32,
               x, y)))
           else if c.drawMode0[16] || c.drawMode0[17] then RbWrite(c.rb, d.g.fb[a], ToBits(c.colorBack))
           else d.g.fb[a]
  {
    hide Whole, ValidGfx, ValidRegs, ValidShift, Draws, RbWrite, ToBits, Rows, Row, Lane, RgbFrom, SlopeOf, Pattern, ClipPass,
      InBlock, ToI16;
    WholeParts(c, e, d);
    KernelToo(c, e, scalar, d);
    var y := Row(e, d.y, r);
    if ClipPass(c, x, y) {
      SpotAfter(c, e, d, r, x);
      InkIs(c, e, d, r, x);
      StippledIs(c);
    }
  }

  /** Every other word stays. */
  lemma ElsewhereKept(c: Regs, e: Extent, scalar: bool, d: Drawing, a: nat)
    requires Whole(c, e, d) && a < FB_W * FB_H
    ensures ValidGfx(c, d.g) && ValidRegs(c) && |d.g.fb| == FB_W * FB_H
    ensures var q := Draws(c, e, scalar, d);
      q.Drawing? && (forall r: nat, x :: InBlock(e, d, r, x) ==> !SpotIs(c, x, Row(e, d.y, r), a)) ==>
        |q.g.fb| == FB_W * FB_H && q.g.fb[a] == d.g.fb[a]
  {
    hide Whole, ValidGfx, ValidRegs, ValidShift, Draws, RbWrite, ToBits, Rows, Row, Lane, Ink, Opaque, Pattern, SpotIs, InBlock;
    WholeParts(c, e, d);
    KernelToo(c, e, scalar, d);
    BlockInks(c, e, d, a);
    if forall r: nat, x :: InBlock(e, d, r, x) ==> !SpotIs(c, x, Row(e, d.y, r), a) {
      forall r: nat, x | InBlock(e, d, r, x) ensures !Hit(c, e, d, r, x, a) {
        assert !SpotIs(c, x, Row(e, d.y, r), a);
      }
    }
  }

  /** The draw ends at the start of the row after its last, the channels at the colour registers. */
  lemma {:induction false} BlockEnds(c: Regs, e: Extent, d: Drawing)
    requires Whole(c, e, d)
    ensures ValidGfx(c, d.g)
    ensures var q := Draws(c, e, true, d);
      && q.Drawing? && q.x == e.xSave && q.y == e.endY
      && q.g.it.red == q.g.it.colorRed == d.g.it.colorRed && q.g.it.green == c.colorGreen
      && q.g.it.blue == c.colorBlue && q.g.it.alpha == c.colorAlpha
    decreases RowsLeft(e, d), ColumnsLeft(e, d)
  {
    hide Whole, ValidGfx, ValidRegs, ValidShift, Segment, Turn, RowsLeft, ColumnsLeft, Span, LaneShade, Rows, StepY;
    WholeParts(c, e, d);
    AfterParts(c, e, d);
    TurnEnds(c, e, true, d);
    Carried(c, e, d);
    StartStays(c, d.g.it, Span(e, d.x));
    RowsTurn(e, d.y);
    var t := After(c, e, d);
    if GoesOn(e, t) {
      BlockEnds(c, e, t);
    }
  }

  // ---- the limits ----

  /** A packed host draw takes as many pixels a segment as the port's 32 or 64 bits hold. */
  lemma HostFits(double: bool, depth: nat)
    requires depth < 4
    ensures MAX_HOST[if double then 1 else 0][depth] == (if double then 64 else 32) / HostUnit(depth)
    ensures 1 <= MAX_HOST[if double then 1 else 0][depth] <= 8
  {
  }

  lemma HostDepth(c: Regs)
    requires ValidRegs(c)
    ensures c.hostdepth < 4
  {
  }

  /** A block's limits: to the column after its end, rows up to the one after its end, segments of 32
      pixels at most if the length is limited and of a host word at most if packed. */
  lemma BlockLimits(c: Regs, startX: i16, xEnd: i16, yEnd: i16, xSave: i16, up: bool)
    requires ValidRegs(c) && startX <= xEnd < 0x7fff
    ensures var e := Limits(c, startX, xEnd, yEnd, xSave, true, up);
      var width := xEnd + 1 - startX;
      var segment := if c.drawMode0[15] && width >= 32 then 32 else width;
      && e.endX == xEnd + 1 && e.xSave == xSave && e.block && e.up == up && e.stopY == c.drawMode0[9]
      && e.endY == ToI16(if up then yEnd - 1 else yEnd + 1)
      && if c.colorHost && c.rwpacked then
           e.stopX && e.primEnd == startX + Min(segment, (if c.rwdouble then 64 else 32) / HostUnit(c.hostdepth))
         else e.stopX == c.drawMode0[8] && e.primEnd == startX + segment
  {
    hide HostUnit, ValidRegs, ToI16;
    HostDepth(c);
    HostFits(c.rwdouble, c.hostdepth);
    var most := MAX_HOST[if c.rwdouble then 1 else 0][c.hostdepth];
    WholeI16(xEnd + 1);
    if xEnd + 1 - startX >= 32 {
      WholeI16(startX + 32);
    }
    if xEnd + 1 - startX > most {
      WholeI16(startX + most);
    }
  }
}
