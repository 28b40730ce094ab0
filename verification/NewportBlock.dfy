/** Whole span and block draws going right, row segment by row segment, with the span kernel and
    without it. */
module NewportBlock {
  import opened Words
  import opened PixelOps
  import opened Newport
  import opened NewportRow
  import opened NewportSpan
  import NewportCopy

  /** The limits a draw computes before its first segment. */
  datatype Extent = Extent(primEnd: i16, endX: i16, endY: i16, xSave: i16, block: bool, stopX: bool, stopY: bool, up: bool)

  const MAX_HOST: seq<seq<nat>> := [[4, 4, 2, 1], [8, 8, 4, 2]]

  function Limits(c: Regs, startX: i16, xEnd: i16, yEnd: i16, xSave: i16, block: bool, up: bool): (e: Extent)
    requires ValidRegs(c)
    ensures e.block == block && e.xSave == xSave && (block ==> e.endY == ToI16(NewportCopy.Along(yEnd, up, 1)))
  {
    var endX := ToI16(xEnd + 1);
    var endY := if !block then yEnd else ToI16(NewportCopy.Along(yEnd, up, 1));
    var long := c.drawMode0[15] && if block then endX - startX >= 32 else Abs(endX - startX) > 32;
    var prim := if long then ToI16(startX + 32) else endX;
    var packed := c.colorHost && c.rwpacked;
    var most := MAX_HOST[if c.rwdouble then 1 else 0][c.hostdepth];
    Extent(if packed && Abs(prim - startX) > most then ToI16(startX + most) else prim, endX, endY, xSave, block,
           c.drawMode0[8] || packed, c.drawMode0[9], up)
  }

  /** Shade iterators back to the start colour at the end of a row. */
  function ResetColor(c: Regs, it: Iter): Iter {
    it.(red := it.colorRed, alpha := c.colorAlpha, green := c.colorGreen, blue := c.colorBlue)
  }

  /** The board and the cursor, or a host access outside the framebuffer. */
  datatype Drawing = Drawing(g: Gfx, x: i16, y: i16) | LostFrame

  predicate ValidDrawing(c: Regs, d: Drawing) {
    d.Drawing? ==> ValidGfx(c, d.g)
  }

  /** One row segment, by the kernel where it applies unless `scalar`. */
  function Segment(c: Regs, e: Extent, scalar: bool, d: Drawing): (r: Drawing)
    requires d.Drawing? && ValidGfx(c, d.g)
    ensures ValidDrawing(c, r)
    ensures r.Drawing? ==> r.y == d.y && r.x == ToI16(d.x + Lanes(d.x, e.primEnd, e.endX, e.stopX))
  {
    var n := Lanes(d.x, e.primEnd, e.endX, e.stopX);
    var kernel := !scalar && !Declines(c, d.x, n);
    if kernel && StartsBeforeFrame(c, d.x, d.y, n) then LostFrame
    else Drawing(if kernel then SpanRow(c, d.g, d.x, d.y, n) else DrawRow(c, d.g, d.x, d.y, n), ToI16(d.x + n), d.y)
  }

  function StepY(e: Extent, y: i16): i16 {
    ToI16(NewportCopy.Along(y, e.up, 1))
  }

  /** What follows a segment: at the end of a row the colours reset and a block goes to its next row. */
  function Turn(c: Regs, e: Extent, d: Drawing): (r: Drawing)
    requires ValidDrawing(c, d)
    ensures ValidDrawing(c, r)
  {
    if d.LostFrame? || d.x < e.endX then d
    else
      var g := d.g.(it := ResetColor(c, d.g.it));
      if e.block then Drawing(g, e.xSave, StepY(e, d.y)) else Drawing(g, d.x, d.y)
  }

  predicate GoesOn(e: Extent, d: Drawing) {
    d.Drawing? && e.block && d.y != e.endY && e.stopY
  }

  function RowsLeft(e: Extent, d: Drawing): nat {
    if d.LostFrame? then 0 else NewportCopy.StepsTo(d.y, e.endY, e.up)
  }

  function ColumnsLeft(e: Extent, d: Drawing): nat {
    if d.LostFrame? then 0 else if d.x < e.endX then e.endX - d.x else 0x20000
  }

  /** A draw ends: each segment brings its end of row nearer, or the draw its last row. */
  lemma TurnEnds(c: Regs, e: Extent, scalar: bool, d: Drawing)
    requires d.Drawing? && ValidGfx(c, d.g)
    ensures var t := Turn(c, e, Segment(c, e, scalar, d));
      GoesOn(e, t) ==>
        || RowsLeft(e, t) < RowsLeft(e, d)
        || (RowsLeft(e, t) == RowsLeft(e, d) && ColumnsLeft(e, t) < ColumnsLeft(e, d))
  {
    hide DrawRow, SpanRow, StartsBeforeFrame, Declines, ValidRegs, ValidShift, ResetColor, Ahead, Lanes;
    var s := Segment(c, e, scalar, d);
    if s.Drawing? {
      if s.x < e.endX {
        SegmentNearer(d.x, e.primEnd, e.endX, e.stopX);
      } else if e.block && StepY(e, d.y) != e.endY {
        NewportCopy.StepCloser(d.y, e.endY, e.up);
      }
    }
  }

  /** A segment that stops short of the end column has not run past it. */
  lemma SegmentNearer(x: i16, primEnd: i16, endX: i16, stop: bool)
    requires ToI16(x + Lanes(x, primEnd, endX, stop)) < endX
    ensures var next := ToI16(x + Lanes(x, primEnd, endX, stop));
      endX - next < if x < endX then endX - x else 0x20000
  {
  }

  /** span_or_block after its limits are known: segments until the last row. */
  function Draws(c: Regs, e: Extent, scalar: bool, d: Drawing): (r: Drawing)
    requires d.Drawing? && ValidGfx(c, d.g)
    ensures ValidDrawing(c, r)
    decreases RowsLeft(e, d), ColumnsLeft(e, d)
  {
    var t := Turn(c, e, Segment(c, e, scalar, d));
    TurnEnds(c, e, scalar, d);
    if GoesOn(e, t) then Draws(c, e, scalar, t) else t
  }

  // ---- the draw with the kernel and without it ----

  /** The states in which the per-pixel draw begins its segments. */
  function Visited(c: Regs, e: Extent, d: Drawing): (s: seq<Drawing>)
    requires d.Drawing? && ValidGfx(c, d.g)
    ensures forall v :: v in s ==> v.Drawing?
    decreases RowsLeft(e, d), ColumnsLeft(e, d)
  {
    var t := Turn(c, e, Segment(c, e, true, d));
    TurnEnds(c, e, true, d);
    [d] + if GoesOn(e, t) then Visited(c, e, t) else []
  }

  /** The kernel takes this segment and writes it outside the framebuffer. */
  predicate LosesAt(c: Regs, e: Extent, d: Drawing)
    requires d.Drawing? && ValidRegs(c)
  {
    var n := Lanes(d.x, e.primEnd, e.endX, e.stopX);
    !Declines(c, d.x, n) && StartsBeforeFrame(c, d.x, d.y, n)
  }

  /** Two boards that show alike: all but the colour iterators agree. */
  predicate ShowsAlike(g: Gfx, h: Gfx) {
    g.fb == h.fb && g.pixels == h.pixels && g.it.hostShift == h.it.hostShift
  }

  /** The start colour after a shade step: colour-index draws may clamp it. */
  function StepStart(c: Regs, colorRed: u32): u32 {
    if Shade(c) && CiClamp(c) && !RgbMode(c) then ClampCi(c, colorRed) else colorRed
  }

  predicate KeepsStart(c: Regs, it: Iter) {
    StepStart(c, it.colorRed) == it.colorRed
  }

  lemma StepsOnce(c: Regs, colorRed: u32)
    ensures StepStart(c, StepStart(c, colorRed)) == StepStart(c, colorRed)
  {
  }

  /** Where shade steps are skipped no pixel shows the iterators. */
  lemma StepInStep(c: Regs, g: Gfx, h: Gfx, x: int, y: int, k: nat)
    requires ValidGfx(c, g) && ValidGfx(c, h) && ShowsAlike(g, h) && SkipsShade(c)
    ensures ShowsAlike(PixelStep(c, g, x, y, k), PixelStep(c, h, x, y, k))
    ensures PixelStep(c, g, x, y, k).it.colorRed == StepStart(c, g.it.colorRed)
  {
    hide ClampIter, ClampCi, HostPixel, NextShift, DefaultColor, RgbFrom, ToBits, ClipPass, RbWrite, ToU32, Pat, ValidRegs, ValidShift,
      Step24, Step20;
  }

  lemma {:induction false} RowInStep(c: Regs, g: Gfx, h: Gfx, x: int, y: int, n: nat)
    requires ValidGfx(c, g) && ValidGfx(c, h) && ShowsAlike(g, h) && SkipsShade(c)
    ensures ShowsAlike(DrawRow(c, g, x, y, n), DrawRow(c, h, x, y, n))
    ensures DrawRow(c, g, x, y, n).it.colorRed == if n == 0 then g.it.colorRed else StepStart(c, g.it.colorRed)
  {
    hide PixelStep, StepStart, ValidRegs, ValidShift, ToI16;
    if n > 0 {
      RowInStep(c, g, h, x, y, n - 1);
      StepInStep(c, DrawRow(c, g, x, y, n - 1), DrawRow(c, h, x, y, n - 1), ToI16(x + n - 1), y, n - 1);
      StepsOnce(c, g.it.colorRed);
    }
  }

  /** The kernel leaves this segment to the per-pixel loop. */
  predicate DeclinesAt(c: Regs, e: Extent, d: Drawing)
    requires d.Drawing?
  {
    Declines(c, d.x, Lanes(d.x, e.primEnd, e.endX, e.stopX))
  }

  /** How the per-pixel draw and the draw with the kernel compare on the way, from start colour o: where
      shade steps are skipped, the kernel's board has stepped it only if the per-pixel board has. */
  predicate Together(c: Regs, o: u32, d: Drawing, k: Drawing) {
    && d.Drawing? && k.Drawing? && ValidGfx(c, d.g) && ValidGfx(c, k.g)
    && if SkipsShade(c) then
         && d.x == k.x && d.y == k.y && ShowsAlike(d.g, k.g)
         && (Start(d) == o || Start(d) == StepStart(c, o)) && (Start(k) == o || Start(k) == Start(d))
       else d == k
  }

  function Start(d: Drawing): u32
    requires d.Drawing?
  {
    d.g.it.colorRed
  }

  lemma SegmentTogether(c: Regs, e: Extent, o: u32, d: Drawing, k: Drawing)
    requires Together(c, o, d, k)
    ensures var (s, q) := (Segment(c, e, true, d), Segment(c, e, false, k));
      && (q.LostFrame? <==> LosesAt(c, e, d)) && s.Drawing?
      && (q.Drawing? ==> Together(c, o, s, q))
      && (q.Drawing? && SkipsShade(c) ==>
            Start(s) == StepStart(c, o) && Start(q) == if DeclinesAt(c, e, d) then StepStart(c, o) else Start(k))
  {
    hide DrawRow, StartsBeforeFrame, Declines, ValidRegs, ValidShift, Lanes, StepStart;
    if SkipsShade(c) {
      var n := Lanes(d.x, e.primEnd, e.endX, e.stopX);
      StepsOnce(c, o);
      RowInStep(c, d.g, k.g, d.x, d.y, n);
      RowInStep(c, k.g, d.g, d.x, d.y, n);
    }
  }

  lemma TurnTogether(c: Regs, e: Extent, o: u32, s: Drawing, q: Drawing)
    requires Together(c, o, s, q)
    ensures var (t, u) := (Turn(c, e, s), Turn(c, e, q));
      && Together(c, o, t, u) && (GoesOn(e, t) <==> GoesOn(e, u)) && Start(t) == Start(s) && Start(u) == Start(q)
      && (s.x >= e.endX && Start(s) == Start(q) ==> t == u)
  {
    hide StepStart, ValidRegs, ValidShift;
  }

  /** The draw ends at the end of a row. */
  predicate EndsRow(c: Regs, e: Extent, d: Drawing)
    requires d.Drawing? && ValidGfx(c, d.g)
    decreases RowsLeft(e, d), ColumnsLeft(e, d)
  {
    var s := Segment(c, e, true, d);
    TurnEnds(c, e, true, d);
    if GoesOn(e, Turn(c, e, s)) then EndsRow(c, e, Turn(c, e, s)) else s.x >= e.endX
  }

  lemma {:induction false} ScalarDraws(c: Regs, e: Extent, d: Drawing)
    requires d.Drawing? && ValidGfx(c, d.g)
    ensures Draws(c, e, true, d).Drawing?
    decreases RowsLeft(e, d), ColumnsLeft(e, d)
  {
    hide DrawRow, ValidRegs, ValidShift, ResetColor, Lanes, RowsLeft, ColumnsLeft;
    TurnEnds(c, e, true, d);
    var t := Turn(c, e, Segment(c, e, true, d));
    if GoesOn(e, t) {
      ScalarDraws(c, e, t);
    }
  }

  /** Where shade steps are skipped, the kernel's board steps the start colour in the first segment left
      to the loop, and the boards agree at the end of a row once it has. */
  lemma {:induction false} DrawsTogether(c: Regs, e: Extent, o: u32, d: Drawing, k: Drawing)
    requires Together(c, o, d, k)
    ensures var (a, b) := (Draws(c, e, true, d), Draws(c, e, false, k));
      && (b.LostFrame? <==> exists v :: v in Visited(c, e, d) && LosesAt(c, e, v))
      && (b.Drawing? ==> Together(c, o, a, b))
      && (b.Drawing? && SkipsShade(c) ==>
            && Start(a) == StepStart(c, o)
            && (Start(b) == StepStart(c, o) <==>
                  Start(k) == StepStart(c, o) || exists v :: v in Visited(c, e, d) && DeclinesAt(c, e, v))
            && (Start(b) == Start(a) && EndsRow(c, e, d) ==> a == b))
    decreases RowsLeft(e, d), ColumnsLeft(e, d)
  {
    TogetherParts(c, o, d, k);
    hide Together, Segment, Turn, GoesOn, LosesAt, DeclinesAt, ValidGfx, RowsLeft, ColumnsLeft, Start, StepStart, SkipsShade;
    var (s, q) := (Segment(c, e, true, d), Segment(c, e, false, k));
    SegmentTogether(c, e, o, d, k);
    assert d in Visited(c, e, d);
    TurnEnds(c, e, true, d);
    if q.LostFrame? {
      LostTurn(c, e);
    } else {
      TurnTogether(c, e, o, s, q);
      var (t, u) := (Turn(c, e, s), Turn(c, e, q));
      if GoesOn(e, t) {
        DrawsTogether(c, e, o, t, u);
        assert Visited(c, e, d) == [d] + Visited(c, e, t);
      } else {
        assert Visited(c, e, d) == [d];
      }
    }
  }

  lemma LostTurn(c: Regs, e: Extent)
    ensures Turn(c, e, LostFrame) == LostFrame && !GoesOn(e, LostFrame)
  {
  }

  lemma TogetherParts(c: Regs, o: u32, d: Drawing, k: Drawing)
    requires Together(c, o, d, k)
    ensures d.Drawing? && k.Drawing? && ValidGfx(c, d.g) && ValidGfx(c, k.g) && d.x == k.x && d.y == k.y
    ensures !SkipsShade(c) ==> d == k
  {
  }

  /** Known before the draw: it has more rows to go, or its first segment reaches the end of its row. */
  predicate WholeRows(e: Extent, d: Drawing)
    requires d.Drawing?
  {
    (e.block && e.stopY && d.y != e.endY) || ToI16(d.x + Lanes(d.x, e.primEnd, e.endX, e.stopX)) >= e.endX
  }

  lemma {:induction false} EndsRowIff(c: Regs, e: Extent, d: Drawing)
    requires d.Drawing? && ValidGfx(c, d.g)
    ensures EndsRow(c, e, d) <==> WholeRows(e, d)
    decreases RowsLeft(e, d), ColumnsLeft(e, d)
  {
    hide DrawRow, ValidRegs, ValidShift, ResetColor, Lanes, RowsLeft, ColumnsLeft, Declines, StartsBeforeFrame, ToI16;
    TurnEnds(c, e, true, d);
    var t := Turn(c, e, Segment(c, e, true, d));
    if GoesOn(e, t) {
      EndsRowIff(c, e, t);
    }
  }

  /** A draw of whole rows right of the framebuffer's edge never leaves it. */
  predicate InWindow(c: Regs, e: Extent, d: Drawing)
    requires d.Drawing?
  {
    && 0 <= d.x + c.xWindow - 0x1000 && d.x < e.endX
    && (e.block ==> 0 <= e.xSave + c.xWindow - 0x1000 && e.xSave < e.endX)
  }

  lemma SegmentAdvances(x: i16, primEnd: i16, endX: i16, stop: bool)
    requires x < endX
    ensures x <= ToI16(x + Lanes(x, primEnd, endX, stop)) <= endX
  {
  }

  lemma {:induction false} NeverLost(c: Regs, e: Extent, d: Drawing)
    requires d.Drawing? && ValidGfx(c, d.g) && InWindow(c, e, d)
    ensures forall v :: v in Visited(c, e, d) ==> !LosesAt(c, e, v)
    decreases RowsLeft(e, d), ColumnsLeft(e, d)
  {
    hide DrawRow, ValidRegs, ValidShift, ResetColor, Lanes, RowsLeft, ColumnsLeft, Declines, ToI16, RowOk, VisibleFrom, VisibleTo;
    TurnEnds(c, e, true, d);
    SegmentAdvances(d.x, e.primEnd, e.endX, e.stopX);
    var t := Turn(c, e, Segment(c, e, true, d));
    RowInside(c, d.x, d.y, Lanes(d.x, e.primEnd, e.endX, e.stopX));
    if GoesOn(e, t) {
      NeverLost(c, e, t);
    }
  }

  lemma RowInside(c: Regs, x: i16, y: i16, n: nat)
    requires ValidRegs(c) && 0 <= x + c.xWindow - 0x1000
    ensures !StartsBeforeFrame(c, x, y, n)
  {
  }

  /** A whole draw with the kernel is lost exactly when the kernel takes a segment that starts before the
      framebuffer. If not, it leaves what the per-pixel draw leaves, exactly unless it has skipped shade
      steps that nothing after them hides: those of a draw whose only segment ends inside its row, and,
      where a step clamps the start colour, those of a draw without a segment left to the loop. */
  lemma KernelDrawsTheSame(c: Regs, e: Extent, d: Drawing)
    requires d.Drawing? && ValidGfx(c, d.g)
    ensures var (a, b) := (Draws(c, e, true, d), Draws(c, e, false, d));
      var n := Lanes(d.x, e.primEnd, e.endX, e.stopX);
      && a.Drawing? && (b.LostFrame? <==> exists v :: v in Visited(c, e, d) && LosesAt(c, e, v))
      && (b.Drawing? ==> (a == b <==>
            (SkipsShade(c) ==>
              if KeepsStart(c, d.g.it) then WholeRows(e, d) || Declines(c, d.x, n) || LaneShade(c, d.g.it, n) == d.g.it
              else exists v :: v in Visited(c, e, d) && DeclinesAt(c, e, v))))
  {
    hide LosesAt, DrawRow, LaneShade, ValidRegs, ValidShift, RowsLeft, ColumnsLeft, Declines, StartsBeforeFrame, Lanes, ToI16,
      StepStart, Visited, EndsRow;
    ScalarDraws(c, e, d);
    DrawsTogether(c, e, Start(d), d, d);
    EndsRowIff(c, e, d);
    var n := Lanes(d.x, e.primEnd, e.endX, e.stopX);
    if SkipsShade(c) && !WholeRows(e, d) {
      OneSegment(c, e, d);
      if !Declines(c, d.x, n) {
        TakenFits(c, d.x, n);
        SpanRowExact(c, d.g, d.x, d.y, n);
      }
    }
  }

  lemma OneSegment(c: Regs, e: Extent, d: Drawing)
    requires d.Drawing? && ValidGfx(c, d.g) && !WholeRows(e, d)
    ensures Visited(c, e, d) == [d]
  {
    hide DrawRow, ValidRegs, ValidShift, ResetColor, Lanes, RowsLeft, ColumnsLeft, Declines, StartsBeforeFrame, ToI16;
    TurnEnds(c, e, true, d);
  }

  lemma TakenFits(c: Regs, x: int, n: nat)
    requires !Declines(c, x, n)
    ensures NoWrap(c, x, n)
  {
  }

  /** So a block of whole rows right of the framebuffer's edge is drawn alike. */
  lemma WindowDrawsTheSame(c: Regs, e: Extent, d: Drawing)
    requires d.Drawing? && ValidGfx(c, d.g) && InWindow(c, e, d)
    requires SkipsShade(c) ==> KeepsStart(c, d.g.it) && WholeRows(e, d)
    ensures Draws(c, e, false, d) == Draws(c, e, true, d)
  {
    hide Visited, LosesAt, KeepsStart, Draws, LaneShade;
    NeverLost(c, e, d);
    KernelDrawsTheSame(c, e, d);
  }
}
