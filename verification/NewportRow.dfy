/** One row segment of a span or block draw, pixel by pixel: what the span kernel must equal. */
module NewportRow {
  import opened Words
  import opened PixelOps
  import opened Newport

  /** The pattern bit of lane k: bit 31 first, wrapping every 32 lanes. */
  predicate Pat(c: Regs, k: nat) {
    Pattern(c)[(31 - k) % 32]
  }

  predicate Writes(c: Regs, k: nat) {
    Pat(c, k) || Opaque(c)
  }

  function StepShade(c: Regs, it: Iter): (r: Iter)
    ensures r.hostShift == it.hostShift
  {
    if Shade(c) then IterateShade(c, it) else it
  }

  /** The colour of a pattern-set pixel that does not come from the host port. */
  function OwnColor(c: Regs, it: Iter, x: int, y: int): u32
    requires ValidRegs(c)
  {
    if (Shade(c) || RgbMode(c)) && !FastClear(c) then RgbFrom(c, it.red, it.green, it.blue, it.alpha, x, y)
    else DefaultColor(c, c.colorI)
  }

  /** One turn of the per-pixel loop: step the iterators, then draw. */
  function PixelStep(c: Regs, g: Gfx, x: int, y: int, k: nat): (r: Gfx)
    requires ValidGfx(c, g)
    ensures ValidGfx(c, r)
  {
    var it := StepShade(c, g.it);
    if Pat(c, k) then
      if c.colorHost then
        var next := it.(hostShift := NextShift(c, it.hostShift));
        OutputPixel(c, g.(it := next), x, y, ToBits(HostPixel(c, it.hostShift)))
      else OutputPixel(c, g.(it := it), x, y, ToBits(OwnColor(c, it, x, y)))
    else if Opaque(c) then OutputPixel(c, g.(it := it), x, y, ToBits(c.colorBack))
    else g.(it := it)
  }

  /** The first n pixels of a row starting at x; the cursor is a 16-bit word. */
  function DrawRow(c: Regs, g: Gfx, x: int, y: int, n: nat): (r: Gfx)
    requires ValidGfx(c, g)
    ensures ValidGfx(c, r)
  {
    if n == 0 then g else PixelStep(c, DrawRow(c, g, x, y, n - 1), ToI16(x + n - 1), y, n - 1)
  }

  // ---- how many pixels a segment has ----

  function Lanes(x: int, primEnd: int, endX: int, stop: bool): (n: nat)
    ensures 1 <= n <= 0x10000
  {
    if stop then Min(Ahead(x, primEnd), Ahead(x, endX)) else 1
  }

  lemma AheadIsFirst(x: i16, goal: i16, k: nat)
    requires 1 <= k <= Ahead(x, goal)
    ensures ToI16(x + k) == goal <==> k == Ahead(x, goal)
  {
  }

  /** The loop test after pixel n of a segment fails exactly at the last lane. */
  lemma RowTurn(x: i16, primEnd: i16, endX: i16, stop: bool, n: nat)
    requires n < Lanes(x, primEnd, endX, stop)
    ensures var next := ToI16(x + n + 1);
      (next != primEnd && next != endX && stop) <==> n + 1 < Lanes(x, primEnd, endX, stop)
  {
    hide Ahead, ToI16;
    AheadIsFirst(x, primEnd, Min(n + 1, Ahead(x, primEnd)));
    AheadIsFirst(x, endX, Min(n + 1, Ahead(x, endX)));
  }

  /** Stepping the cursor of lane n gives that of lane n + 1. */
  lemma NextX(a: int)
    ensures ToI16(ToI16(a) + 1) == ToI16(a + 1)
  {
  }

  lemma NextBit(n: nat)
    ensures ((31 - n) % 32 - 1) % 32 == (31 - (n + 1)) % 32
  {
  }

  lemma WholeI16(x: i16)
    ensures ToI16(x) == x
  {
  }

  // ---- a row, lane by lane ----

  /** The shade iterators after k steps. */
  function LaneShade(c: Regs, it: Iter, k: nat): (r: Iter)
    ensures r.hostShift == it.hostShift
  {
    if k == 0 then it else StepShade(c, LaneShade(c, it, k - 1))
  }

  /** The host shift after k lanes: one step for each pattern-set lane drawn from the host port. */
  function LaneShift(c: Regs, shift: nat, k: nat): (r: nat)
    requires ValidShift(c.hostdepth, shift)
    ensures ValidShift(c.hostdepth, r)
  {
    if k == 0 then shift
    else
      var s := LaneShift(c, shift, k - 1);
      if c.colorHost && Pat(c, k - 1) then NextShift(c, s) else s
  }

  lemma {:induction false} LaneIdle(c: Regs, it: Iter, k: nat)
    requires ValidShift(c.hostdepth, it.hostShift)
    ensures !Shade(c) ==> LaneShade(c, it, k) == it
    ensures !c.colorHost ==> LaneShift(c, it.hostShift, k) == it.hostShift
  {
    hide NextShift, ValidShift, IterateShade;
    if k > 0 {
      LaneIdle(c, it, k - 1);
    }
  }

  function LaneColor(c: Regs, it: Iter, x: int, y: int, k: nat): u32
    requires ValidRegs(c) && ValidShift(c.hostdepth, it.hostShift)
  {
    if !Pat(c, k) then c.colorBack
    else if c.colorHost then HostPixel(c, LaneShift(c, it.hostShift, k))
    else OwnColor(c, LaneShade(c, it, k + 1), x + k, y)
  }

  function WrittenLanes(c: Regs, n: nat): nat {
    if n == 0 then 0 else WrittenLanes(c, n - 1) + if Writes(c, n - 1) then 1 else 0
  }

  /** No 16-bit cursor or window coordinate of the segment wraps. */
  predicate NoWrap(c: Regs, x: int, n: nat) {
    && x + n - 1 <= 32767
    && -32768 <= x + c.xWindow - 0x1000 && x + c.xWindow - 0x1000 + n - 1 <= 32767
  }

  /** Lane k stores a pixel. */
  predicate Stores(c: Regs, x: int, y: int, k: nat)
    requires ValidRegs(c)
  {
    Writes(c, k) && ClipPass(c, x + k, y)
  }

  /** Where lane 0 of the row would be stored. */
  function RowBase(c: Regs, x: int, y: int): int {
    WindowY(c, y) * FB_W + x + c.xWindow - 0x1000
  }

  /** Framebuffer word a after the first n lanes. */
  function Cell(c: Regs, g: Gfx, x: int, y: int, n: nat, a: nat): Bits
    requires ValidGfx(c, g) && a < |g.fb|
  {
    var k := a - RowBase(c, x, y);
    if 0 <= k < n && Stores(c, x, y, k) then RbWrite(c.rb, g.fb[a], ToBits(LaneColor(c, g.it, x, y, k)))
    else g.fb[a]
  }

  /** What one turn does, given the iterators before it. */
  lemma StepIsLane(c: Regs, g: Gfx, h: Gfx, x: i16, y: i16, k: nat)
    requires ValidGfx(c, g) && ValidGfx(c, h) && NoWrap(c, x, k + 1)
    ensures h.it == LaneShade(c, g.it, k).(hostShift := LaneShift(c, g.it.hostShift, k)) ==>
      && StepShade(c, h.it) == StepShade(c, LaneShade(c, g.it, k)).(hostShift := h.it.hostShift)
      && OwnColor(c, StepShade(c, h.it), x + k, y) == OwnColor(c, LaneShade(c, g.it, k + 1), x + k, y)
  {
    hide ClampIter, ClampCi, RgbFrom, DefaultColor, Step24, Step20, ToU32, ToBits;
  }

  /** A pixel of lane k lands on its own word of the row, or nowhere. */
  lemma OutputIsCell(c: Regs, h: Gfx, x: i16, y: i16, k: nat, color: Bits)
    requires ValidGfx(c, h) && NoWrap(c, x, k + 1)
    ensures ToI16(x + k) == x + k
    ensures forall a :: 0 <= a < |h.fb| ==>
      OutputPixel(c, h, x + k, y, color).fb[a] ==
      if a == RowBase(c, x, y) + k && ClipPass(c, x + k, y) then RbWrite(c.rb, h.fb[a], color) else h.fb[a]
  {
    hide RbWrite, MaskHit, ValidRegs, ValidShift;
    assert WindowX(c, x + k) == x + k + c.xWindow - 0x1000;
  }

  /** One more turn adds exactly lane k to the closed form. */
  lemma StepCells(c: Regs, g: Gfx, h: Gfx, x: i16, y: i16, k: nat)
    requires ValidGfx(c, g) && ValidGfx(c, h) && NoWrap(c, x, k + 1)
    requires |h.fb| == |g.fb| && forall a :: 0 <= a < |g.fb| ==> h.fb[a] == Cell(c, g, x, y, k, a)
    ensures h.it == LaneShade(c, g.it, k).(hostShift := LaneShift(c, g.it.hostShift, k)) ==>
      var r := PixelStep(c, h, x + k, y, k);
      forall a :: 0 <= a < |g.fb| ==> r.fb[a] == Cell(c, g, x, y, k + 1, a)
  {
    hide StepShade, HostPixel, NextShift, OwnColor, RbWrite, ToBits, Pat, Opaque, OutputPixel, ClipPass, RowBase,
      LaneShade, LaneShift, ValidRegs, ValidShift;
    StepIsLane(c, g, h, x, y, k);
    var r := PixelStep(c, h, x + k, y, k);
    var before, color := h.(it := r.it), ToBits(LaneColor(c, g.it, x, y, k));
    if h.it == LaneShade(c, g.it, k).(hostShift := LaneShift(c, g.it.hostShift, k)) {
      if Writes(c, k) {
        assert r == OutputPixel(c, before, x + k, y, color);
        OutputIsCell(c, before, x, y, k, color);
      }
      forall a | 0 <= a < |g.fb| ensures r.fb[a] == Cell(c, g, x, y, k + 1, a) {
        assert h.fb[a] == Cell(c, g, x, y, k, a);
      }
    }
  }

  /** In closed form: what n turns of the per-pixel loop leave. */
  lemma {:induction false} RowIsLanes(c: Regs, g: Gfx, x: i16, y: i16, n: nat)
    requires ValidGfx(c, g) && NoWrap(c, x, n)
    ensures var r := DrawRow(c, g, x, y, n);
      && r.it == LaneShade(c, g.it, n).(hostShift := LaneShift(c, g.it.hostShift, n))
      && r.pixels == g.pixels + WrittenLanes(c, n)
      && forall a :: 0 <= a < |g.fb| ==> r.fb[a] == Cell(c, g, x, y, n, a)
  {
    hide StepShade, HostPixel, NextShift, OwnColor, RbWrite, ToBits, Pat, Opaque, OutputPixel, ClipPass, RowBase,
      ValidRegs, ValidShift, ToI16;
    if n > 0 {
      var k := n - 1;
      RowIsLanes(c, g, x, y, k);
      var h := DrawRow(c, g, x, y, k);
      StepIsLane(c, g, h, x, y, k);
      StepCells(c, g, h, x, y, k);
      OutputIsCell(c, h, x, y, k, ToBits(0));
    }
  }
}
