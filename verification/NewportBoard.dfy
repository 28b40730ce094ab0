/** The Newport board object: the per-pixel loop and the span kernel, against one row function. */
module NewportBoard {
  import opened Words
  import opened PixelOps
  import opened Newport
  import opened NewportRow
  import opened NewportSpan
  import NewportBlock
  import NewportCopy
  import opened NewportLine

  /** How a call of the span kernel ended. `LeftFrame` stands for the host access outside the
      framebuffer that follows when the row pointer wraps; nothing is said about the board then. */
  datatype Span = Declined | Done | LeftFrame

  class Board {
    var c: Regs
    var it: Iter
    var pixels: nat
    var xStart: i16
    var yStart: i16
    var xEnd: i16
    var yEnd: i16
    var xSave: i16
    // Sixteenths of a pixel below the integer coordinates.
    var xStartFrac: nat
    var yStartFrac: nat
    var xEndFrac: nat
    var yEndFrac: nat
    var octant: nat
    const fb: array<Bits>

    constructor (c: Regs, it: Iter)
      ensures this.c == c && this.it == it && pixels == 0 && fb.Length == FB_W * FB_H && fresh(fb)
    {
      this.c, this.it, this.pixels := c, it, 0;
      xStart, yStart, xEnd, yEnd, xSave, octant := 0, 0, 0, 0, 0, 0;
      xStartFrac, yStartFrac, xEndFrac, yEndFrac := 0, 0, 0, 0;
      fb := new Bits[FB_W * FB_H](_ => seq(32, _ => false));
    }

    ghost function State(): Gfx
      reads this, fb
    {
      Gfx(it, fb[..], pixels)
    }

    ghost predicate Valid()
      reads this, fb
    {
      ValidGfx(c, State())
    }

    method OutputPixelAt(x: i16, y: i16, color: Bits)
      requires Valid() && !Blend(c)
      modifies this`pixels, fb
      ensures Valid() && State() == OutputPixel(c, old(State()), x, y, color)
    {
      pixels := pixels + 1;
      if ClipPass(c, x, y) {
        var a := WindowY(c, y) * FB_W + WindowX(c, x);
        fb[a] := RbWrite(c.rb, fb[a], color);
      }
    }

    method HostColor() returns (color: u32)
      requires Valid()
      modifies this`it
      ensures color == HostPixel(c, old(it).hostShift)
      ensures Valid() && it == old(it).(hostShift := NextShift(c, old(it).hostShift))
    {
      color := HostPixel(c, it.hostShift);
      it := it.(hostShift := NextShift(c, it.hostShift));
    }

    // ---- pixel by pixel ----

    /** The body of the per-pixel loop. */
    method PixelTurn(x: i16, y: i16, bit: nat, ghost k: nat)
      requires Valid() && !Blend(c) && bit == (31 - k) % 32
      modifies this`it, this`pixels, fb
      ensures Valid() && State() == PixelStep(c, old(State()), x, y, k)
    {
      hide IterateShade, HostPixel, OwnColor, OutputPixel, ClipPass, Pattern, ToBits, NextShift, ValidRegs, ValidShift;
      if Shade(c) {
        it := IterateShade(c, it);
      }
      if Pattern(c)[bit] {
        if c.colorHost {
          var color := HostColor();
          OutputPixelAt(x, y, ToBits(color));
        } else {
          OutputPixelAt(x, y, ToBits(OwnColor(c, it, x, y)));
        }
      } else if Opaque(c) {
        OutputPixelAt(x, y, ToBits(c.colorBack));
      }
    }

    /** The per-pixel loop of a row segment drawn left to right. */
    method PixelRow(startX: i16, y: i16, primEndX: i16, endX: i16, stopOnX: bool) returns (x: i16)
      requires Valid() && !Blend(c)
      modifies this`it, this`pixels, fb
      ensures var n := Lanes(startX, primEndX, endX, stopOnX);
        x == ToI16(startX + n) && State() == DrawRow(c, old(State()), startX, y, n)
      ensures Valid()
    {
      hide PixelStep, Lanes, ToI16;
      ghost var g := State();
      ghost var n := 0;
      x := startX;
      var bit := 31;
      WholeI16(startX);
      while true
        invariant Valid() && n < Lanes(startX, primEndX, endX, stopOnX)
        invariant x == ToI16(startX + n) && bit == (31 - n) % 32
        invariant State() == DrawRow(c, g, startX, y, n)
        decreases Lanes(startX, primEndX, endX, stopOnX) - n
      {
        PixelTurn(x, y, bit, n);
        NextX(startX + n);
        NextBit(n);
        RowTurn(startX, primEndX, endX, stopOnX, n);
        bit := (bit - 1) % 32;
        x, n := ToI16(x + 1), n + 1;
        if !(x != primEndX && x != endX && stopOnX) { break; }
      }
    }

    // ---- a row of lanes at a time ----

    /** Iterator values of n lanes; leaves the iterators of the last. */
    method SpanIters(n: nat, cr: array<u32>, cg: array<u32>, cb: array<u32>, ca: array<u32>)
      requires n > 0 && cr.Length >= n && cg.Length >= n && cb.Length >= n && ca.Length >= n
      requires cr != cg && cr != cb && cr != ca && cg != cb && cg != ca && cb != ca
      modifies this`it, cr, cg, cb, ca
      ensures it == LaneShade(c, old(it), n)
      ensures forall k :: 0 <= k < n ==>
        var l := LaneShade(c, old(it), k + 1);
        cr[k] == l.red && cg[k] == l.green && cb[k] == l.blue && ca[k] == l.alpha
    {
      hide IterateShade, Step24, Step20, ToU32;
      ghost var start := it;
      if Shade(c) && CiClamp(c) {
        for k := 0 to n
          invariant it == LaneShade(c, start, k)
          invariant forall j :: 0 <= j < k ==>
            var l := LaneShade(c, start, j + 1);
            cr[j] == l.red && cg[j] == l.green && cb[j] == l.blue && ca[j] == l.alpha
        {
          it := IterateShade(c, it);
          cr[k], cg[k], cb[k], ca[k] := it.red, it.green, it.blue, it.alpha;
        }
      } else if Shade(c) {
        var sr, sg, sb, sa := Step24(c.slopeRed), Step20(c.slopeGreen), Step20(c.slopeBlue), Step20(c.slopeAlpha);
        for k := 0 to n
          invariant it == start
          invariant forall j :: 0 <= j < k ==>
            var l := LaneShade(c, start, j + 1);
            cr[j] == l.red && cg[j] == l.green && cb[j] == l.blue && ca[j] == l.alpha
        {
          var m := k + 1;
          SlopeAgrees(c, start, m);
          cr[k] := ToU32(it.red + m * sr);
          cg[k] := ToU32(it.green + m * sg);
          cb[k] := ToU32(it.blue + m * sb);
          ca[k] := ToU32(it.alpha + m * sa);
        }
        SlopeAgrees(c, start, n);
        it := it.(red := cr[n - 1], green := cg[n - 1], blue := cb[n - 1], alpha := ca[n - 1]);
      } else {
        for k := 0 to n
          invariant it == start == LaneShade(c, start, k)
          invariant forall j :: 0 <= j < k ==>
            var l := LaneShade(c, start, j + 1);
            cr[j] == l.red && cg[j] == l.green && cb[j] == l.blue && ca[j] == l.alpha
        {
          cr[k], cg[k], cb[k], ca[k] := it.red, it.green, it.blue, it.alpha;
        }
      }
    }

    /** Dithered or plain RGB colours from lane iterators. */
    method SpanShaded(x0: i16, y: i16, n: nat, pat: array<bool>, col: array<u32>)
      requires Valid() && n > 0 && pat.Length >= n && col.Length >= n
      requires !c.colorHost && (Shade(c) || RgbMode(c)) && !FastClear(c)
      requires forall k :: 0 <= k < n ==> pat[k] == Pat(c, k)
      modifies this`it, col
      ensures Valid() && it == LaneShade(c, old(it), n)
      ensures forall k :: 0 <= k < n ==> col[k] == LaneColor(c, old(it), x0, y, k)
    {
      hide IterateShade, RgbFrom, Pat, DitherLane, ValidShift, Bayer, DefaultColor;
      ghost var start := it;
      var cr, cg, cb, ca := new u32[n](_ => 0), new u32[n](_ => 0), new u32[n](_ => 0), new u32[n](_ => 0);
      SpanIters(n, cr, cg, cb, ca);
      for k := 0 to n
        modifies col
        invariant forall j :: 0 <= j < k ==> col[j] == LaneColor(c, start, x0, y, j)
      {
        if RgbMode(c) && Dither(c) {
          DitherAgrees(c, cr[k], cg[k], cb[k], ca[k], x0 + k, y);
          var v := DitherLane(c.planeDepth, cr[k], cg[k], cb[k], ca[k], Bayer(x0 + k, y));
          col[k] := if pat[k] then v else c.colorBack;
        } else {
          col[k] := if pat[k] then RgbFrom(c, cr[k], cg[k], cb[k], ca[k], x0 + k, y) else c.colorBack;
        }
      }
    }

    /** The colour of every lane. Rows coloured from the host port or by fast clear leave the shade
        iterators alone even when shading is on. */
    method SpanColors(x0: i16, y: i16, n: nat, pat: array<bool>, col: array<u32>)
      requires Valid() && n > 0 && pat.Length >= n && col.Length >= n
      requires forall k :: 0 <= k < n ==> pat[k] == Pat(c, k)
      modifies this`it, col
      ensures Valid()
      ensures it == (if SkipsShade(c) then old(it) else LaneShade(c, old(it), n))
                      .(hostShift := LaneShift(c, old(it).hostShift, n))
      ensures forall k :: 0 <= k < n ==> col[k] == LaneColor(c, old(it), x0, y, k)
    {
      hide IterateShade, RgbFrom, Pat, ValidShift, NextShift, DefaultColor, HostPixel;
      ghost var start := it;
      LaneIdle(c, start, n);
      if c.colorHost {
        for k := 0 to n
          invariant Valid() && it == start.(hostShift := LaneShift(c, start.hostShift, k))
          invariant forall j :: 0 <= j < k ==> col[j] == LaneColor(c, start, x0, y, j)
        {
          if pat[k] {
            col[k] := HostColor();
          } else {
            col[k] := c.colorBack;
          }
        }
      } else if (Shade(c) || RgbMode(c)) && !FastClear(c) {
        SpanShaded(x0, y, n, pat, col);
      } else {
        for k := 0 to n
          invariant it == start
          invariant forall j :: 0 <= j < k ==> col[j] == LaneColor(c, start, x0, y, j)
        {
          col[k] := if pat[k] then DefaultColor(c, c.colorI) else c.colorBack;
        }
      }
    }

    /** The x ranges of the masks whose y range holds window row yw. */
    method RowMasks(yw: i16, xLo: array<i16>, xHi: array<i16>) returns (nm: nat)
      requires ValidRegs(c) && xLo.Length == xHi.Length == 4 && xLo != xHi
      modifies xLo, xHi
      ensures nm <= 4 && (nm > 0 <==> exists b :: 1 <= b < 5 && MaskRow(c, b, yw))
      ensures forall x :: InRanges(xLo[..nm], xHi[..nm], x) <==> HitBelow(c, 5, x, yw)
    {
      hide InRanges;
      nm := 0;
      NoRanges();
      for b := 1 to 5
        invariant nm < b && nm <= 4
        invariant nm > 0 <==> exists d :: 1 <= d < b && MaskRow(c, d, yw)
        invariant forall x :: InRanges(xLo[..nm], xHi[..nm], x) <==> HitBelow(c, b, x, yw)
      {
        if MaskRow(c, b, yw) {
          ghost var lo, hi := xLo[..nm], xHi[..nm];
          xLo[nm] := ToI16(c.masks[b].minX - 0x1000);
          xHi[nm] := ToI16(c.masks[b].maxX - 0x1000);
          nm := nm + 1;
          assert xLo[..nm] == lo + [xLo[nm - 1]] && xHi[..nm] == hi + [xHi[nm - 1]];
          RangesGrow(lo, hi, xLo[nm - 1], xHi[nm - 1]);
        }
      }
    }

    method InMasks(xw: int, nm: nat, xLo: array<i16>, xHi: array<i16>) returns (hit: bool)
      requires nm <= xLo.Length && nm <= xHi.Length
      ensures hit == InRanges(xLo[..nm], xHi[..nm], xw)
    {
      hit := false;
      for i := 0 to nm
        invariant hit == InRanges(xLo[..i], xHi[..i], xw)
      {
        assert xLo[..i + 1] == xLo[..i] + [xLo[i]] && xHi[..i + 1] == xHi[..i] + [xHi[i]];
        RangesGrow(xLo[..i], xHi[..i], xLo[i], xHi[i]);
        hit := hit || xLo[i] <= xw <= xHi[i];
      }
    }

    /** Clipping, once per row: whether any lane can pass, and if so which lanes store. */
    method SpanClip(x0: i16, y: i16, n: nat, wr: array<bool>, pass: array<bool>) returns (rowOk: bool)
      requires Valid() && NoWrap(c, x0, n) && wr.Length >= n && pass.Length >= n && wr != pass
      requires forall k :: 0 <= k < n ==> wr[k] == Writes(c, k)
      modifies pass
      ensures rowOk == RowOk(c, y)
      ensures rowOk ==> forall k :: 0 <= k < n ==> pass[k] == Stores(c, x0, y, k)
    {
      hide Writes, MaskHit, MaskRow, ValidShift, InRanges;
      var xLo, xHi := new i16[4](_ => 0), new i16[4](_ => 0);
      var yw := WindowY(c, y);
      rowOk := 0 <= yw < DISP_H;
      var m0 := c.clipMode[0];
      if m0 {
        rowOk := rowOk && c.masks[0].minY <= y <= c.masks[0].maxY;
      }
      var nm := 0;
      if AnyMask(c) {
        nm := RowMasks(yw, xLo, xHi);
        if nm == 0 {
          rowOk := false;
        }
      }
      if !rowOk {
        return;
      }
      ghost var lo, hi := xLo[..nm], xHi[..nm];
      var xMin0, xMax0 := if m0 then c.masks[0].minX else -65536, if m0 then c.masks[0].maxX else 65536;
      for k := 0 to n
        modifies pass
        invariant forall j :: 0 <= j < k ==> pass[j] == Stores(c, x0, y, j)
      {
        var x, xw := x0 + k, x0 + c.xWindow - 0x1000 + k;
        var ok := wr[k] && xMin0 <= x <= xMax0 && 0 <= xw < FB_W;
        if AnyMask(c) {
          var hit := InMasks(xw, nm, xLo, xHi);
          assert xLo[..nm] == lo && xHi[..nm] == hi;
          assert hit == HitBelow(c, 5, xw, yw);
          ok := ok && hit;
        }
        assert WindowX(c, x) == xw;
        assert ok == Stores(c, x0, y, k);
        pass[k] := ok;
      }
    }

    /** Merge lanes [kl, kh) into the framebuffer row that starts at word `base`. */
    method SpanStore(base: int, kl: nat, kh: nat, pass: array<bool>, col: array<u32>)
      requires Valid() && kl <= kh && pass.Length >= kh && col.Length >= kh
      requires 0 <= base + kl && base + kh <= fb.Length
      modifies fb
      ensures Valid()
      ensures forall a :: 0 <= a < fb.Length ==>
        fb[a] == if base + kl <= a < base + kh && pass[a - base] then RbWrite(c.rb, old(fb[a]), ToBits(col[a - base]))
                 else old(fb[a])
    {
      hide RbWrite, SpanWrite, ToBits, ValidShift;
      for k := kl to kh
        invariant forall a :: 0 <= a < fb.Length ==>
          fb[a] == if base + kl <= a < base + k && pass[a - base] then RbWrite(c.rb, old(fb[a]), ToBits(col[a - base]))
                   else old(fb[a])
      {
        SpanWriteAgrees(c.rb, fb[base + k], ToBits(col[k]));
        var merged := SpanWrite(c.rb, fb[base + k], ToBits(col[k]));
        fb[base + k] := if pass[k] then merged else fb[base + k];
      }
    }

    /** Clip and store a row of lane colours. `g` is the board before the row. */
    method SpanDraw(startX: i16, y: i16, n: nat, wr: array<bool>, col: array<u32>, ghost g: Gfx) returns (end: Span)
      requires Valid() && ValidGfx(c, g) && fb[..] == g.fb && !Declines(c, startX, n)
      requires wr.Length == n && col.Length == n
      requires forall k :: 0 <= k < n ==> wr[k] == Writes(c, k) && col[k] == LaneColor(c, g.it, startX, y, k)
      modifies fb
      ensures end != Declined && (end == LeftFrame <==> StartsBeforeFrame(c, startX, y, n))
      ensures Valid() && (end == Done ==> fb[..] == DrawRow(c, g, startX, y, n).fb)
    {
      hide DrawRow, LaneColor, Stores, Writes, RowOk, ToI16, ToU32, Cell, ValidShift, ValidRegs, RbWrite, ToBits;
      RowIsLanes(c, g, startX, y, n);
      var pass := new bool[n](_ => false);
      var xw0 := startX + c.xWindow - 0x1000;
      var rowOk := SpanClip(startX, y, n, wr, pass);
      var kl, kh := Max(0, -xw0), Min(n, FB_W - xw0);
      if !rowOk || kl >= kh {
        RowUntouched(c, g, startX, y, n);
        return Done;
      }
      var row := ToU32(WindowY(c, y) * FB_W + ToU32(xw0));
      RowPointer(c, startX, y, n);
      if row + kh > fb.Length {
        return LeftFrame;
      }
      SpanStore(row, kl, kh, pass, col);
      RowTouched(c, g, startX, y, n, pass[..], col[..], fb[..]);
      return Done;
    }

    /** The span kernel: one row segment, or a refusal that leaves the board untouched. */
    method SpanFast(startX: i16, y: i16, primEndX: i16, endX: i16, stopOnX: bool) returns (end: Span, x: i16)
      requires Valid()
      modifies this`it, this`pixels, fb
      ensures var n := Lanes(startX, primEndX, endX, stopOnX);
        && (end == Declined <==> Declines(c, startX, n))
        && (end == LeftFrame <==> !Declines(c, startX, n) && StartsBeforeFrame(c, startX, y, n))
        && (end == Declined ==> x == startX && State() == old(State()))
        && (end == Done ==> x == ToI16(startX + n) && State() == SpanRow(c, old(State()), startX, y, n))
    {
      hide DrawRow, LaneShade, LaneShift, LaneColor, Pat, Lanes, WrittenLanes, Writes, ToI16, Cell, SkipsShade,
        StartsBeforeFrame, ValidShift, ValidRegs;
      var n := Lanes(startX, primEndX, endX, stopOnX);
      x := startX;
      var xw0 := startX + c.xWindow - 0x1000;
      if n > SPAN_MAX || startX + n - 1 > 32767 || xw0 < -32768 || xw0 + n - 1 > 32767 || Blend(c) {
        return Declined, x;
      }
      ghost var g := State();
      RowIsLanes(c, g, startX, y, n);
      var pat, wr := new bool[n](_ => false), new bool[n](_ => false);
      var col := new u32[n](_ => 0);
      var nw := SpanPattern(n, pat, wr);
      SpanColors(startX, y, n, pat, col);
      pixels := pixels + nw;
      end := SpanDraw(startX, y, n, wr, col, g);
      x := ToI16(startX + n);
    }

    /** One row segment of span_or_block going right: the kernel unless `scalar`, else the loop. */
    method DrawSegment(scalar: bool, startX: i16, y: i16, primEndX: i16, endX: i16, stopOnX: bool)
      returns (leftFrame: bool, x: i16)
      requires Valid() && !Blend(c)
      modifies this`it, this`pixels, fb
      ensures var n := Lanes(startX, primEndX, endX, stopOnX);
        var kernel := !scalar && !Declines(c, startX, n);
        && leftFrame == (kernel && StartsBeforeFrame(c, startX, y, n))
        && (!leftFrame ==>
              x == ToI16(startX + n) &&
              State() == if kernel then SpanRow(c, old(State()), startX, y, n) else DrawRow(c, old(State()), startX, y, n))
    {
      hide ValidRegs, ValidShift, DrawRow, StartsBeforeFrame, SpanRow, Lanes, ToI16, Declines;
      leftFrame := false;
      if !scalar {
        var end;
        end, x := SpanFast(startX, y, primEndX, endX, stopOnX);
        if end != Declined {
          return end == LeftFrame, x;
        }
      }
      x := PixelRow(startX, y, primEndX, endX, stopOnX);
    }

    /** span_or_block going right: segments until the last row. The end tells whether a row left the
        framebuffer, and nothing is said about the board then. */
    method SpanOrBlock(scalar: bool, block: bool) returns (leftFrame: bool)
      requires Valid() && !Blend(c) && octant / 2 % 2 == 0
      modifies this`it, this`pixels, this`xStart, this`yStart, this`xStartFrac, this`yStartFrac, fb
      ensures var e := NewportBlock.Limits(c, old(xStart), xEnd, yEnd, xSave, block, octant % 2 == 1);
        var r := NewportBlock.Draws(c, e, scalar, NewportBlock.Drawing(old(State()), old(xStart), old(yStart)));
        && leftFrame == r.LostFrame?
        && (!leftFrame ==> Valid() && State() == r.g && xStart == r.x && yStart == r.y)
    {
      hide Lanes, Declines, StartsBeforeFrame, SpanRow, DrawRow, ValidRegs, ValidShift, NewportBlock.Limits, ToI16,
        NewportBlock.RowsLeft, NewportBlock.ColumnsLeft, NewportBlock.ResetColor;
      ghost var start := NewportBlock.Drawing(State(), xStart, yStart);
      var e := NewportBlock.Limits(c, xStart, xEnd, yEnd, xSave, block, octant % 2 == 1);
      var x: i16, y: i16 := xStart, yStart;
      var more := true;
      while more
        modifies this`it, this`pixels, fb
        invariant Valid() && (!block ==> y == old(yStart))
        invariant var d := NewportBlock.Drawing(State(), x, y);
          NewportBlock.Draws(c, e, scalar, start) == if more then NewportBlock.Draws(c, e, scalar, d) else d
        decreases more, NewportBlock.RowsLeft(e, NewportBlock.Drawing(State(), x, y)),
                  NewportBlock.ColumnsLeft(e, NewportBlock.Drawing(State(), x, y))
      {
        ghost var d := NewportBlock.Drawing(State(), x, y);
        NewportBlock.TurnEnds(c, e, scalar, d);
        leftFrame, x := DrawSegment(scalar, x, y, e.primEnd, e.endX, e.stopX);
        if leftFrame {
          return;
        }
        if x >= e.endX {
          it := NewportBlock.ResetColor(c, it);
          if block {
            x, y := xSave, NewportBlock.StepY(e, y);
          }
        }
        more := block && y != e.endY && e.stopY;
      }
      leftFrame := false;
      xStart, xStartFrac := x, 0;
      if block {
        yStart, yStartFrac := y, 0;
      }
    }

    /** Pattern bits and write flags of the lanes, and how many lanes are written. */
    method SpanPattern(n: nat, pat: array<bool>, wr: array<bool>) returns (nw: nat)
      requires pat.Length >= n && wr.Length >= n && pat != wr
      modifies pat, wr
      ensures nw == WrittenLanes(c, n)
      ensures forall k :: 0 <= k < n ==> pat[k] == Pat(c, k) && wr[k] == Writes(c, k)
    {
      for k := 0 to n
        invariant forall j :: 0 <= j < k ==> pat[j] == Pat(c, j) && wr[j] == Writes(c, j)
      {
        pat[k] := Pattern(c)[(31 - k) % 32];
        wr[k] := pat[k] || Opaque(c);
      }
      nw := 0;
      for k := 0 to n
        invariant nw == WrittenLanes(c, k)
      {
        nw := nw + if wr[k] then 1 else 0;
      }
    }

    // ---- screen to screen ----

    /** scr2scr: the two nested copy loops, from the start corner to one past the end corner. */
    method ScreenCopy()
      requires Valid() && !Blend(c)
      modifies this`pixels, this`xStart, this`yStart, this`xStartFrac, this`yStartFrac, fb
      ensures var left, up := octant / 2 % 2 == 1, octant % 2 == 1;
        var l := NewportCopy.Limits(ToI16(NewportCopy.Along(xEnd, left, 1)), ToI16(NewportCopy.Along(yEnd, up, 1)),
                                    xSave, left, up, c.drawMode0[8], c.drawMode0[9]);
        Valid() && (State(), xStart, yStart) == NewportCopy.Scan(c, l, old(State()), old(xStart), old(yStart))
    {
      hide NewportCopy.PutPixel, NewportCopy.StepsTo, NewportCopy.Along, ToI16, ValidShift, ValidRegs, NewportCopy.ReadAt;
      var stopX, stopY := c.drawMode0[8], c.drawMode0[9];
      var left, up := octant / 2 % 2 == 1, octant % 2 == 1;
      var endX, endY := ToI16(NewportCopy.Along(xEnd, left, 1)), ToI16(NewportCopy.Along(yEnd, up, 1));
      ghost var l := NewportCopy.Limits(endX, endY, xSave, left, up, stopX, stopY);
      ghost var all := NewportCopy.Scan(c, l, State(), xStart, yStart);
      var x, y := xStart, yStart;
      while true
        invariant Valid() && all == NewportCopy.Scan(c, l, State(), x, y)
        decreases NewportCopy.StepsTo(y, endY, up), NewportCopy.StepsTo(x, endX, left)
      {
        ghost var from := NewportCopy.StepsTo(x, endX, left);
        while true
          invariant Valid() && all == NewportCopy.Scan(c, l, State(), x, y)
          invariant NewportCopy.StepsTo(x, endX, left) <= from
          decreases NewportCopy.StepsTo(x, endX, left)
        {
          NewportCopy.StepCloser(x, endX, left);
          PutPixelAt(x, y);
          x := ToI16(NewportCopy.Along(x, left, 1));
          if !(x != endX && stopX) { break; }
        }
        assert all == NewportCopy.RowEnd(c, l, State(), x, y);
        NewportCopy.StepCloser(y, endY, up);
        if x == endX {
          x, y := xSave, ToI16(NewportCopy.Along(y, up, 1));
        }
        if !(y != endY && stopY) { break; }
      }
      WholeI16(x);
      WholeI16(y);
      WriteStart(x, y);
    }

    /** write_x_start and write_y_start of whole pixels. */
    method WriteStart(x: int, y: int)
      modifies this`xStart, this`yStart, this`xStartFrac, this`yStartFrac
      ensures xStart == ToI16(x) && yStart == ToI16(y) && xStartFrac == 0 && yStartFrac == 0
    {
      xStart, yStart, xStartFrac, yStartFrac := ToI16(x), ToI16(y), 0, 0;
    }

    method ReadPixel(x: int, y: int) returns (src: Bits)
      requires Valid()
      ensures src == NewportCopy.ReadAt(c, fb[..], x, y)
    {
      hide RbRead, ToBits, ValidShift, ValidRegs;
      var sx, sy := x + c.xWindow - 0x1000, y + c.yWindow - 0x1000;
      if 0 <= sx < FB_W && 0 <= sy < FB_H {
        src := RbRead(c.rb, fb[sy * FB_W + sx]);
      } else {
        src := ToBits(0);
      }
    }

    method PutPixelAt(x: i16, y: i16)
      requires Valid() && !Blend(c)
      modifies this`pixels, fb
      ensures Valid() && State() == NewportCopy.PutPixel(c, old(State()), old(fb[..]), x, y)
    {
      hide OutputPixel, ValidShift, ValidRegs, ToBits, NewportCopy.ReadAt;
      var src := ReadPixel(x, y);
      OutputPixelAt(ToI16(x + c.xMove), ToI16(y + c.yMove), src);
    }

    // ---- lines ----

    /** do_setup: the octant of the endpoints in sixteenths of a pixel. */
    method Setup()
      requires xStartFrac < 16 && yStartFrac < 16 && xEndFrac < 16 && yEndFrac < 16
      modifies this`octant
      ensures octant == OctantOf(16 * xStart + xStartFrac, 16 * yStart + yStartFrac,
                                 16 * xEnd + xEndFrac, 16 * yEnd + yEndFrac)
      ensures xStartFrac == xEndFrac && yStartFrac == yEndFrac ==> octant == OctantOf(xStart, yStart, xEnd, yEnd)
    {
      octant := OctantOf(16 * xStart + xStartFrac, 16 * yStart + yStartFrac, 16 * xEnd + xEndFrac, 16 * yEnd + yEndFrac);
    }

    /** do_iline: step the pen along the stored octant, plotting as the flags say. */
    method DrawLine()
      requires Valid() && !Blend(c) && octant < 8
      modifies this`it, this`pixels, this`xStart, this`yStart, this`xStartFrac, this`yStartFrac, fb
      ensures var l := Line(old(xStart), old(yStart), xEnd, yEnd, octant);
        var f := Flags(c.drawMode0[15], c.drawMode0[10], c.drawMode0[11], !c.drawMode0[8] && !c.drawMode0[9]);
        Valid() && State() == PlotAll(c, old(State()), Points(l, f), DefaultColor(c, c.colorI)) &&
        xStart == ToI16(EndPoint(l, f).0) && yStart == ToI16(EndPoint(l, f).1) && xStartFrac == yStartFrac == 0
    {
      hide Plot, PlotAll, PenAt, Start, Trail, ValidRegs, ValidShift, DefaultColor, Major, Minor, Step;
      var color := DefaultColor(c, c.colorI);
      var l := Line(xStart, yStart, xEnd, yEnd, octant);
      var f := Flags(c.drawMode0[15], c.drawMode0[10], c.drawMode0[11], !c.drawMode0[8] && !c.drawMode0[9]);
      ghost var g := State();
      var pen := Start(l);
      var loop := Loop(l, f);
      TrailStart(c, g, l, color);
      ghost var n := 0;
      if !f.skipFirst || f.one {
        PlotAt(At(pen), color);
        TrailGrows(c, g, l, 0, color);
        pen, n := Step(l, pen), 1;
        if f.one {
          WriteStart(pen.x, pen.y);
          NothingMore(Trail(l, 1));
          return;
        }
      }
      ghost var first := n;
      var i := 1;
      while i < loop
        invariant Valid() && 1 <= i <= Max(1, loop) && n == first + i - 1
        invariant n == 0 ==> pen == Start(l)
        invariant pen == PenAt(l, n) && State() == PlotAll(c, g, Trail(l, n), color)
      {
        PlotAt(At(pen), color);
        TrailGrows(c, g, l, n, color);
        pen, n, i := Step(l, pen), n + 1, i + 1;
      }
      assert n == Plotted(l, f);
      if !f.skipLast {
        PlotAt((l.x2, l.y2), color);
        PlotLast(c, g, Trail(l, n), (l.x2, l.y2), color);
        WriteStart(l.x2, l.y2);
      } else {
        NothingMore(Trail(l, n));
        WriteStart(pen.x, pen.y);
      }
    }

    method PlotAt(p: Point, color: u32)
      requires Valid() && !Blend(c)
      modifies this`it, this`pixels, fb
      ensures Valid() && State() == Plot(c, old(State()), p, color)
    {
      hide IterateShade, OutputPixel, RgbFrom, ToBits, ValidShift;
      var x, y := ToI16(p.0), ToI16(p.1);
      var v := color;
      if Shade(c) || RgbMode(c) {
        v := RgbFrom(c, it.red, it.green, it.blue, it.alpha, x, y);
      }
      OutputPixelAt(x, y, ToBits(v));
      if Shade(c) {
        it := IterateShade(c, it);
      }
    }
  }

  predicate InRanges(lo: seq<i16>, hi: seq<i16>, x: int)
    requires |lo| == |hi|
  {
    exists i :: 0 <= i < |lo| && lo[i] <= x <= hi[i]
  }

  lemma NoRanges()
    ensures forall x :: !InRanges([], [], x)
  {
  }

  lemma RangesGrow(lo: seq<i16>, hi: seq<i16>, a: i16, b: i16)
    requires |lo| == |hi|
    ensures forall x :: InRanges(lo + [a], hi + [b], x) <==> InRanges(lo, hi, x) || a <= x <= b
  {
    forall x ensures InRanges(lo + [a], hi + [b], x) <==> InRanges(lo, hi, x) || a <= x <= b {
      if InRanges(lo, hi, x) {
        var i :| 0 <= i < |lo| && lo[i] <= x <= hi[i];
        assert (lo + [a])[i] <= x <= (hi + [b])[i];
      }
      if a <= x <= b {
        assert (lo + [a])[|lo|] <= x <= (hi + [b])[|lo|];
      }
    }
  }
}
