/** What a line draw leaves on the screen: which points, how near the true line, in which colours. */
module NewportTrace {
  import opened Words
  import opened PixelOps
  import opened Newport
  import opened NewportRow
  import opened NewportLine
  import NewportShade

  // ---- which points ----

  /** The longer of the line's two extents, in coordinates. */
  function Longer(l: Line): nat {
    Max(Abs(l.x2 - l.x1), Abs(l.y2 - l.y1))
  }

  lemma LongerIsMajor(l: Line)
    requires SetUp(l)
    ensures l.octant < 8 && Longer(l) == Major(l) && Longer(l) > 0
  {
  }

  /** A line plots one pixel more than its longer extent, at most 32 more where the length is limited,
      less the ends it skips; a single step plots one. */
  lemma PointCount(l: Line, f: Flags)
    requires SetUp(l)
    ensures var n := if f.length32 then Min(Longer(l), 32) else Longer(l);
      |Points(l, f)| == if f.one then 1 else n + 1 - (if f.skipFirst then 1 else 0) - if f.skipLast then 1 else 0
  {
    hide Major, SetUp, Trail;
    LongerIsMajor(l);
  }

  lemma Product(a: int, b: int, k: int, m: int, s: int, t: int)
    requires (s == 1 || s == -1) && (t == 1 || t == -1)
    ensures Abs(k * s * (a * t) - m * t * (b * s)) == Abs(k * a - m * b)
  {
    assert k * s * (a * t) == (k * a) * (s * t);
    assert m * t * (b * s) == (m * b) * (s * t);
    if s * t == 1 {
    } else {
      assert s * t == -1;
    }
  }

  /** How far (x, y) is off the line through its ends: twice the area they span. */
  function Off(l: Line, x: int, y: int): nat {
    Abs((x - l.x1) * (l.y2 - l.y1) - (y - l.y1) * (l.x2 - l.x1))
  }

  lemma Signs(l: Line)
    ensures l.x2 - l.x1 == Dx(l) * Toward(l.x1, l.x2) && l.y2 - l.y1 == Dy(l) * Toward(l.y1, l.y2)
  {
  }

  /** Off the line by as much as major and minor steps are out of proportion. */
  lemma OffSteps(l: Line, k: nat, m: nat)
    requires l.octant < 8
    ensures var p := Offset(l, k, m); Off(l, p.0, p.1) == Abs(k * Minor(l) - m * Major(l))
  {
    hide Dx, Dy;
    var (s, t, dx, dy) := (Toward(l.x1, l.x2), Toward(l.y1, l.y2), Dx(l), Dy(l));
    Signs(l);
    Product(dy, dx, if BRES[l.octant].yMajor then m else k, if BRES[l.octant].yMajor then k else m, s, t);
  }

  /** The pen is never more than half a pixel off the true line through the two ends, and k columns or
      rows along after k steps. */
  lemma PenHugs(l: Line, k: nat)
    requires SetUp(l)
    ensures var (x, y) := At(PenAt(l, k));
      && 2 * Off(l, x, y) <= Longer(l)
      && (if Abs(l.x2 - l.x1) > Abs(l.y2 - l.y1) then Abs(x - l.x1) else Abs(y - l.y1)) == k
  {
    hide Major, Minor, PenAt, MinorSteps, Off, Offset;
    LongerIsMajor(l);
    PenError(l, k);
    OffSteps(l, k, MinorSteps(l, k));
    Along(l, k, MinorSteps(l, k));
  }

  lemma Along(l: Line, k: nat, m: nat)
    requires SetUp(l)
    ensures var p := Offset(l, k, m);
      (if Abs(l.x2 - l.x1) > Abs(l.y2 - l.y1) then Abs(p.0 - l.x1) else Abs(p.1 - l.y1)) == k
  {
  }

  // ---- in which colours ----

  predicate InCursor(p: Point) {
    -0x8000 <= p.0 < 0x8000 && -0x8000 <= p.1 < 0x8000
  }

  /** Point k of the list is word a of the framebuffer. */
  predicate Dots(c: Regs, pts: seq<Point>, k: nat, a: nat)
    requires ValidRegs(c) && k < |pts|
  {
    NewportShade.SpotIs(c, pts[k].0, pts[k].1, a)
  }

  /** The colour of a point the iterators have come k steps to. */
  function Dye(c: Regs, it: Iter, k: nat, p: Point): u32
    requires ValidRegs(c)
  {
    var (red, green, blue, alpha) := NewportShade.Along(c, it, k);
    RgbFrom(c, red, green, blue, alpha, p.0, p.1)
  }

  lemma PlotDots(c: Regs, g: Gfx, it: Iter, k: nat, p: Point, color: u32, a: nat)
    requires ValidGfx(c, g) && NewportShade.Gouraud(c) && InCursor(p) && g.it == LaneShade(c, it, k) && a < |g.fb|
    ensures Plot(c, g, p, color).it == LaneShade(c, it, k + 1)
    ensures ValidRegs(c) && Plot(c, g, p, color).fb[a] ==
      if NewportShade.SpotIs(c, p.0, p.1, a) then RbWrite(c.rb, g.fb[a], ToBits(Dye(c, it, k, p))) else g.fb[a]
  {
    hide RbWrite, ToBits, RgbFrom, NewportShade.SpotIs, OutputPixel, StepShade, ToI16, NewportShade.Along, ValidShift, ValidRegs;
    WholeI16(p.0);
    WholeI16(p.1);
    NewportShade.AlongIs(c, it, k);
    NewportShade.OutputAt(c, g, p.0, p.1, ToBits(Dye(c, it, k, p)), a);
  }

  /** What plotting distinct points does to one word. */
  lemma {:induction false} PlotInks(c: Regs, g: Gfx, pts: seq<Point>, color: u32, a: nat)
    requires ValidGfx(c, g) && NewportShade.Gouraud(c) && a < |g.fb| && Distinct(pts)
    requires forall k :: 0 <= k < |pts| ==> InCursor(pts[k])
    ensures ValidRegs(c) && var r := PlotAll(c, g, pts, color);
      && r.it == LaneShade(c, g.it, |pts|) && |r.fb| == |g.fb|
      && (forall k :: 0 <= k < |pts| && Dots(c, pts, k, a) ==>
            r.fb[a] == RbWrite(c.rb, g.fb[a], ToBits(Dye(c, g.it, k, pts[k]))))
      && ((forall k :: 0 <= k < |pts| ==> !Dots(c, pts, k, a)) ==> r.fb[a] == g.fb[a])
    decreases |pts|
  {
    hide RbWrite, ToBits, Plot, Dye, NewportShade.SpotIs, ValidShift, ValidRegs, NewportShade.Gouraud, LaneShade;
    if pts == [] {
      NewportShade.ZeroLanes(c, g.it);
      Fits(c, g);
    } else {
      var n := |pts| - 1;
      var before := pts[..n];
      PlotInks(c, g, before, color, a);
      var h := PlotAll(c, g, before, color);
      PlotDots(c, h, g.it, n, pts[n], color, a);
      Fits(c, Plot(c, h, pts[n], color));
      Fits(c, g);
      assert Dots(c, pts, n, a) == NewportShade.SpotIs(c, pts[n].0, pts[n].1, a);
      forall k | 0 <= k < n ensures Dots(c, pts, k, a) == Dots(c, before, k, a) && before[k] == pts[k] {
      }
      forall k | 0 <= k < n && Dots(c, pts, k, a) ensures !Dots(c, pts, n, a) {
        if Dots(c, pts, n, a) {
          NewportShade.SpotsApart(c, pts[k].0, pts[k].1, pts[n].0, pts[n].1, a);
        }
      }
    }
  }

  lemma Fits(c: Regs, g: Gfx)
    requires ValidGfx(c, g)
    ensures ValidRegs(c) && |g.fb| == FB_W * FB_H
  {
    hide ValidShift;
  }

  /** The pen never leaves the rectangle of the two ends. */
  lemma PenInside(l: Line, k: nat)
    requires SetUp(l) && k <= Longer(l)
    ensures InCursor(At(PenAt(l, k)))
  {
    hide PenAt, MinorSteps, Major, Minor, Longer, SetUp, Offset;
    LongerIsMajor(l);
    PenError(l, k);
    Proportion(k, Major(l), Minor(l), MinorSteps(l, k));
    StepsInside(l, k, MinorSteps(l, k));
  }

  lemma StepsInside(l: Line, k: nat, m: nat)
    requires l.octant < 8 && k <= Major(l) && m <= Minor(l)
    ensures InCursor(Offset(l, k, m))
  {
  }

  lemma Proportion(k: nat, n: nat, a: nat, m: nat)
    requires k <= n && n > 0 && 0 - n <= 2 * (k * a - m * n)
    ensures m <= a
  {
    MulMono(a, k, n);
    if m > a {
      MulMono(n, a + 1, m);
    }
  }

  lemma TrailDistinct(l: Line)
    requires SetUp(l)
    ensures var pts := Trail(l, Longer(l) + 1);
      Distinct(pts) && forall k :: 0 <= k < |pts| ==> InCursor(pts[k])
  {
    hide PenAt, SetUp, Longer;
    LongerIsMajor(l);
    var pts := Trail(l, Longer(l) + 1);
    forall k | 0 <= k < |pts| ensures InCursor(pts[k]) {
      PenInside(l, k);
    }
    forall i, j | 0 <= i < j < |pts| ensures pts[i] != pts[j] {
      PenHugs(l, i);
      PenHugs(l, j);
    }
  }

  /** A plain shaded line: its k-th pixel, if the clip lets it through, is drawn in the colour k slopes
      from the iterators, modulo 2^32. */
  lemma ShadedLine(c: Regs, g: Gfx, l: Line, f: Flags, color: u32, k: nat)
    requires ValidGfx(c, g) && NewportShade.Gouraud(c) && SetUp(l) && k <= Longer(l)
    requires !f.length32 && !f.skipFirst && !f.skipLast && !f.one
    ensures ValidRegs(c) && |g.fb| == FB_W * FB_H && InCursor(At(PenAt(l, k)))
    ensures var (r, p, it) := (PlotAll(c, g, Points(l, f), color), At(PenAt(l, k)), g.it);
      ClipPass(c, p.0, p.1) ==>
        var a := WindowY(c, p.1) * FB_W + WindowX(c, p.0);
        && 0 <= a < FB_W * FB_H && |r.fb| == FB_W * FB_H
        && r.fb[a] == RbWrite(c.rb, g.fb[a], ToBits(RgbFrom(c,
             (it.red + k * NewportShade.SlopeOf(c.slopeRed, 0x80_0000)) % U32,
             (it.green + k * NewportShade.SlopeOf(c.slopeGreen, 0x8_0000)) % U32,
             (it.blue + k * NewportShade.SlopeOf(c.slopeBlue, 0x8_0000)) % U32,
             (it.alpha + k * NewportShade.SlopeOf(c.slopeAlpha, 0x8_0000)) % U32, p.0, p.1)))
  {
    hide RbWrite, ToBits, RgbFrom, PlotAll, PenAt, SetUp, Longer, Major, Points, ValidShift, ValidRegs, NewportShade.Gouraud, ClipPass,
      NewportShade.SlopeOf, ToI16;
    LongerIsMajor(l);
    PlainLine(l, f);
    TrailDistinct(l);
    PenInside(l, k);
    Fits(c, g);
    var pts := Trail(l, Longer(l) + 1);
    var p := At(PenAt(l, k));
    assert pts[k] == p;
    if ClipPass(c, p.0, p.1) {
      var a := NewportShade.Spot(c, p.0, p.1);
      PlotInks(c, g, pts, color, a);
      assert Dots(c, pts, k, a);
    }
  }
}
