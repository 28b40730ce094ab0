/** The integer Bresenham line of the board: octant setup, the step table, and what a line plots. */
module NewportLine {
  import opened Words
  import opened Newport
  import opened NewportRow

  /** A row of the step table: the moves without and with a minor step (y moves are subtracted),
      and whether y is the major axis. */
  datatype Bres = Bres(incrX1: int, incrX2: int, incrY1: int, incrY2: int, yMajor: bool)

  const BRES: seq<Bres> := [
    Bres(0, 1, -1, -1, true), Bres(0, 1, 1, 1, true), Bres(0, -1, -1, -1, true), Bres(0, -1, 1, 1, true),
    Bres(1, 1, 0, -1, false), Bres(1, 1, 0, 1, false), Bres(-1, -1, 0, -1, false), Bres(-1, -1, 0, 1, false)]

  function Toward(a: int, b: int): int { if a > b then -1 else 1 }

  /** The octant {XMAJOR, XDEC, YDEC} that line setup computes: its row of the table always moves toward
      the end along the longer axis, and along the other one on a minor step only. */
  function OctantOf(x1: int, y1: int, x2: int, y2: int): (o: nat)
    ensures o < 8
    ensures var (b, tx, ty) := (BRES[o], Toward(x1, x2), 0 - Toward(y1, y2));
      && b.yMajor == (Abs(x1 - x2) <= Abs(y1 - y2))
      && (b.incrX1, b.incrX2) == (if b.yMajor then 0 else tx, tx) && (b.incrY1, b.incrY2) == (if b.yMajor then ty else 0, ty)
  {
    (if y1 > y2 then 1 else 0) + (if x1 > x2 then 2 else 0) + (if Abs(x1 - x2) > Abs(y1 - y2) then 4 else 0)
  }

  /** Endpoints and stored octant of a line draw. */
  datatype Line = Line(x1: i16, y1: i16, x2: i16, y2: i16, octant: nat)

  /** The line's stepper: a position and the decision variable. */
  datatype Pen = Pen(x: int, y: int, d: int)

  function Dx(l: Line): nat { Abs(l.x2 - l.x1) }
  function Dy(l: Line): nat { Abs(l.y2 - l.y1) }

  /** Extent along the octant's major and minor axes. */
  function Major(l: Line): nat
    requires l.octant < 8
  {
    if BRES[l.octant].yMajor then Dy(l) else Dx(l)
  }

  function Minor(l: Line): nat
    requires l.octant < 8
  {
    if BRES[l.octant].yMajor then Dx(l) else Dy(l)
  }

  function Start(l: Line): Pen
    requires l.octant < 8
  {
    Pen(l.x1, l.y1, 2 * Minor(l) - Major(l))
  }

  function Step(l: Line, p: Pen): Pen
    requires l.octant < 8
  {
    var b := BRES[l.octant];
    if p.d < 0 then Pen(p.x + b.incrX1, p.y - b.incrY1, p.d + 2 * Minor(l))
    else Pen(p.x + b.incrX2, p.y - b.incrY2, p.d + 2 * (Minor(l) - Major(l)))
  }

  function PenAt(l: Line, k: nat): Pen
    requires l.octant < 8
  {
    if k == 0 then Start(l) else Step(l, PenAt(l, k - 1))
  }

  type Point = (int, int)

  function At(p: Pen): Point { (p.x, p.y) }

  /** The first n pen positions. */
  function Trail(l: Line, n: nat): (s: seq<Point>)
    requires l.octant < 8
    ensures |s| == n && forall k :: 0 <= k < n ==> s[k] == At(PenAt(l, k))
  {
    if n == 0 then [] else Trail(l, n - 1) + [At(PenAt(l, n - 1))]
  }

  // ---- the line meets its endpoint ----

  /** Minor steps among the first k. */
  function MinorSteps(l: Line, k: nat): (m: nat)
    requires l.octant < 8
  {
    if k == 0 then 0 else MinorSteps(l, k - 1) + if PenAt(l, k - 1).d < 0 then 0 else 1
  }

  /** The point k major and m minor steps from the start. */
  function Offset(l: Line, k: int, m: int): Point
    requires l.octant < 8
  {
    if BRES[l.octant].yMajor then (l.x1 + m * Toward(l.x1, l.x2), l.y1 + k * Toward(l.y1, l.y2))
    else (l.x1 + k * Toward(l.x1, l.x2), l.y1 + m * Toward(l.y1, l.y2))
  }

  /** The stored octant is the one setup computes for these endpoints, and the line has a length. */
  predicate SetUp(l: Line) {
    l.octant == OctantOf(l.x1, l.y1, l.x2, l.y2) && (Dx(l) > 0 || Dy(l) > 0)
  }

  /** Twice the minor-axis error after k steps, in units of 1/Major: how far the pen is behind the
      true line. */
  function Error(l: Line, k: nat): int
    requires l.octant < 8
  {
    2 * (k * Minor(l) - MinorSteps(l, k) * Major(l))
  }

  lemma ErrorArith(a: int, n: int, m: int, k: int)
    ensures 2 * (k * a - m * n) == 2 * ((k - 1) * a - m * n) + 2 * a
    ensures 2 * (k * a - (m + 1) * n) == 2 * ((k - 1) * a - m * n) + 2 * a - 2 * n
  {
  }

  lemma Lengths(l: Line)
    requires SetUp(l)
    ensures l.octant < 8 && Minor(l) <= Major(l) && Major(l) > 0
  {
  }

  /** In every octant the pen is k major steps along, and within half a pixel of the true line. */
  lemma {:induction false} PenError(l: Line, k: nat)
    requires SetUp(l)
    ensures At(PenAt(l, k)) == Offset(l, k, MinorSteps(l, k))
    ensures PenAt(l, k).d == Error(l, k) + 2 * Minor(l) - Major(l)
    ensures 0 - Major(l) <= Error(l, k) < Major(l)
  {
    hide Major, Minor, SetUp, Offset;
    Lengths(l);
    if k == 0 {
      NoOffset(l);
    } else {
      PenError(l, k - 1);
      ErrorArith(Minor(l), Major(l), MinorSteps(l, k - 1), k);
      StepOffset(l, k, MinorSteps(l, k - 1));
    }
  }

  lemma NoOffset(l: Line)
    requires l.octant < 8
    ensures Offset(l, 0, 0) == (l.x1, l.y1)
  {
  }

  lemma StepOffset(l: Line, k: nat, m: nat)
    requires SetUp(l) && k > 0
    ensures var b, p := BRES[l.octant], Offset(l, k - 1, m);
      && Offset(l, k, m) == (p.0 + b.incrX1, p.1 - b.incrY1)
      && Offset(l, k, m + 1) == (p.0 + b.incrX2, p.1 - b.incrY2)
  {
  }

  lemma WholeError(n: int, a: int, m: int)
    requires n > 0 && 0 - n <= 2 * (n * a - m * n) < n
    ensures a == m
  {
    Distribute(n, a, m);
    if a > m {
      AtLeast(n, a - m);
    } else if a < m {
      AtLeast(n, m - a);
      Distribute(n, m, a);
    }
  }

  lemma Distribute(n: int, a: int, m: int)
    ensures n * a - m * n == n * (a - m)
  {
  }

  lemma AtLeast(n: int, e: int)
    requires n > 0 && e > 0
    ensures n * e >= n
  {
  }

  /** After Major steps the pen stands on the end point. */
  lemma LineEnds(l: Line)
    requires SetUp(l)
    ensures At(PenAt(l, Major(l))) == (l.x2, l.y2)
  {
    EndOffset(l);
    hide Major, Minor, SetUp, Offset, PenAt, MinorSteps;
    Lengths(l);
    PenError(l, Major(l));
    WholeError(Major(l), Minor(l), MinorSteps(l, Major(l)));
  }

  lemma EndOffset(l: Line)
    requires SetUp(l)
    ensures Offset(l, Major(l), Minor(l)) == (l.x2, l.y2)
  {
  }

  // ---- what the draw plots ----

  /** Draw flags: limit to 32 pixels, skip the first or last pixel, single step. */
  datatype Flags = Flags(length32: bool, skipFirst: bool, skipLast: bool, one: bool)

  function Loop(l: Line, f: Flags): nat
    requires l.octant < 8
  {
    if f.length32 && Major(l) > 32 then 32 else Major(l)
  }

  /** How many pen positions are plotted before the end point. */
  function Plotted(l: Line, f: Flags): nat
    requires l.octant < 8
  {
    if f.one then 1 else (if f.skipFirst then 0 else 1) + Max(0, Loop(l, f) - 1)
  }

  function Points(l: Line, f: Flags): seq<Point>
    requires l.octant < 8
  {
    Trail(l, Plotted(l, f)) + if f.one || f.skipLast then [] else [(l.x2, l.y2)]
  }

  /** Where the draw leaves the start point registers. */
  function EndPoint(l: Line, f: Flags): Point
    requires l.octant < 8
  {
    if f.one then At(PenAt(l, 1)) else if f.skipLast then At(PenAt(l, Plotted(l, f))) else (l.x2, l.y2)
  }

  /** A plain line plots every pen position from start point to end point: Major + 1 pixels. */
  lemma PlainLine(l: Line, f: Flags)
    requires SetUp(l) && !f.length32 && !f.skipFirst && !f.skipLast && !f.one
    ensures Points(l, f) == Trail(l, Major(l) + 1)
    ensures |Points(l, f)| == Major(l) + 1
  {
    LineEnds(l);
  }

  /** Fold of output_pixel over the points; shaded pixels take the iterators' colour, then step. */
  function PlotAll(c: Regs, g: Gfx, pts: seq<Point>, color: u32): (r: Gfx)
    requires ValidGfx(c, g)
    ensures ValidGfx(c, r)
  {
    if pts == [] then g else Plot(c, PlotAll(c, g, pts[..|pts| - 1], color), pts[|pts| - 1], color)
  }

  lemma TrailStart(c: Regs, g: Gfx, l: Line, color: u32)
    requires ValidGfx(c, g) && l.octant < 8
    ensures PenAt(l, 0) == Start(l) && PlotAll(c, g, Trail(l, 0), color) == g
  {
  }

  lemma NothingMore(s: seq<Point>)
    ensures s + [] == s
  {
  }

  lemma PlotLast(c: Regs, g: Gfx, s: seq<Point>, p: Point, color: u32)
    requires ValidGfx(c, g)
    ensures PlotAll(c, g, s + [p], color) == Plot(c, PlotAll(c, g, s, color), p, color)
  {
    hide Plot;
    assert (s + [p])[..|s|] == s;
  }

  /** Plotting the next pen position extends the plotted trail, and a step moves the pen on. */
  lemma TrailGrows(c: Regs, g: Gfx, l: Line, n: nat, color: u32)
    requires ValidGfx(c, g) && l.octant < 8
    ensures PlotAll(c, g, Trail(l, n + 1), color) == Plot(c, PlotAll(c, g, Trail(l, n), color), At(PenAt(l, n)), color)
    ensures Step(l, PenAt(l, n)) == PenAt(l, n + 1)
  {
    hide Plot, Step, Start;
    assert Trail(l, n + 1)[..n] == Trail(l, n);
  }

  function Plot(c: Regs, g: Gfx, p: Point, color: u32): (r: Gfx)
    requires ValidGfx(c, g)
    ensures ValidGfx(c, r)
  {
    var x, y := ToI16(p.0), ToI16(p.1);
    var v := if Shade(c) || RgbMode(c) then RgbFrom(c, g.it.red, g.it.green, g.it.blue, g.it.alpha, x, y) else color;
    var g := OutputPixel(c, g, x, y, ToBits(v));
    g.(it := StepShade(c, g.it))
  }
}
