/** The colour functions as arithmetic on channels, digits and bits: what the span kernel and the pixel
    loop both take from the registers. */
module NewportColors {
  import opened Words
  import opened PixelOps
  import opened Newport
  import opened NewportRow
  import Bitwise

  // ---- iterators ----

  /** A channel's integer part counts from -128 to 383 and saturates to 0..255; a set top bit is 0. */
  lemma ClampSaturates(c: u32, top: nat, mid: nat, v: nat, frac: nat)
    requires c == top * 0x8000_0000 + (mid * 0x10_0000 + (v * 0x800 + frac))
    requires mid < 0x800 && v < 0x200 && frac < 0x800
    ensures Clamp(c) == if top > 0 then 0 else Max(0, Min(255, if v < 0x180 then v else v - 0x200))
  {
    QuotientUnique(c, 0x8000_0000, top, mid * 0x10_0000 + (v * 0x800 + frac));
    QuotientUnique(c, 0x800, top * 0x10_0000 + mid * 0x200 + v, frac);
    QuotientUnique(top * 0x10_0000 + mid * 0x200 + v, 0x200, top * 0x800 + mid, v);
  }

  /** The iterator clamp changes no colour, and nothing that the colour clamp would not. */
  lemma ClampKeepsColor(c: u32)
    ensures Clamp(ClampIter(c)) == Clamp(c)
    ensures 0 < Clamp(c) < 255 ==> ClampIter(c) == c
  {
  }

  /** A colour index of one bit too many saturates at 15, 19 or 21 bits, as bits 4 and 3 of the mode say. */
  lemma IndexSaturates(c: Regs, index: u32)
    requires !c.drawMode1[4] || !c.drawMode1[3]
    ensures var top := if c.drawMode1[4] then 0x20_0000 else if c.drawMode1[3] then 0x8_0000 else 0x8000;
      index < 2 * top ==> ClampCi(c, index) == Min(index, top - 1)
  {
  }

  // ---- depths ----

  /** A pixel of the depth from its channels, red lowest. */
  function Pixel(depth: nat, r: nat, g: nat, b: nat): nat {
    if depth == 0 then b * 8 + g * 2 + r
    else if depth == 1 then b * 64 + g * 8 + r
    else if depth == 2 then b * 0x100 + g * 0x10 + r
    else b * 0x10000 + g * 0x100 + r
  }

  /** The largest values of the three channels. */
  function Tops(depth: nat): (nat, nat, nat) {
    if depth == 0 then (1, 3, 1) else if depth == 1 then (7, 7, 3) else if depth == 2 then (15, 15, 15)
    else (255, 255, 255)
  }

  predicate InDepth(depth: nat, r: nat, g: nat, b: nat) {
    depth < 4 && r <= Tops(depth).0 && g <= Tops(depth).1 && b <= Tops(depth).2
  }

  /** A channel of 0..top spread over 0..255, to the nearest. */
  predicate Spreads(v: int, top: int, w: int) {
    0 <= w <= 255 && -top <= 2 * (w * top - 255 * v) <= top
  }

  lemma SpreadOf(v: nat, above: nat)
    requires v < 8
    ensures Spread3(above * 8 + v) == 36 * v + v / 2
  {
    var x := above * 8 + v;
    QuotientUnique(x, 4, above * 2 + v / 4, v % 4);
    QuotientUnique(x, 2, above * 4 + v / 2, v % 2);
    QuotientUnique(above * 2 + v / 4, 2, above, v / 4);
    QuotientUnique(above * 4 + v / 2, 2, above * 2 + v / 4, v / 2 % 2);
  }

  lemma PairOf(v: nat, above: nat)
    requires v < 4
    ensures Spread2(above * 4 + v) == 85 * v
  {
    QuotientUnique(above * 4 + v, 2, above * 2 + v / 2, v % 2);
    QuotientUnique(above * 2 + v / 2, 2, above, v / 2);
  }

  lemma UnpackFour(r: nat, g: nat, b: nat)
    requires r < 2 && g < 4 && b < 2
    ensures Unpack(b * 8 + g * 2 + r, 0) == (255 * r, 85 * g, 255 * b)
  {
    hide Spread2;
    PairOf(g, b);
    QuotientUnique(b * 8 + g * 2 + r, 2, b * 4 + g, r);
    QuotientUnique(b * 8 + g * 2 + r, 8, b, g * 2 + r);
  }

  lemma UnpackEight(r: nat, g: nat, b: nat)
    requires r < 8 && g < 8 && b < 4
    ensures Unpack(b * 64 + g * 8 + r, 1) == (36 * r + r / 2, 36 * g + g / 2, 85 * b)
  {
    hide Spread3, Spread2;
    SpreadOf(r, b * 8 + g);
    SpreadOf(g, b);
    PairOf(b, 0);
    QuotientUnique(b * 64 + g * 8 + r, 8, b * 8 + g, r);
    QuotientUnique(b * 64 + g * 8 + r, 64, b, g * 8 + r);
  }

  lemma UnpackTwelve(r: nat, g: nat, b: nat)
    requires r < 16 && g < 16 && b < 16
    ensures Unpack(b * 0x100 + g * 0x10 + r, 2) == (17 * r, 17 * g, 17 * b)
  {
    var c := b * 0x100 + g * 0x10 + r;
    QuotientUnique(c, 0x10, b * 0x10 + g, r);
    QuotientUnique(c, 0x100, b, g * 0x10 + r);
    QuotientUnique(b * 0x10 + g, 0x10, b, g);
  }

  lemma UnpackWide(r: nat, g: nat, b: nat)
    requires r < 256 && g < 256 && b < 256
    ensures Unpack(b * 0x10000 + g * 0x100 + r, 3) == (r, g, b)
  {
    var c := b * 0x10000 + g * 0x100 + r;
    QuotientUnique(c, 0x100, b * 0x100 + g, r);
    QuotientUnique(c, 0x10000, b, g * 0x100 + r);
    QuotientUnique(b * 0x100 + g, 0x100, b, g);
  }

  /** Unpacking a pixel finds its channels, each spread to the nearest of 0..255. */
  lemma UnpackSpreads(depth: nat, r: nat, g: nat, b: nat)
    requires InDepth(depth, r, g, b)
    ensures Pixel(depth, r, g, b) < 0x1000000
    ensures var (x, y, z) := Unpack(Pixel(depth, r, g, b), depth);
      && Spreads(r, Tops(depth).0, x) && Spreads(g, Tops(depth).1, y) && Spreads(b, Tops(depth).2, z)
  {
    hide Unpack;
    if depth == 0 {
      UnpackFour(r, g, b);
    } else if depth == 1 {
      UnpackEight(r, g, b);
    } else if depth == 2 {
      UnpackTwelve(r, g, b);
    } else {
      UnpackWide(r, g, b);
    }
  }

  /** The top of a channel: of 256 equal steps, n. */
  function Scaled8(v: u8, n: nat): nat {
    v * n / 256
  }

  lemma TopBits(v: u8, n: nat, w: nat)
    requires n * w == 256 && n > 0 && w > 0
    ensures Scaled8(v, n) == v / w && v / w < n
  {
    var q, r := v / w, v % w;
    Distributes(n, w, q, r);
    BelowWhole(r, n, w);
    QuotientUnique(v * n, 256, q, r * n);
    if q >= n {
      MulMono(w, n, q);
    }
  }

  lemma BelowWhole(r: nat, n: nat, w: nat)
    requires r < w && n > 0
    ensures r * n < n * w
  {
    MulMono(n, r + 1, w);
  }

  lemma Distributes(n: int, w: int, q: int, r: int)
    ensures (w * q + r) * n == n * w * q + r * n
  {
  }

  /** Repacking keeps the top of each channel: of 256 equal steps as many as the depth has. */
  lemma RepackDivides(depth: nat, r: u8, g: u8, b: u8)
    requires depth < 4
    ensures var (x, y, z) := Tops(depth);
      && InDepth(depth, Scaled8(r, x + 1), Scaled8(g, y + 1), Scaled8(b, z + 1))
      && Repack(r, g, b, depth) == Pixel(depth, Scaled8(r, x + 1), Scaled8(g, y + 1), Scaled8(b, z + 1))
  {
    hide Scaled8;
    if depth == 0 {
      TopBits(r, 2, 128);
      TopBits(g, 4, 64);
      TopBits(b, 2, 128);
    } else if depth == 1 {
      TopBits(r, 8, 32);
      TopBits(g, 8, 32);
      TopBits(b, 4, 64);
    } else if depth == 2 {
      TopBits(r, 16, 16);
      TopBits(g, 16, 16);
      TopBits(b, 16, 16);
    } else {
      TopBits(r, 256, 1);
      TopBits(g, 256, 1);
      TopBits(b, 256, 1);
    }
  }

  /** A pixel taken to another depth has each channel's nearest spread there, rounded down. */
  lemma ConvertsChannels(src: nat, dst: nat, r: nat, g: nat, b: nat)
    requires InDepth(src, r, g, b) && dst < 4 && src != dst
    ensures Pixel(src, r, g, b) < 0x1000000
    ensures exists x: u8, y: u8, z: u8 ::
      && Spreads(r, Tops(src).0, x) && Spreads(g, Tops(src).1, y) && Spreads(b, Tops(src).2, z)
      && ConvertDepth(Pixel(src, r, g, b), src, dst) ==
         Pixel(dst, Scaled8(x, Tops(dst).0 + 1), Scaled8(y, Tops(dst).1 + 1), Scaled8(z, Tops(dst).2 + 1))
  {
    hide Unpack, Repack, Pixel, Tops, InDepth, Spreads;
    UnpackSpreads(src, r, g, b);
    var (x, y, z) := Unpack(Pixel(src, r, g, b), src);
    RepackDivides(dst, x, y, z);
  }

  /** So a pixel widened to 24 bits and narrowed again is itself. */
  lemma WidenNarrow(depth: nat, r: nat, g: nat, b: nat)
    requires InDepth(depth, r, g, b)
    ensures Pixel(depth, r, g, b) < 0x1000000
    ensures ConvertDepth(ConvertDepth(Pixel(depth, r, g, b), depth, 3), 3, depth) == Pixel(depth, r, g, b)
  {
    hide Unpack, Repack, Scaled8, Spreads;
    UnpackSpreads(depth, r, g, b);
    var x, y, z := Unpack(Pixel(depth, r, g, b), depth).0, Unpack(Pixel(depth, r, g, b), depth).1,
      Unpack(Pixel(depth, r, g, b), depth).2;
    if depth < 3 {
      WideRepack(x, y, z);
      UnpackWide(x, y, z);
      RepackDivides(depth, x, y, z);
      SpreadBack(r, Tops(depth).0, x);
      SpreadBack(g, Tops(depth).1, y);
      SpreadBack(b, Tops(depth).2, z);
    }
  }

  lemma WideRepack(r: u8, g: u8, b: u8)
    ensures Repack(r, g, b, 3) == b * 0x10000 + g * 0x100 + r
  {
  }

  lemma SpreadBack(v: nat, top: nat, w: u8)
    requires (top == 1 || top == 3 || top == 7 || top == 15) && v <= top && Spreads(v, top, w)
    ensures Scaled8(w, top + 1) == v
  {
  }

  // ---- dithering ----

  /** The Bayer matrix is the 2 by 2 one, of the low bits of x and y four times, plus itself of the next
      bits. */
  function Bayer2(x: int, y: int): nat
    requires 0 <= x < 2 && 0 <= y < 2
  {
    if x == 0 then 3 * y else 2 - y
  }

  lemma BayerNests(x: int, y: int)
    ensures Bayer(x, y) == 4 * Bayer2(x % 2, y % 2) + Bayer2(x / 2 % 2, y / 2 % 2)
  {
    var i, j := x % 4, y % 4;
    Low(x);
    Low(y);
    assert i == 0 || i == 1 || i == 2 || i == 3;
    assert j == 0 || j == 1 || j == 2 || j == 3;
  }

  lemma Low(x: int)
    ensures x % 2 == x % 4 % 2 && x / 2 % 2 == x % 4 / 2
  {
  }

  /** A function of the threshold summed over a 4 by 4 tile. */
  function LineSum(f: nat -> nat, x: int, y: int): nat {
    f(Bayer(x, y)) + f(Bayer(x, y + 1)) + f(Bayer(x, y + 2)) + f(Bayer(x, y + 3))
  }

  function TileSum(f: nat -> nat, x: int, y: int): nat {
    LineSum(f, x, y) + LineSum(f, x + 1, y) + LineSum(f, x + 2, y) + LineSum(f, x + 3, y)
  }

  /** And over the first k thresholds. */
  function ThresholdSum(f: nat -> nat, k: nat): nat {
    if k == 0 then 0 else ThresholdSum(f, k - 1) + f(k - 1)
  }

  function RowSum(f: nat -> nat, i: int): nat
    requires 0 <= i < 4
  {
    f(BAYER[i][0]) + f(BAYER[i][1]) + f(BAYER[i][2]) + f(BAYER[i][3])
  }

  /** A line of a tile, wherever it starts. */
  lemma LineWraps(f: nat -> nat, x: int, y: int)
    ensures LineSum(f, x, y) == RowSum(f, x % 4)
  {
    Turns(y);
  }

  lemma Turns(y: int)
    ensures var r := y % 4;
      if r == 0 then (y + 1) % 4 == 1 && (y + 2) % 4 == 2 && (y + 3) % 4 == 3
      else if r == 1 then (y + 1) % 4 == 2 && (y + 2) % 4 == 3 && (y + 3) % 4 == 0
      else if r == 2 then (y + 1) % 4 == 3 && (y + 2) % 4 == 0 && (y + 3) % 4 == 1
      else (y + 1) % 4 == 0 && (y + 2) % 4 == 1 && (y + 3) % 4 == 2
  {
  }

  lemma Thresholds(f: nat -> nat)
    ensures ThresholdSum(f, 16) == RowSum(f, 0) + RowSum(f, 1) + RowSum(f, 2) + RowSum(f, 3)
  {
    assert ThresholdSum(f, 4) == f(0) + f(1) + f(2) + f(3);
    assert ThresholdSum(f, 8) == ThresholdSum(f, 4) + f(4) + f(5) + f(6) + f(7);
    assert ThresholdSum(f, 12) == ThresholdSum(f, 8) + f(8) + f(9) + f(10) + f(11);
    assert ThresholdSum(f, 16) == ThresholdSum(f, 12) + f(12) + f(13) + f(14) + f(15);
  }

  /** A tile anywhere on the screen has every threshold once. */
  lemma TileIsThresholds(f: nat -> nat, x: int, y: int)
    ensures TileSum(f, x, y) == ThresholdSum(f, 16)
  {
    hide LineSum, ThresholdSum, RowSum;
    LineWraps(f, x, y);
    LineWraps(f, x + 1, y);
    LineWraps(f, x + 2, y);
    LineWraps(f, x + 3, y);
    Turns(x);
    Thresholds(f);
  }

  /** The scaled form of a channel for a top of 16 / d - 1. */
  function Share(v: u8, d: nat): int
    requires d > 0
  {
    v / d - v / 16
  }

  /** It is sixteen times the channel's share of the top, to less than one. */
  lemma SharesTop(v: u8, d: nat)
    requires d == 1 || d == 2 || d == 4 || d == 8
    ensures var top := 16 / d - 1; 0 <= Share(v, d) <= 16 * top && -255 < 255 * Share(v, d) - 16 * top * v < 255
  {
    var h, l := v / 16, v % 16;
    SharePart(h, l, d);
  }

  lemma SharePart(h: nat, l: nat, d: nat)
    requires h < 16 && l < 16 && (d == 1 || d == 2 || d == 4 || d == 8)
    ensures var v, top := 16 * h + l, 16 / d - 1;
      v / d - h == h * top + l / d && 0 <= v / d - h <= 16 * top
      && -255 < 255 * (v / d - h) - 16 * top * v < 255
  {
    if d == 1 {
      QuotientUnique(16 * h + l, 1, 16 * h + l, 0);
    } else if d == 2 {
      QuotientUnique(16 * h + l, 2, 8 * h + l / 2, l % 2);
    } else if d == 4 {
      QuotientUnique(16 * h + l, 4, 4 * h + l / 4, l % 4);
    } else {
      QuotientUnique(16 * h + l, 8, 2 * h + l / 8, l % 8);
    }
  }

  function Bumps(s: nat, narrow: bool, top: u8): nat -> nat
    requires top <= 15
  {
    (bay: nat) => Bump(s, narrow, bay, top)
  }

  lemma BumpIs(s: nat, narrow: bool, top: u8, bay: nat)
    requires top <= 15 && s <= 16 * top
    ensures Bump(s, narrow, bay, top) == s / 16 + if s % 16 > bay then 1 else 0
  {
    QuotientUnique(s, 256, 0, s);
    QuotientUnique(s / 16, top + 1, 0, s / 16);
  }

  /** Over the sixteen thresholds a channel comes to its scaled value. */
  lemma {:induction false} BumpsAdd(s: nat, narrow: bool, top: u8, k: nat)
    requires top <= 15 && s <= 16 * top
    ensures ThresholdSum(Bumps(s, narrow, top), k) == k * (s / 16) + Min(k, s % 16)
  {
    hide Bump;
    if k > 0 {
      var q: nat, r: nat := s / 16, s % 16;
      BumpsAdd(s, narrow, top, k - 1);
      BumpIs(s, narrow, top, k - 1);
      assert k * q == (k - 1) * q + q;
      assert ThresholdSum(Bumps(s, narrow, top), k) == (k - 1) * q + Min(k - 1, r) + (q + if r > k - 1 then 1 else 0);
    }
  }

  /** Channel ch of a dithered pixel, and the largest it can be. */
  function Field(depth: nat, ch: nat, p: nat): nat {
    if depth == 0 then if ch == 0 then p % 2 else if ch == 1 then p / 2 % 4 else p / 8 % 2
    else if depth == 1 then if ch == 0 then p % 8 else if ch == 1 then p / 8 % 8 else p / 64 % 4
    else if ch == 0 then p % 0x10 else if ch == 1 then p / 0x10 % 0x10 else p / 0x100 % 0x10
  }

  function Pick(ch: nat, a: nat, b: nat, c: nat): nat {
    if ch == 0 then a else if ch == 1 then b else c
  }

  function TopOf(depth: nat, ch: nat): nat {
    Pick(ch, Tops(depth).0, Tops(depth).1, Tops(depth).2)
  }

  lemma FieldsOfFour(alpha: u8, r: nat, g: nat, b: nat)
    requires r < 2 && g < 4 && b < 2
    ensures var p := Packed(0, alpha, r, g, b); Field(0, 0, p) == r && Field(0, 1, p) == g && Field(0, 2, p) == b
  {
    var q := alpha * 0x10_0000 + (b * 8 + g * 2 + r);
    var p := q * 16 + (b * 8 + g * 2 + r);
    assert Packed(0, alpha, r, g, b) == p;
    QuotientUnique(p, 2, q * 8 + (b * 4 + g), r);
    QuotientUnique(p, 8, q * 2 + b, g * 2 + r);
    QuotientUnique(q * 8 + (b * 4 + g), 4, q * 2 + b, g);
    QuotientUnique(q * 2 + b, 2, q, b);
  }

  lemma FieldsOfEight(alpha: u8, r: nat, g: nat, b: nat)
    requires r < 8 && g < 8 && b < 4
    ensures var p := Packed(1, alpha, r, g, b); Field(1, 0, p) == r && Field(1, 1, p) == g && Field(1, 2, p) == b
  {
    var q := alpha * 0x1_0000;
    var p := q * 256 + (b * 64 + g * 8 + r);
    assert Packed(1, alpha, r, g, b) == p;
    QuotientUnique(p, 8, q * 32 + (b * 8 + g), r);
    QuotientUnique(p, 64, q * 4 + b, g * 8 + r);
    QuotientUnique(q * 32 + (b * 8 + g), 8, q * 4 + b, g);
    QuotientUnique(q * 4 + b, 4, q, b);
  }

  lemma FieldsOfTwelve(alpha: u8, r: nat, g: nat, b: nat)
    requires r < 16 && g < 16 && b < 16
    ensures var p := Packed(2, alpha, r, g, b); Field(2, 0, p) == r && Field(2, 1, p) == g && Field(2, 2, p) == b
  {
    var q := alpha * 0x1000 + (b * 256 + g * 16 + r);
    var p := q * 0x1000 + (b * 256 + g * 16 + r);
    assert Packed(2, alpha, r, g, b) == p;
    QuotientUnique(p, 16, q * 256 + (b * 16 + g), r);
    QuotientUnique(p, 256, q * 16 + b, g * 16 + r);
    QuotientUnique(q * 256 + (b * 16 + g), 16, q * 16 + b, g);
    QuotientUnique(q * 16 + b, 16, q, b);
  }

  /** Channel ch of the dithered colour of 8-bit channels, as a function of the threshold. */
  function Dithered(depth: nat, ch: nat, red: u8, green: u8, blue: u8, alpha: u8): nat -> nat {
    (bay: nat) => Field(depth, ch, DitherSwitch(depth, red, green, blue, alpha, bay))
  }

  lemma BumpFour(red: u8, green: u8, blue: u8, alpha: u8, bay: nat)
    ensures var p := DitherSwitch(0, red, green, blue, alpha, bay);
      && Field(0, 0, p) == Bump(Share(red, 8), true, bay, 1) && Field(0, 1, p) == Bump(Share(green, 4), true, bay, 3)
      && Field(0, 2, p) == Bump(Share(blue, 8), true, bay, 1)
  {
    hide Bump, Packed, Field;
    var (sr, sg, sb) := Scaled(0, red, green, blue);
    FieldsOfFour(alpha, Bump(sr, true, bay, 1), Bump(sg, true, bay, 3), Bump(sb, true, bay, 1));
  }

  lemma BumpEight(red: u8, green: u8, blue: u8, alpha: u8, bay: nat)
    ensures var p := DitherSwitch(1, red, green, blue, alpha, bay);
      && Field(1, 0, p) == Bump(Share(red, 2), true, bay, 7) && Field(1, 1, p) == Bump(Share(green, 2), true, bay, 7)
      && Field(1, 2, p) == Bump(Share(blue, 4), true, bay, 3)
  {
    hide Bump, Packed, Field;
    var (sr, sg, sb) := Scaled(1, red, green, blue);
    FieldsOfEight(alpha, Bump(sr, true, bay, 7), Bump(sg, true, bay, 7), Bump(sb, true, bay, 3));
  }

  lemma BumpTwelve(red: u8, green: u8, blue: u8, alpha: u8, bay: nat)
    ensures var p := DitherSwitch(2, red, green, blue, alpha, bay);
      && Field(2, 0, p) == Bump(Share(red, 1), false, bay, 15) && Field(2, 1, p) == Bump(Share(green, 1), false, bay, 15)
      && Field(2, 2, p) == Bump(Share(blue, 1), false, bay, 15)
  {
    hide Bump, Packed, Field;
    var (sr, sg, sb) := Scaled(2, red, green, blue);
    FieldsOfTwelve(alpha, Bump(sr, false, bay, 15), Bump(sg, false, bay, 15), Bump(sb, false, bay, 15));
  }

  lemma TopsOf(depth: nat, ch: nat)
    requires depth < 3 && ch < 3
    ensures var (top, d) := (TopOf(depth, ch), 16 / (TopOf(depth, ch) + 1));
      && (d == 1 || d == 2 || d == 4 || d == 8) && top == 16 / d - 1 && top <= 15
      && (depth == 0 ==> d == if ch == 1 then 4 else 8) && (depth == 1 ==> d == if ch == 2 then 4 else 2)
      && (depth == 2 ==> d == 1)
  {
  }

  lemma FieldBumps(depth: nat, ch: nat, red: u8, green: u8, blue: u8, alpha: u8, bay: nat)
    requires depth < 3 && ch < 3
    ensures TopOf(depth, ch) <= 15 && Share(Pick(ch, red, green, blue), 16 / (TopOf(depth, ch) + 1)) >= 0
    ensures Dithered(depth, ch, red, green, blue, alpha)(bay) ==
            Bumps(Share(Pick(ch, red, green, blue), 16 / (TopOf(depth, ch) + 1)), depth < 2, TopOf(depth, ch))(bay)
  {
    hide Bump, DitherSwitch, Field, Share, TopOf;
    TopsOf(depth, ch);
    SharesTop(Pick(ch, red, green, blue), 16 / (TopOf(depth, ch) + 1));
    BumpFour(red, green, blue, alpha, bay);
    BumpEight(red, green, blue, alpha, bay);
    BumpTwelve(red, green, blue, alpha, bay);
  }

  lemma {:induction false} SameSum(f: nat -> nat, g: nat -> nat, k: nat)
    requires forall bay: nat :: f(bay) == g(bay)
    ensures ThresholdSum(f, k) == ThresholdSum(g, k)
  {
    if k > 0 {
      SameSum(f, g, k - 1);
    }
  }

  /** Dithering keeps the brightness: over any 4 by 4 tile a channel of 0..255 adds up to sixteen times
      its share of the depth's top, to less than one step in all. */
  lemma TileAverages(depth: nat, ch: nat, red: u8, green: u8, blue: u8, alpha: u8, x: int, y: int)
    requires depth < 3 && ch < 3
    ensures var sum := TileSum(Dithered(depth, ch, red, green, blue, alpha), x, y);
      -255 < 255 * sum - 16 * TopOf(depth, ch) * Pick(ch, red, green, blue) < 255
  {
    hide Dithered, Bumps, TileSum, ThresholdSum, Share;
    var f, v, top := Dithered(depth, ch, red, green, blue, alpha), Pick(ch, red, green, blue), TopOf(depth, ch);
    TileIsThresholds(f, x, y);
    SharesTop(v, 16 / (top + 1));
    var g := Bumps(Share(v, 16 / (top + 1)), depth < 2, top);
    forall bay: nat ensures f(bay) == g(bay) {
      FieldBumps(depth, ch, red, green, blue, alpha, bay);
    }
    SameSum(f, g, 16);
    BumpsAdd(Share(v, 16 / (top + 1)), depth < 2, top, 16);
  }

  // ---- the shading colour ----

  /** Channels of 0..255 as the iterators show them. */
  predicate Shows(cr: u32, cg: u32, cb: u32, ca: u32, red: u8, green: u8, blue: u8, alpha: u8) {
    Clamp(cr) == red && Clamp(cg) == green && Clamp(cb) == blue && Clamp(ca) == alpha
  }

  /** Undithered, the colour is the tops of the channels, under the alpha byte. */
  lemma RgbCuts(c: Regs, cr: u32, cg: u32, cb: u32, ca: u32, red: u8, green: u8, blue: u8, alpha: u8, x: int, y: int)
    requires c.planeDepth < 4 && c.drawMode1[15] && !c.drawMode1[16] && Shows(cr, cg, cb, ca, red, green, blue, alpha)
    ensures var d := c.planeDepth;
      RgbFrom(c, cr, cg, cb, ca, x, y) == alpha * 0x1000000 +
        Pixel(d, Scaled8(red, Tops(d).0 + 1), Scaled8(green, Tops(d).1 + 1), Scaled8(blue, Tops(d).2 + 1))
  {
    hide Clamp, Unpack, Repack, Scaled8;
    UnpackWide(red, green, blue);
    RepackDivides(c.planeDepth, red, green, blue);
    if c.planeDepth == 3 {
      TopBits(red, 256, 1);
      TopBits(green, 256, 1);
      TopBits(blue, 256, 1);
    }
  }

  /** Channel ch of the colour at (x, y). */
  function Shown(c: Regs, ch: nat, cr: u32, cg: u32, cb: u32, ca: u32, x: int, y: int): nat
    requires c.planeDepth < 4
  {
    Field(c.planeDepth, ch, RgbFrom(c, cr, cg, cb, ca, x, y))
  }

  function ShownLine(c: Regs, ch: nat, cr: u32, cg: u32, cb: u32, ca: u32, x: int, y: int): nat
    requires c.planeDepth < 4
  {
    Shown(c, ch, cr, cg, cb, ca, x, y) + Shown(c, ch, cr, cg, cb, ca, x, y + 1) +
    Shown(c, ch, cr, cg, cb, ca, x, y + 2) + Shown(c, ch, cr, cg, cb, ca, x, y + 3)
  }

  lemma ShownDithered(c: Regs, ch: nat, cr: u32, cg: u32, cb: u32, ca: u32, x: int, y: int)
    requires c.planeDepth < 3 && c.drawMode1[15] && c.drawMode1[16]
    ensures Shown(c, ch, cr, cg, cb, ca, x, y) ==
            Dithered(c.planeDepth, ch, Clamp(cr), Clamp(cg), Clamp(cb), Clamp(ca))(Bayer(x, y))
  {
    hide Clamp, Field, DitherSwitch, Bayer;
  }

  lemma LineDithered(c: Regs, ch: nat, cr: u32, cg: u32, cb: u32, ca: u32, x: int, y: int)
    requires c.planeDepth < 3 && c.drawMode1[15] && c.drawMode1[16]
    ensures ShownLine(c, ch, cr, cg, cb, ca, x, y) ==
            LineSum(Dithered(c.planeDepth, ch, Clamp(cr), Clamp(cg), Clamp(cb), Clamp(ca)), x, y)
  {
    hide Clamp, Shown, Dithered, Bayer;
    ShownDithered(c, ch, cr, cg, cb, ca, x, y);
    ShownDithered(c, ch, cr, cg, cb, ca, x, y + 1);
    ShownDithered(c, ch, cr, cg, cb, ca, x, y + 2);
    ShownDithered(c, ch, cr, cg, cb, ca, x, y + 3);
  }

  /** Dithered, an even colour keeps its brightness over any 4 by 4 tile of the screen: each channel of
      the sixteen pixels adds up to sixteen times its share of the depth's top, to less than one. */
  lemma RgbTile(c: Regs, ch: nat, cr: u32, cg: u32, cb: u32, ca: u32, red: u8, green: u8, blue: u8, alpha: u8, x: int, y: int)
    requires c.planeDepth < 3 && c.drawMode1[15] && c.drawMode1[16] && ch < 3
    requires Shows(cr, cg, cb, ca, red, green, blue, alpha)
    ensures var sum := ShownLine(c, ch, cr, cg, cb, ca, x, y) + ShownLine(c, ch, cr, cg, cb, ca, x + 1, y) +
                       ShownLine(c, ch, cr, cg, cb, ca, x + 2, y) + ShownLine(c, ch, cr, cg, cb, ca, x + 3, y);
      -255 < 255 * sum - 16 * TopOf(c.planeDepth, ch) * Pick(ch, red, green, blue) < 255
  {
    hide Clamp, ShownLine, LineSum, Dithered;
    LineDithered(c, ch, cr, cg, cb, ca, x, y);
    LineDithered(c, ch, cr, cg, cb, ca, x + 1, y);
    LineDithered(c, ch, cr, cg, cb, ca, x + 2, y);
    LineDithered(c, ch, cr, cg, cb, ca, x + 3, y);
    TileAverages(c.planeDepth, ch, red, green, blue, alpha, x, y);
  }

  // ---- host pixels ----

  /** How many values a host pixel has. */
  function HostSpan(depth: nat): nat {
    if depth == 0 then 16 else if depth == 1 then 256 else if depth == 2 then 4096 else U32
  }

  lemma {:induction false} ShiftDrops(hi: nat, lo: nat, n: nat)
    requires lo < Bitwise.Pow2(n)
    ensures ShiftDown(hi * Bitwise.Pow2(n) + lo, n) == hi
    decreases n
  {
    if n > 0 {
      var p := Bitwise.Pow2(n - 1);
      Doubles(hi, p);
      QuotientUnique(hi * (2 * p) + lo, 2, hi * p + lo / 2, lo % 2);
      ShiftDrops(hi, lo / 2, n - 1);
    }
  }

  lemma Doubles(hi: int, p: int)
    ensures hi * (2 * p) == 2 * (hi * p)
  {
  }

  /** The pixel at a shift of the data port, in the depth of the planes and in the byte order asked. */
  lemma HostDigit(c: Regs, shift: nat, high: nat, p: nat, low: nat)
    requires low < Bitwise.Pow2(shift) && p < HostSpan(c.hostdepth)
    requires c.hostDataport == (high * HostSpan(c.hostdepth) + p) * Bitwise.Pow2(shift) + low
    ensures p < U32
    ensures HostPixel(c, shift) == var v := ConvertDepth(p, c.hostdepth, c.planeDepth); if c.drawMode1[11] then Bswap32(v) else v
  {
    hide ConvertDepth, Bswap32, ShiftDown;
    ShiftDrops(high * HostSpan(c.hostdepth) + p, low, shift);
    HostRaw(c.hostdepth, high, p);
  }

  lemma HostRaw(depth: nat, high: nat, p: nat)
    requires p < HostSpan(depth)
    ensures var raw := (high * HostSpan(depth) + p) % U32;
      p == if depth == 0 then raw % 0x10 else if depth == 1 then raw % 0x100 else if depth == 2 then raw % 0x1000 else raw
  {
    var w, n := high * HostSpan(depth) + p, HostSpan(depth);
    QuotientUnique(w, n, high, p);
    if depth < 3 {
      Coarse(w, n);
    }
  }

  lemma Coarse(w: nat, m: nat)
    requires m == 0x10 || m == 0x100 || m == 0x1000
    ensures w % U32 % m == w % m
  {
    var q, r := w / U32, w % U32;
    QuotientUnique(w, m, q * (U32 / m) + r / m, r % m);
  }

  /** Byte order exchanged. */
  lemma SwapsBytes(a: u8, b: u8, c: u8, d: u8)
    ensures a * 0x1000000 + b * 0x10000 + c * 0x100 + d < U32
    ensures Bswap32(a * 0x1000000 + b * 0x10000 + c * 0x100 + d) == d * 0x1000000 + c * 0x10000 + b * 0x100 + a
  {
    var x := a * 0x1000000 + b * 0x10000 + c * 0x100 + d;
    QuotientUnique(x, 0x100, a * 0x10000 + b * 0x100 + c, d);
    QuotientUnique(x, 0x10000, a * 0x100 + b, c * 0x100 + d);
    QuotientUnique(x, 0x1000000, a, b * 0x10000 + c * 0x100 + d);
    QuotientUnique(a * 0x10000 + b * 0x100 + c, 0x100, a * 0x100 + b, c);
    QuotientUnique(a * 0x100 + b, 0x100, a, b);
  }

  /** Bits of the port a packed pixel takes, and how many pixels a draw takes before it starts again. */
  function PortUnit(c: Regs): nat {
    if c.hostdepth <= 1 then 8 else if c.hostdepth == 2 then 16 else 32
  }

  function PortCount(c: Regs): nat {
    (if c.rwdouble then 64 else 32) / PortUnit(c)
  }

  /** A packed host draw takes the pixels of the port from its top unit down, 64 bits or the upper 32,
      and starts again at the top. */
  lemma {:induction false} HostOrder(c: Regs, k: nat)
    requires c.colorHost && c.rwpacked && c.hostdepth < 4 && forall j: nat :: j < k ==> Pat(c, j)
    ensures PortCount(c) > 0 && PortUnit(c) <= 64 && ValidShift(c.hostdepth, 64 - PortUnit(c))
    ensures LaneShift(c, 64 - PortUnit(c), k) == 64 - PortUnit(c) * (k % PortCount(c) + 1)
  {
    hide Pat, NextShift, PortUnit, PortCount, ValidShift;
    FirstUnit(c);
    if k > 0 {
      HostOrder(c, k - 1);
      HostTurn(k - 1, PortCount(c));
      NextUnit(c, (k - 1) % PortCount(c));
    }
  }

  lemma FirstUnit(c: Regs)
    requires c.hostdepth < 4
    ensures PortCount(c) == 1 || PortCount(c) == 2 || PortCount(c) == 4 || PortCount(c) == 8
    ensures PortUnit(c) <= 64 && ValidShift(c.hostdepth, 64 - PortUnit(c))
  {
  }

  lemma NextUnit(c: Regs, j: nat)
    requires c.rwpacked && c.hostdepth < 4 && j < PortCount(c)
    ensures var s := 64 - PortUnit(c) * (j + 1);
      && s >= 0 && ValidShift(c.hostdepth, s)
      && NextShift(c, s) == 64 - PortUnit(c) * ((if j + 1 == PortCount(c) then 0 else j + 1) + 1)
  {
    if c.hostdepth <= 1 {
      NextByte(c, j);
    } else if c.hostdepth == 2 {
      assert PortUnit(c) == 16;
    }
  }

  lemma NextByte(c: Regs, j: nat)
    requires c.rwpacked && c.hostdepth <= 1 && j < if c.rwdouble then 8 else 4
    ensures var s := 64 - 8 * (j + 1);
      && s >= 0 && ValidShift(c.hostdepth, s)
      && NextShift(c, s) == 64 - 8 * ((if j + 1 == if c.rwdouble then 8 else 4 then 0 else j + 1) + 1)
  {
  }

  lemma HostTurn(k: nat, count: nat)
    requires count == 1 || count == 2 || count == 4 || count == 8
    ensures (k + 1) % count == if k % count + 1 == count then 0 else k % count + 1
  {
  }

  // ---- plain colours ----

  /** The number of n equal digits. */
  function Repeats(v: nat, base: nat, n: nat): nat {
    if n == 0 then 0 else Repeats(v, base, n - 1) * base + v
  }

  /** The plain colour repeats the low bits of its source across the word, by the planes' depth. */
  lemma DefaultRepeats(c: Regs, src: u32)
    ensures var (v, d) := (if c.drawMode1[17] then c.colorVram else src, DefaultColor(c, src));
      && (c.planeDepth == 0 ==> d == Repeats(v % 16, 16, 8)) && (c.planeDepth == 1 ==> d == Repeats(v % 256, 256, 4))
      && (c.planeDepth == 2 && !c.drawMode1[15] ==> d == Repeats(v % 4096, 4096, 2))
      && (c.planeDepth == 3 ==> d == c.colorVram % 0x1000000)
  {
    var v := if FastClear(c) then c.colorVram else src;
    RepeatsFour(v % 16);
    assert Repeats(v % 256, 256, 1) == v % 256;
    assert Repeats(v % 256, 256, 2) == v % 256 * 0x101;
    assert Repeats(v % 4096, 4096, 1) == v % 4096;
  }

  lemma RepeatsFour(v: nat)
    ensures Repeats(v, 16, 8) == v * 0x11111111
  {
    assert Repeats(v, 16, 1) == v;
    assert Repeats(v, 16, 2) == v * 0x11;
    assert Repeats(v, 16, 4) == v * 0x1111;
    assert Repeats(v, 16, 6) == v * 0x111111;
  }

  /** In 12-bit RGB planes it is the clear colour's channels, each cut to its top four bits, twice. */
  lemma DefaultRgb(c: Regs, src: u32, x: u8, r: u8, g: u8, b: u8)
    requires c.planeDepth == 2 && c.drawMode1[15] && c.colorVram == x * 0x1000000 + b * 0x10000 + g * 0x100 + r
    ensures DefaultColor(c, src) == Repeats(Pixel(2, r / 16, g / 16, b / 16), 4096, 2)
  {
    var v := c.colorVram;
    QuotientUnique(v, 0x10, x * 0x100000 + b * 0x1000 + g * 0x10 + r / 16, r % 16);
    QuotientUnique(v / 0x10, 0x10, x * 0x10000 + b * 0x100 + g, r / 16);
    QuotientUnique(v, 0x1000, x * 0x1000 + b * 0x10 + g / 16, g % 16 * 0x100 + r);
    QuotientUnique(v / 0x1000, 0x10, x * 0x100 + b, g / 16);
    QuotientUnique(v, 0x100000, x * 0x10 + b / 16, b % 16 * 0x10000 + g * 0x100 + r);
    QuotientUnique(v / 0x100000, 0x10, x, b / 16);
    assert Repeats(Pixel(2, r / 16, g / 16, b / 16), 4096, 1) == Pixel(2, r / 16, g / 16, b / 16);
  }

  // ---- a pixel in its word ----

  /** Bits of a drawn pixel, and where the planes it is drawn to begin in the word. */
  function DrawBits(rb: Rb): nat {
    if rb.drawDepth == 0 then 4 else if rb.drawDepth == 1 then 8 else if rb.drawDepth == 2 then 12 else 32
  }

  function Planes(rb: Rb): nat {
    if rb.planeEnable == 4 then 8 else if rb.planeEnable == 5 then 2 else 0
  }

  /** Bit i of src repeated every w bits. */
  predicate Cycle(src: Bits, w: nat, i: nat)
    requires 0 < w <= 32
  {
    src[i % w]
  }

  /** Below bit n the word repeats the low w bits of src; nothing is above. */
  predicate RepeatsTo(a: Bits, src: Bits, w: nat, n: nat)
    requires 0 < w <= 32
  {
    forall i :: 0 <= i < 32 ==> (a[i] <==> i < n && Cycle(src, w, i))
  }

  lemma Periodic(src: Bits, i: nat, w: nat, m: nat)
    requires 0 < w <= 32 && m * w <= i
    ensures Cycle(src, w, i) == Cycle(src, w, i - m * w)
  {
    var q, r := (i - m * w) / w, (i - m * w) % w;
    Whole(w, m, q);
    QuotientUnique(i, w, m + q, r);
  }

  lemma Whole(w: int, m: int, q: int)
    ensures w * (m + q) == m * w + w * q
  {
  }

  lemma OrShlBit(a: Bits, n: nat, i: nat)
    requires i < 32
    ensures Or(a, Shl(a, n))[i] <==> a[i] || (i >= n && a[i - n])
  {
  }

  lemma DoubledUp(a: Bits, src: Bits, w: nat, m: nat)
    requires 0 < w <= 32 && RepeatsTo(a, src, w, m * w)
    ensures RepeatsTo(Or(a, Shl(a, m * w)), src, w, 2 * (m * w))
  {
    hide Or, Shl, Cycle;
    var n := m * w;
    forall i | 0 <= i < 32 ensures Or(a, Shl(a, n))[i] <==> i < 2 * n && Cycle(src, w, i) {
      OrShlBit(a, n, i);
      if i >= n {
        Periodic(src, i, w, m);
      }
    }
  }

  lemma Spread(rb: Rb, src: Bits)
    requires forall j :: DrawBits(rb) <= j < 32 ==> !src[j]
    ensures var plain := rb.(planeEnable := 0);
      RepeatsTo(Replicate(plain, src), src, DrawBits(rb), if rb.drawDepth == 2 then 24 else 32)
  {
    hide Or, Shl;
    var w := DrawBits(rb);
    forall i | 0 <= i < 32 ensures src[i] <==> i < w && Cycle(src, w, i) {
      if i < w {
        QuotientUnique(i, w, 0, i);
      }
    }
    assert RepeatsTo(src, src, w, 1 * w);
    DoubledUp(src, src, w, 1);
    if w <= 8 {
      var a := Or(src, Shl(src, w));
      DoubledUp(a, src, w, 2);
      if w == 4 {
        DoubledUp(Or(a, Shl(a, 8)), src, w, 4);
      }
    }
  }

  /** A pixel of its depth repeats from its planes up: bit i of the word is bit (i - planes) modulo the
      depth of the pixel, twice for 12 bits. */
  lemma ReplicateBit(rb: Rb, src: Bits, i: nat)
    requires i < 32 && forall j :: DrawBits(rb) <= j < 32 ==> !src[j]
    ensures var (w, k) := (DrawBits(rb), i - Planes(rb));
      Replicate(rb, src)[i] <==> k >= 0 && (rb.drawDepth == 2 ==> k < 24) && src[k % w]
  {
    hide Replicate;
    Spread(rb, src);
    ReplicateMoves(rb, src, i);
  }

  lemma ReplicateMoves(rb: Rb, src: Bits, i: nat)
    requires i < 32
    ensures var k := i - Planes(rb); Replicate(rb, src)[i] <==> k >= 0 && Replicate(rb.(planeEnable := 0), src)[k]
  {
    hide Or;
  }

  /** The truth table of a logic op, an entry of it a bit of its number: both set, source alone,
      destination alone, neither. */
  predicate Entry(op: nat, s: bool, d: bool) {
    if s && d then op % 2 == 1 else if s then op / 2 % 2 == 1 else if d then op / 4 % 2 == 1 else op / 8 % 2 == 1
  }

  /** A pixel of its depth written over a word changes the bits both masks enable and no other: to its
      repeated bit, or to what the logic op makes of that and of the bit the word holds above the
      source shift. */
  lemma WordBit(rb: Rb, word: Bits, src: Bits, i: nat)
    requires ValidRb(rb) && i < 32 && forall j :: DrawBits(rb) <= j < 32 ==> !src[j]
    ensures var k := i - Planes(rb);
      var s := k >= 0 && (rb.drawDepth == 2 ==> k < 24) && src[k % DrawBits(rb)];
      var d := i + rb.srcShift < 32 && word[i + rb.srcShift];
      RbWrite(rb, word, src)[i] == if !rb.writeMask[i] || !rb.globalMask[i] then word[i]
                                   else if rb.blend || rb.fastClear then s
                                   else Entry(rb.logicop, s, d)
  {
    hide Replicate;
    ReplicateBit(rb, src, i);
    LogicEntry(rb.logicop, i, Replicate(rb, src)[i], RbRead(rb, word)[i]);
  }

  lemma LogicEntry(op: nat, i: nat, s: bool, d: bool)
    requires op < 16
    ensures op != 15 || i < 24 ==> LogicBit(op, i, s, d) == Entry(op, s, d)
  {
  }
}
