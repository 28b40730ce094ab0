/** The REX3 draw state and the per-pixel drawing functions of the Newport board. A draw reads
    the registers in `Regs` and changes only the words in `Iter`. Shifts and masks of the C code
    are written as division and remainder by powers of two. */
module Newport {
  import opened Words
  import opened PixelOps

  const FB_W := 1344
  const FB_H := 1088
  const DISP_H := 1024

  /** A screen mask register pair, unpacked into its signed halves. */
  datatype Mask = Mask(minX: i16, maxX: i16, minY: i16, maxY: i16)

  /** REX3 registers a draw only reads. Depths 0..3 are 4, 8, 12, 24 (host: 32) bits. */
  datatype Regs = Regs(
    drawMode0: Bits, drawMode1: Bits, colorHost: bool, rwpacked: bool, rwdouble: bool,
    planeDepth: nat, hostdepth: nat, lsPattern: Bits, zPattern: Bits,
    colorBack: u32, colorVram: u32, colorI: u32, colorGreen: u32, colorBlue: u32, colorAlpha: u32, hostDataport: nat,
    slopeRed: u32, slopeGreen: u32, slopeBlue: u32, slopeAlpha: u32,
    clipMode: Bits, masks: seq<Mask>, xWindow: i16, yWindow: i16, xMove: i16, yMove: i16,
    rb: Rb)

  /** REX3 words that pixels change. */
  datatype Iter = Iter(red: u32, green: u32, blue: u32, alpha: u32, colorRed: u32, hostShift: nat)

  /** Everything a draw can change besides the start coordinates. */
  datatype Gfx = Gfx(it: Iter, fb: seq<Bits>, pixels: nat)

  /** Five masks and in-range table indices: what register writes establish. */
  predicate ValidRegs(c: Regs) {
    |c.masks| == 5 && c.planeDepth < 4 && c.hostdepth < 4 && ValidRb(c.rb)
  }

  /** Bits one host pixel takes in the 64-bit data port. */
  function HostUnit(depth: nat): nat {
    if depth <= 1 then 8 else if depth == 2 then 16 else 32
  }

  /** Every write of the host port or of its depth sets the shift to 64 minus the unit; draws keep
      it a multiple of the unit inside the port. */
  predicate ValidShift(depth: nat, shift: nat) {
    if depth <= 1 then shift % 8 == 0 && shift <= 56
    else if depth == 2 then shift % 16 == 0 && shift <= 48
    else shift == 0 || shift == 32
  }

  predicate ValidGfx(c: Regs, g: Gfx) {
    ValidRegs(c) && ValidShift(c.hostdepth, g.it.hostShift) && |g.fb| == FB_W * FB_H
  }

  // ---- mode bits ----

  predicate Shade(c: Regs) { c.drawMode0[18] }
  predicate CiClamp(c: Regs) { c.drawMode0[21] }
  predicate Opaque(c: Regs) { c.drawMode0[16] || c.drawMode0[17] }
  predicate SwapBytes(c: Regs) { c.drawMode1[11] }
  predicate RgbMode(c: Regs) { c.drawMode1[15] }
  predicate Dither(c: Regs) { c.drawMode1[16] }
  predicate FastClear(c: Regs) { c.drawMode1[17] }
  predicate Blend(c: Regs) { c.drawMode1[18] }
  predicate AnyMask(c: Regs) { c.clipMode[1] || c.clipMode[2] || c.clipMode[3] || c.clipMode[4] }

  function Pattern(c: Regs): Bits {
    if c.drawMode0[12] then c.zPattern
    else if c.drawMode0[13] then c.lsPattern
    else seq(32, _ => true)
  }

  // ---- colours ----

  function BitN(x: nat, unit: nat): nat
    requires unit > 0
  {
    x / unit % 2
  }

  /** A 4- or 8-bit pixel's channel bits spread over 8 bits. */
  function Spread3(bits: nat): u8 {
    0x92 * BitN(bits, 4) + 0x49 * BitN(bits, 2) + 0x24 * BitN(bits, 1)
  }

  function Spread2(bits: nat): u8 {
    0xaa * BitN(bits, 2) + 0x55 * BitN(bits, 1)
  }

  function Unpack(c: u32, depth: nat): (u8, u8, u8) {
    if depth == 0 then (0xff * BitN(c, 1), Spread2(c / 2), 0xff * BitN(c, 8))
    else if depth == 1 then (Spread3(c), Spread3(c / 8), Spread2(c / 64))
    else if depth == 2 then (0x11 * (c % 16), 0x11 * (c / 0x10 % 16), 0x11 * (c / 0x100 % 16))
    else (c % 256, c / 0x100 % 256, c / 0x10000 % 256)
  }

  function Repack(r: u8, g: u8, b: u8, depth: nat): (c: u32)
    ensures c < 0x1000000
  {
    assert r / 128 <= 1 && r / 32 <= 7 && r / 16 <= 15 && g / 64 <= 3 && g / 32 <= 7 && g / 16 <= 15;
    assert b / 128 <= 1 && b / 64 <= 3 && b / 16 <= 15;
    if depth == 0 then b / 128 * 8 + g / 64 * 2 + r / 128
    else if depth == 1 then b / 64 * 64 + g / 32 * 8 + r / 32
    else if depth == 2 then b / 16 * 256 + g / 16 * 16 + r / 16
    else b * 0x10000 + g * 0x100 + r
  }

  /** convert_depth: unpack to 8-bit channels, repack. */
  function ConvertDepth(c: u32, src: nat, dst: nat): (r: u32)
    ensures c < 0x1000000 ==> r < 0x1000000
  {
    if src == dst then c
    else
      var (r, g, b) := Unpack(c, src);
      Repack(r, g, b, dst)
  }

  function DefaultColor(c: Regs, src: u32): u32 {
    var v := if FastClear(c) then c.colorVram else src;
    if c.planeDepth == 0 then v % 16 * 0x11111111
    else if c.planeDepth == 1 then v % 256 * 0x01010101
    else if c.planeDepth == 2 then
      0x1001 * (if RgbMode(c) then
                  c.colorVram / 0x100000 % 16 * 0x100 + c.colorVram / 0x1000 % 16 * 0x10 + c.colorVram / 0x10 % 16
                else v % 0x1000)
    else c.colorVram % 0x1000000
  }

  /** The channel clamp of the per-pixel colour path. */
  function Clamp(c: u32): u8 {
    var v := c / 0x800 % 0x200;
    if v >= 0x180 || BitN(c, 0x80000000) == 1 then 0 else if v > 0xff then 0xff else v
  }

  const BAYER: seq<seq<nat>> := [[0, 12, 3, 15], [8, 4, 11, 7], [2, 14, 1, 13], [10, 6, 9, 5]]

  function Bayer(x: int, y: int): nat {
    BAYER[x % 4][y % 4]
  }

  /** The channels scaled so that the low four bits are the dither fraction. */
  function Scaled(depth: nat, red: u8, green: u8, blue: u8): (s: (nat, nat, nat)) {
    if depth == 0 then (red / 8 - red / 16, green / 4 - green / 16, blue / 8 - blue / 16)
    else if depth == 1 then (red / 2 - red / 16, green / 2 - green / 16, blue / 4 - blue / 16)
    else (red - red / 16, green - green / 16, blue - blue / 16)
  }

  /** The dithered channels packed into a pixel of the plane depth, under the alpha byte. */
  function Packed(depth: nat, alpha: u8, dr: u8, dg: u8, db: u8): u32
    requires depth < 3
    requires if depth == 0 then dr <= 1 && dg <= 3 && db <= 1
             else if depth == 1 then dr <= 7 && dg <= 7 && db <= 3
             else dr <= 15 && dg <= 15 && db <= 15
  {
    alpha * 0x1000000 +
    if depth == 0 then 0x11 * (db * 8 + dg * 2 + dr)
    else if depth == 1 then db * 64 + dg * 8 + dr
    else 0x1001 * (db * 256 + dg * 16 + dr)
  }

  /** One channel of the switch: count up past the threshold, then cap. At depths 0 and 1 the
      scaled value goes through an 8-bit variable. */
  function Bump(s: nat, narrow: bool, bay: nat, top: u8): (d: u8)
    requires top <= 15
    ensures d <= top
  {
    var n := if narrow then s % 256 else s;
    var d := n / 16 % (top + 1);
    var d := if n % 16 > bay then d + 1 else d;
    if d > top then top else d
  }

  /** The dithered colour as the per-pixel switch computes it. */
  function DitherSwitch(depth: nat, red: u8, green: u8, blue: u8, alpha: u8, bay: nat): u32 {
    var (sr, sg, sb) := Scaled(depth, red, green, blue);
    if depth == 0 then
      Packed(0, alpha, Bump(sr, true, bay, 1), Bump(sg, true, bay, 3), Bump(sb, true, bay, 1))
    else if depth == 1 then
      Packed(1, alpha, Bump(sr, true, bay, 7), Bump(sg, true, bay, 7), Bump(sb, true, bay, 3))
    else if depth == 2 then
      Packed(2, alpha, Bump(sr, false, bay, 15), Bump(sg, false, bay, 15), Bump(sb, false, bay, 15))
    else alpha * 0x1000000 + blue * 0x10000 + green * 0x100 + red
  }

  /** rgb_from: the shading colour for iterator values at (x, y). */
  function RgbFrom(c: Regs, cr: u32, cg: u32, cb: u32, ca: u32, x: int, y: int): u32
    requires c.planeDepth < 4
  {
    if !RgbMode(c) then DefaultColor(c, cr)
    else
      var red, green, blue, alpha := Clamp(cr), Clamp(cg), Clamp(cb), Clamp(ca);
      if Dither(c) then DitherSwitch(c.planeDepth, red, green, blue, alpha, Bayer(x, y))
      else alpha * 0x1000000 + ConvertDepth(blue * 0x10000 + green * 0x100 + red, 3, c.planeDepth)
  }

  function ShiftDown(x: nat, n: nat): nat {
    if n == 0 then x else ShiftDown(x / 2, n - 1)
  }

  function Bswap32(x: u32): u32 {
    x % 256 * 0x1000000 + x / 0x100 % 256 * 0x10000 + x / 0x10000 % 256 * 0x100 + x / 0x1000000
  }

  /** The colour host_color returns at a shift. */
  function HostPixel(c: Regs, shift: nat): u32 {
    var raw := ShiftDown(c.hostDataport, shift) % U32;
    var color: u32 := if c.hostdepth == 0 then raw % 0x10 else if c.hostdepth == 1 then raw % 0x100
                      else if c.hostdepth == 2 then raw % 0x1000 else raw;
    var color := ConvertDepth(color, c.hostdepth, c.planeDepth);
    if SwapBytes(c) then Bswap32(color) else color
  }

  /** The shift host_color leaves. */
  function NextShift(c: Regs, shift: nat): (r: nat)
    requires ValidShift(c.hostdepth, shift)
    ensures ValidShift(c.hostdepth, r)
  {
    if !c.rwpacked then shift
    else if (c.rwdouble && shift > 0) || shift > 32 then shift - HostUnit(c.hostdepth)
    else 64 - HostUnit(c.hostdepth)
  }

  // ---- shade iterators ----

  /** The amount one step adds to the red channel: the 24-bit slope sign-extended, nothing while
      its magnitude bits are clear. */
  function Step24(slope: u32): u32 {
    var s := slope % 0x1000000;
    if s % 0x800000 == 0 then 0 else if s < 0x800000 then s else s + 0xff000000
  }

  /** As Step24, for the 20-bit slopes of the other channels. */
  function Step20(slope: u32): u32 {
    var s := slope % 0x100000;
    if s % 0x80000 == 0 then 0 else if s < 0x80000 then s else s + 0xfff00000
  }

  function ClampIter(c: u32): u32 {
    var v := c / 0x800 % 0x200;
    if v >= 0x180 || BitN(c, 0x80000000) == 1 then 0 else if v > 0xff then 0x7ffff else c
  }

  function ClampCi(c: Regs, colorRed: u32): u32 {
    if !c.drawMode1[4] && !c.drawMode1[3] && BitN(colorRed, 0x8000) == 1 then 0x00007fff
    else if !c.drawMode1[4] && c.drawMode1[3] && BitN(colorRed, 0x80000) == 1 then 0x0007ffff
    else if c.drawMode1[4] && !c.drawMode1[3] && BitN(colorRed, 0x200000) == 1 then 0x001fffff
    else colorRed
  }

  function AddSlopes(c: Regs, it: Iter): Iter {
    it.(red := ToU32(it.red + Step24(c.slopeRed)), green := ToU32(it.green + Step20(c.slopeGreen)),
        blue := ToU32(it.blue + Step20(c.slopeBlue)), alpha := ToU32(it.alpha + Step20(c.slopeAlpha)))
  }

  function IterateShade(c: Regs, it: Iter): (r: Iter)
    ensures r.hostShift == it.hostShift
  {
    var a := AddSlopes(c, it);
    if !CiClamp(c) then a
    else if RgbMode(c) then
      a.(red := ClampIter(a.red), green := ClampIter(a.green), blue := ClampIter(a.blue), alpha := ClampIter(a.alpha))
    else a.(colorRed := ClampCi(c, a.colorRed))
  }

  // ---- clipping ----

  /** Mask b (1..4) is enabled and holds the window point (x, y). */
  predicate MaskHit(c: Regs, b: nat, x: int, y: int)
    requires ValidRegs(c) && 1 <= b < 5
  {
    var m := c.masks[b];
    && c.clipMode[b]
    && ToI16(m.minX - 0x1000) <= x <= ToI16(m.maxX - 0x1000)
    && ToI16(m.minY - 0x1000) <= y <= ToI16(m.maxY - 0x1000)
  }

  function WindowX(c: Regs, x: int): i16 { ToI16(x + c.xWindow - 0x1000) }
  function WindowY(c: Regs, y: int): i16 { ToI16(y + c.yWindow - 0x1000) }

  predicate ClipPass(c: Regs, x: int, y: int)
    requires ValidRegs(c)
  {
    && (c.clipMode[0] ==>
          c.masks[0].minX <= x <= c.masks[0].maxX && c.masks[0].minY <= y <= c.masks[0].maxY)
    && (AnyMask(c) ==> exists b :: 1 <= b < 5 && MaskHit(c, b, WindowX(c, x), WindowY(c, y)))
    && 0 <= WindowX(c, x) < FB_W && 0 <= WindowY(c, y) < DISP_H
  }

  /** output_pixel without blending. */
  function OutputPixel(c: Regs, g: Gfx, x: int, y: int, color: Bits): (r: Gfx)
    requires ValidGfx(c, g)
    ensures ValidGfx(c, r) && r.it == g.it && r.pixels == g.pixels + 1
  {
    var g := g.(pixels := g.pixels + 1);
    if !ClipPass(c, x, y) then g
    else
      var a := WindowY(c, y) * FB_W + WindowX(c, x);
      g.(fb := g.fb[a := RbWrite(c.rb, g.fb[a], color)])
  }
}
