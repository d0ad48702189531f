/** BT.601 studio-swing YCbCr to ARGB in the codec's fixed-point arithmetic. */
module Colour {

  function ClampByte(v: int): (r: nat)
    ensures r <= 255
  {
    if v < 0 then 0 else if v > 255 then 255 else v
  }

  /** The lookup tables hold 16-bit fixed-point products; >> 16 rounds towards minus infinity. */
  function Argb(y: int, cb: int, cr: int): (r: nat)
    ensures 0xFF00_0000 <= r <= 0xFFFF_FFFF
  {
    var iy := 76284 * (y - 16) / 0x1_0000;
    var red := iy + 104704 * (cr - 128) / 0x1_0000;
    var blue := iy + 132096 * (cb - 128) / 0x1_0000;
    var green := iy + (-25600 * (cb - 128) + 0x8000 - 53248 * (cr - 128)) / 0x1_0000;
    0xFF00_0000 + 0x1_0000 * ClampByte(red) + 0x100 * ClampByte(green) + ClampByte(blue)
  }

  /** A packed [Y Cb Cr] palette value. */
  function PaletteArgb(v: nat): (r: nat) {
    Argb(v / 0x1_0000 % 0x100, v / 0x100 % 0x100, v % 0x100)
  }

  function Red(argb: nat): nat {
    argb / 0x1_0000 % 0x100
  }

  function Green(argb: nat): nat {
    argb / 0x100 % 0x100
  }

  function Blue(argb: nat): nat {
    argb % 0x100
  }

  lemma Channels(r: nat, g: nat, b: nat)
    requires r <= 255 && g <= 255 && b <= 255
    ensures var argb := 0xFF00_0000 + 0x1_0000 * r + 0x100 * g + b; Red(argb) == r && Green(argb) == g && Blue(argb) == b
  {
    var argb := 0xFF00_0000 + 0x1_0000 * r + 0x100 * g + b;
    assert argb / 0x100 == 0x100 * (0xFF00 + r) + g;
    assert argb / 0x1_0000 == 0xFF00 + r;
  }

  /** The channels of a colour, before they are packed. */
  lemma ArgbChannels(y: int, cb: int, cr: int)
    ensures var iy := 76284 * (y - 16) / 0x1_0000;
            && Red(Argb(y, cb, cr)) == ClampByte(iy + 104704 * (cr - 128) / 0x1_0000)
            && Blue(Argb(y, cb, cr)) == ClampByte(iy + 132096 * (cb - 128) / 0x1_0000)
            && Green(Argb(y, cb, cr)) == ClampByte(iy + (-25600 * (cb - 128) + 0x8000 - 53248 * (cr - 128)) / 0x1_0000)
  {
    var iy := 76284 * (y - 16) / 0x1_0000;
    Channels(ClampByte(iy + 104704 * (cr - 128) / 0x1_0000),
             ClampByte(iy + (-25600 * (cb - 128) + 0x8000 - 53248 * (cr - 128)) / 0x1_0000),
             ClampByte(iy + 132096 * (cb - 128) / 0x1_0000));
  }

  /** Neutral chroma gives grey: black at luma 16 and below, white from 236 on, never falling in between. */
  lemma NeutralIsGrey(y: int)
    ensures var argb := Argb(y, 128, 128);
            && Red(argb) == Green(argb) == Blue(argb)
            && (y <= 16 ==> argb == 0xFF00_0000) && (y >= 236 ==> argb == 0xFFFF_FFFF)
            && Red(argb) <= Red(Argb(y + 1, 128, 128))
  {
    ArgbChannels(y, 128, 128);
    ArgbChannels(y + 1, 128, 128);
  }

  /** More Cb means more blue and less green and leaves red alone. */
  lemma CbSteers(y: int, cb: int, cb': int, cr: int)
    requires cb <= cb'
    ensures var a, a' := Argb(y, cb, cr), Argb(y, cb', cr);
            Blue(a) <= Blue(a') && Green(a) >= Green(a') && Red(a) == Red(a')
  {
    ArgbChannels(y, cb, cr);
    ArgbChannels(y, cb', cr);
  }

  /** More Cr means more red and less green and leaves blue alone. */
  lemma CrSteers(y: int, cb: int, cr: int, cr': int)
    requires cr <= cr'
    ensures var a, a' := Argb(y, cb, cr), Argb(y, cb, cr');
            Red(a) <= Red(a') && Green(a) >= Green(a') && Blue(a) == Blue(a')
  {
    ArgbChannels(y, cb, cr);
    ArgbChannels(y, cb, cr');
  }

  predicate Near(x: int, y: int) {
    -2_000_200 <= x - y <= 2_000_200
  }

  /** The channels before clamping are those of BT.601 with studio swing, in millionths, to within two levels. */
  lemma ArgbIsBT601(y: int, cb: int, cr: int) returns (r: int, g: int, b: int)
    requires 0 <= y <= 255 && 0 <= cb <= 255 && 0 <= cr <= 255
    ensures Red(Argb(y, cb, cr)) == ClampByte(r) && Near(1_000_000 * r, 1_164_000 * (y - 16) + 1_597_656 * (cr - 128))
    ensures Green(Argb(y, cb, cr)) == ClampByte(g)
         && Near(1_000_000 * g, 1_164_000 * (y - 16) - 390_625 * (cb - 128) - 812_500 * (cr - 128))
    ensures Blue(Argb(y, cb, cr)) == ClampByte(b) && Near(1_000_000 * b, 1_164_000 * (y - 16) + 2_015_625 * (cb - 128))
  {
    ArgbChannels(y, cb, cr);
    var iy := 76284 * (y - 16) / 0x1_0000;
    r := iy + 104704 * (cr - 128) / 0x1_0000;
    g := iy + (-25600 * (cb - 128) + 0x8000 - 53248 * (cr - 128)) / 0x1_0000;
    b := iy + 132096 * (cb - 128) / 0x1_0000;
  }

  /** A cached colour holds Y, Cb and Cr in its lower three bytes, in this order from the top. */
  lemma PaletteOrder(y: nat, cb: nat, cr: nat)
    requires y <= 255 && cb <= 255 && cr <= 255
    ensures PaletteArgb(0xFF00_0000 + 0x1_0000 * y + 0x100 * cb + cr) == Argb(y, cb, cr)
  {
    Channels(y, cb, cr);
  }
}
