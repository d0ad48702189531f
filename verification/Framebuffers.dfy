/** The shared framebuffer, and painting a clipped square into it pixel by pixel. */
module Framebuffers {
  import opened Bits
  import opened Coefficients
  import opened Colour
  import opened TileMachine

  class Framebuffer {
    var Pixels: array<nat>
    var W: nat
    var H: nat
    var Cur: int
    var Dirty: bool

    ghost predicate Valid()
      reads `Pixels, `W, `H
    {
      Pixels.Length == W * H
    }

    /** The bounds test and store of every paint loop. */
    method Put(px: int, py: int, argb: nat)
      requires Valid()
      modifies Pixels
      ensures Pixels[..] == PutAt(W, old(Pixels[..]), px, py, argb)
    {
      if px < 0 || px >= W || py < 0 || py >= H {
        OutsideScreen(W, H, px, py);
        assert Pixels[..] == PutAt(W, Pixels[..], px, py, argb);
        return;
      }
      PixelIndex(W, H, px, py);
      Pixels[py * W + px] := argb;
      assert Pixels[..] == PutAt(W, old(Pixels[..]), px, py, argb);
    }
  }

  /** The screen with the pixel at (px, py), if it is on the screen, set to `argb`. */
  function PutAt(w: nat, pix: seq<nat>, px: int, py: int, argb: nat): (r: seq<nat>)
    ensures |r| == |pix|
  {
    if w == 0 then pix
    else seq(|pix|, (n: nat) requires n < |pix| => if n % w == px && n / w == py then argb else pix[n])
  }

  lemma PixelIndex(w: nat, h: nat, px: int, py: int)
    requires 0 <= px < w && 0 <= py < h
    ensures 0 <= py * w + px < w * h
    ensures forall n: nat :: (n % w == px && n / w == py) <==> n == py * w + px
  {
    InScreen(w, h, px, py);
    forall n: nat
      ensures (n % w == px && n / w == py) <==> n == py * w + px
    {
      SamePixel(n, w, px, py);
    }
  }

  lemma InScreen(w: nat, h: nat, px: nat, py: nat)
    requires px < w && py < h
    ensures py * w + px < w * h
  {
    assert (py + 1) * w <= h * w;
    assert (py + 1) * w == py * w + w;
  }

  lemma SamePixel(n: nat, w: nat, px: nat, py: nat)
    requires px < w
    ensures (n % w == px && n / w == py) <==> n == py * w + px
  {
    ModOfSum(py, w, px);
    assert n == w * (n / w) + n % w;
  }

  lemma OutsideScreen(w: nat, h: nat, px: int, py: int)
    requires px < 0 || px >= w || py < 0 || py >= h
    ensures w > 0 ==> forall n: nat :: n < w * h ==> !(n % w == px && n / w == py)
  {
    if w > 0 {
      forall n: nat | n < w * h
        ensures 0 <= n % w < w && 0 <= n / w < h
      {
        assert n == w * (n / w) + n % w;
        CancelLess(n / w, h, w);
      }
    }
  }

  lemma CancelLess(a: int, b: int, w: nat)
    requires w * a < w * b
    ensures a < b
  {
    assert a >= b ==> w * a >= w * b;
  }

  // ---- painting a square cell by cell -------------------------------------

  /** The square painted only in the cells that are done. */
  ghost function Partial(w: nat, pix: seq<nat>, x0: int, y0: int, size: nat, colour: (nat, nat) -> nat,
                         done: (nat, nat) -> bool): (r: seq<nat>)
    ensures |r| == |pix|
  {
    if w == 0 then pix
    else
      seq(|pix|, (n: nat) requires n < |pix| =>
        if InSquare(w, x0, y0, size, n) && done(n % w - x0, n / w - y0) then colour(n % w - x0, n / w - y0) else pix[n])
  }

  lemma PartialNone(w: nat, pix: seq<nat>, x0: int, y0: int, size: nat, colour: (nat, nat) -> nat, done: (nat, nat) -> bool)
    requires forall x: nat, y: nat :: x < size && y < size ==> !done(x, y)
    ensures Partial(w, pix, x0, y0, size, colour, done) == pix
  {
  }

  lemma PartialAll(w: nat, pix: seq<nat>, x0: int, y0: int, size: nat, colour: (nat, nat) -> nat, done: (nat, nat) -> bool)
    requires forall x: nat, y: nat :: x < size && y < size ==> done(x, y)
    ensures Partial(w, pix, x0, y0, size, colour, done) == Paint(w, pix, x0, y0, size, colour)
  {
  }

  /** Putting one more cell. */
  lemma PartialPut(w: nat, pix: seq<nat>, x0: int, y0: int, size: nat, colour: (nat, nat) -> nat,
                   done: (nat, nat) -> bool, done': (nat, nat) -> bool, col: nat, row: nat)
    requires col < size && row < size
    requires forall x: nat, y: nat :: x < size && y < size ==> (done'(x, y) <==> done(x, y) || (x == col && y == row))
    ensures PutAt(w, Partial(w, pix, x0, y0, size, colour, done), x0 + col, y0 + row, colour(col, row))
         == Partial(w, pix, x0, y0, size, colour, done')
  {
    if w > 0 {
      forall n: nat | n < |pix|
        ensures PutAt(w, Partial(w, pix, x0, y0, size, colour, done), x0 + col, y0 + row, colour(col, row))[n]
             == Partial(w, pix, x0, y0, size, colour, done')[n]
      {
        if InSquare(w, x0, y0, size, n) {
          var x: nat, y: nat := n % w - x0, n / w - y0;
          assert done'(x, y) <==> done(x, y) || (x == col && y == row);
        }
      }
    }
  }

  // ---- the paint loops ----------------------------------------------------

  /** Cells in rows above `row`, and in row `row` left of `col`. */
  function RowMajor(col: nat, row: nat): (nat, nat) -> bool {
    (x: nat, y: nat) => y < row || (y == row && x < col)
  }

  lemma FirstCell(w: nat, pix: seq<nat>, x0: int, y0: int, size: nat, colour: (nat, nat) -> nat)
    ensures Partial(w, pix, x0, y0, size, colour, RowMajor(0, 0)) == pix
  {
    PartialNone(w, pix, x0, y0, size, colour, RowMajor(0, 0));
  }

  lemma NextCell(w: nat, pix: seq<nat>, x0: int, y0: int, size: nat, y: seq<Block>, cb: Block, cr: Block, col: nat, row: nat)
    requires col < size && row < size && ((|y| == 1 && size == 8) || (|y| == 4 && size == 16))
    ensures PutAt(w, Partial(w, pix, x0, y0, size, McuColour(y, cb, cr), RowMajor(col, row)), x0 + col, y0 + row, McuPixel(y, cb, cr, col, row))
         == Partial(w, pix, x0, y0, size, McuColour(y, cb, cr), RowMajor(col + 1, row))
  {
    PartialPut(w, pix, x0, y0, size, McuColour(y, cb, cr), RowMajor(col, row), RowMajor(col + 1, row), col, row);
  }

  lemma NextRow(w: nat, pix: seq<nat>, x0: int, y0: int, size: nat, colour: (nat, nat) -> nat, row: nat)
    ensures Partial(w, pix, x0, y0, size, colour, RowMajor(size, row)) == Partial(w, pix, x0, y0, size, colour, RowMajor(0, row + 1))
  {
    PartialSame(w, pix, x0, y0, size, colour, RowMajor(size, row), RowMajor(0, row + 1));
  }

  lemma AllRows(w: nat, pix: seq<nat>, x0: int, y0: int, size: nat, colour: (nat, nat) -> nat)
    ensures Partial(w, pix, x0, y0, size, colour, RowMajor(0, size)) == Paint(w, pix, x0, y0, size, colour)
  {
    PartialAll(w, pix, x0, y0, size, colour, RowMajor(0, size));
  }

  /** The paint loop of `dispatchDCT`. */
  method PaintMcu(fb: Framebuffer, x0: int, y0: int, size: nat, y: seq<Block>, cb: Block, cr: Block)
    requires fb.Valid() && ((|y| == 1 && size == 8) || (|y| == 4 && size == 16))
    modifies fb.Pixels
    ensures fb.Pixels[..] == Paint(fb.W, old(fb.Pixels[..]), x0, y0, size, McuColour(y, cb, cr))
  {
    ghost var w, pix, colour := fb.W, fb.Pixels[..], McuColour(y, cb, cr);
    FirstCell(w, pix, x0, y0, size, colour);
    var row := 0;
    while row < size
      invariant 0 <= row <= size
      invariant fb.Pixels[..] == Partial(w, pix, x0, y0, size, colour, RowMajor(0, row))
    {
      var col := 0;
      while col < size
        invariant 0 <= col <= size
        invariant fb.Pixels[..] == Partial(w, pix, x0, y0, size, colour, RowMajor(col, row))
      {
        NextCell(w, pix, x0, y0, size, y, cb, cr, col, row);
        fb.Put(x0 + col, y0 + row, McuPixel(y, cb, cr, col, row));
        col := col + 1;
      }
      NextRow(w, pix, x0, y0, size, colour, row);
      row := row + 1;
    }
    AllRows(w, pix, x0, y0, size, colour);
  }

  lemma PartialSame(w: nat, pix: seq<nat>, x0: int, y0: int, size: nat, colour: (nat, nat) -> nat,
                    done: (nat, nat) -> bool, done': (nat, nat) -> bool)
    requires forall x: nat, y: nat :: x < size && y < size ==> (done(x, y) <==> done'(x, y))
    ensures Partial(w, pix, x0, y0, size, colour, done) == Partial(w, pix, x0, y0, size, colour, done')
  {
  }

  /** Cells of the samples before the `i`-th, for one pixel a sample. */
  function SamplesBefore(i: nat): (nat, nat) -> bool {
    (x: nat, y: nat) => 8 * y + x < i
  }

  /** Cells of the samples before the `i`-th and the first `j` pixels of the `i`-th, for 2x2 pixels a sample. */
  function QuadsBefore(i: nat, j: nat): (nat, nat) -> bool {
    (x: nat, y: nat) => QuadDone(i, j, x, y)
  }

  predicate QuadDone(i: nat, j: nat, x: nat, y: nat) {
    8 * (y / 2) + x / 2 < i || (8 * (y / 2) + x / 2 == i && 2 * (y % 2) + x % 2 < j)
  }

  lemma NextSample(w: nat, pix: seq<nat>, x0: int, y0: int, samples: Samples, i: nat)
    requires i < 64
    ensures PutAt(w, Partial(w, pix, x0, y0, 8, PaletteColour(0, samples), SamplesBefore(i)), x0 + i % 8, y0 + i / 8, PaletteArgb(samples[i]))
         == Partial(w, pix, x0, y0, 8, PaletteColour(0, samples), SamplesBefore(i + 1))
  {
    assert 8 * (i / 8) + i % 8 == i;
    PartialPut(w, pix, x0, y0, 8, PaletteColour(0, samples), SamplesBefore(i), SamplesBefore(i + 1), i % 8, i / 8);
  }

  lemma SamplesStart(w: nat, pix: seq<nat>, x0: int, y0: int, colour: (nat, nat) -> nat)
    ensures Partial(w, pix, x0, y0, 8, colour, SamplesBefore(0)) == pix
    ensures Partial(w, pix, x0, y0, 8, colour, SamplesBefore(64)) == Paint(w, pix, x0, y0, 8, colour)
  {
    PartialNone(w, pix, x0, y0, 8, colour, SamplesBefore(0));
    PartialAll(w, pix, x0, y0, 8, colour, SamplesBefore(64));
  }

  /** The 8x8 paint loop of `paintPaletteBlock`. */
  method PaintSamples(fb: Framebuffer, x0: int, y0: int, samples: Samples)
    requires fb.Valid()
    modifies fb.Pixels
    ensures fb.Pixels[..] == Paint(fb.W, old(fb.Pixels[..]), x0, y0, 8, PaletteColour(0, samples))
  {
    ghost var w, pix, colour := fb.W, fb.Pixels[..], PaletteColour(0, samples);
    SamplesStart(w, pix, x0, y0, colour);
    var i := 0;
    while i < 64
      invariant 0 <= i <= 64
      invariant fb.Pixels[..] == Partial(w, pix, x0, y0, 8, colour, SamplesBefore(i))
    {
      NextSample(w, pix, x0, y0, samples, i);
      fb.Put(x0 + i % 8, y0 + i / 8, PaletteArgb(samples[i]));
      i := i + 1;
    }
  }

  lemma QuadsStart(w: nat, pix: seq<nat>, x0: int, y0: int, colour: (nat, nat) -> nat)
    ensures Partial(w, pix, x0, y0, 16, colour, QuadsBefore(0, 0)) == pix
    ensures Partial(w, pix, x0, y0, 16, colour, QuadsBefore(64, 0)) == Paint(w, pix, x0, y0, 16, colour)
  {
    PartialNone(w, pix, x0, y0, 16, colour, QuadsBefore(0, 0));
    PartialAll(w, pix, x0, y0, 16, colour, QuadsBefore(64, 0));
  }

  lemma QuadOver(w: nat, pix: seq<nat>, x0: int, y0: int, colour: (nat, nat) -> nat, i: nat)
    ensures Partial(w, pix, x0, y0, 16, colour, QuadsBefore(i, 4)) == Partial(w, pix, x0, y0, 16, colour, QuadsBefore(i + 1, 0))
  {
    PartialSame(w, pix, x0, y0, 16, colour, QuadsBefore(i, 4), QuadsBefore(i + 1, 0));
  }

  /** The 16x16 paint loop of `paintPaletteBlock`: each sample covers 2x2 pixels. */
  method PaintQuads(fb: Framebuffer, x0: int, y0: int, samples: Samples)
    requires fb.Valid()
    modifies fb.Pixels
    ensures fb.Pixels[..] == Paint(fb.W, old(fb.Pixels[..]), x0, y0, 16, PaletteColour(1, samples))
  {
    ghost var w, pix, colour := fb.W, fb.Pixels[..], PaletteColour(1, samples);
    QuadsStart(w, pix, x0, y0, colour);
    var i := 0;
    while i < 64
      invariant 0 <= i <= 64
      invariant fb.Pixels[..] == Partial(w, pix, x0, y0, 16, colour, QuadsBefore(i, 0))
    {
      assert 8 * (i / 8) + i % 8 == i;
      PaintQuad(fb, pix, x0, y0, samples, i % 8, i / 8);
      QuadOver(w, pix, x0, y0, colour, i);
      i := i + 1;
    }
  }

  /** The inner loops: the 2x2 pixels of the sample in column `c` and row `r`. */
  method PaintQuad(fb: Framebuffer, ghost pix: seq<nat>, x0: int, y0: int, samples: Samples, c: nat, r: nat)
    requires fb.Valid() && c < 8 && r < 8
    requires fb.Pixels[..] == Partial(fb.W, pix, x0, y0, 16, PaletteColour(1, samples), QuadsBefore(8 * r + c, 0))
    modifies fb.Pixels
    ensures fb.Pixels[..] == Partial(fb.W, pix, x0, y0, 16, PaletteColour(1, samples), QuadsBefore(8 * r + c, 4))
  {
    ghost var w, colour, i := fb.W, PaletteColour(1, samples), 8 * r + c;
    var dy := 0;
    while dy < 2
      invariant 0 <= dy <= 2
      invariant fb.Pixels[..] == Partial(w, pix, x0, y0, 16, colour, QuadsBefore(i, 2 * dy))
    {
      var dx := 0;
      while dx < 2
        invariant 0 <= dx <= 2
        invariant fb.Pixels[..] == Partial(w, pix, x0, y0, 16, colour, QuadsBefore(i, 2 * dy + dx))
      {
        PutInQuad(fb, pix, x0, y0, samples, c, r, dx, dy);
        dx := dx + 1;
      }
      dy := dy + 1;
    }
  }

  /** One pixel of the sample in column `c` and row `r`. */
  method PutInQuad(fb: Framebuffer, ghost pix: seq<nat>, x0: int, y0: int, samples: Samples, c: nat, r: nat, dx: nat, dy: nat)
    requires fb.Valid() && c < 8 && r < 8 && dx < 2 && dy < 2
    requires fb.Pixels[..] == Partial(fb.W, pix, x0, y0, 16, PaletteColour(1, samples), QuadsBefore(8 * r + c, 2 * dy + dx))
    modifies fb.Pixels
    ensures fb.Pixels[..] == Partial(fb.W, pix, x0, y0, 16, PaletteColour(1, samples), QuadsBefore(8 * r + c, 2 * dy + dx + 1))
  {
    NextQuad(fb.W, pix, x0, y0, samples, c, r, dx, dy);
    fb.Put(x0 + 2 * c + dx, y0 + 2 * r + dy, PaletteArgb(samples[8 * r + c]));
  }

  lemma NextQuad(w: nat, pix: seq<nat>, x0: int, y0: int, samples: Samples, c: nat, r: nat, dx: nat, dy: nat)
    requires c < 8 && r < 8 && dx < 2 && dy < 2
    ensures PutAt(w, Partial(w, pix, x0, y0, 16, PaletteColour(1, samples), QuadsBefore(8 * r + c, 2 * dy + dx)),
                  x0 + 2 * c + dx, y0 + 2 * r + dy, PaletteArgb(samples[8 * r + c]))
         == Partial(w, pix, x0, y0, 16, PaletteColour(1, samples), QuadsBefore(8 * r + c, 2 * dy + dx + 1))
  {
    QuadColour(samples, c, r, dx, dy);
    var done, done' := QuadsBefore(8 * r + c, 2 * dy + dx), QuadsBefore(8 * r + c, 2 * dy + dx + 1);
    forall x: nat, y: nat | x < 16 && y < 16
      ensures done'(x, y) <==> done(x, y) || (x == 2 * c + dx && y == 2 * r + dy)
    {
      QuadStep(c, r, dx, dy, x, y);
    }
    PartialPut(w, pix, x0, y0, 16, PaletteColour(1, samples), done, done', 2 * c + dx, 2 * r + dy);
  }

  lemma QuadStep(c: nat, r: nat, dx: nat, dy: nat, x: nat, y: nat)
    requires c < 8 && r < 8 && dx < 2 && dy < 2 && x < 16 && y < 16
    ensures QuadDone(8 * r + c, 2 * dy + dx + 1, x, y)
       <==> QuadDone(8 * r + c, 2 * dy + dx, x, y) || (x == 2 * c + dx && y == 2 * r + dy)
  {
    var xc, xd, yc, yd := x / 2, x % 2, y / 2, y % 2;
    assert 8 * yc + xc == 8 * r + c <==> yc == r && xc == c;
    assert 2 * yd + xd == 2 * dy + dx <==> yd == dy && xd == dx;
  }

  lemma QuadColour(samples: Samples, c: nat, r: nat, dx: nat, dy: nat)
    requires c < 8 && r < 8 && dx < 2 && dy < 2
    ensures SampleColour(1, samples, 2 * c + dx, 2 * r + dy) == PaletteArgb(samples[8 * r + c])
  {
    assert (2 * c + dx) / 2 == c && (2 * r + dy) / 2 == r;
  }
}
