/** The MCU raster: where successive blocks without a position field land, and that a full sweep of the
grid paints every pixel of the tile exactly once. */
module Raster {
  import opened Bits
  import opened TileMachine

  /** One block: it paints the cell in column `j` and row `k`, and the position moves on from there. */
  ghost predicate BlockStep(c: Config, m: Machine, m': Machine, j: nat, k: nat, colour: (nat, nat) -> nat) {
    && (m'.jb, m'.kb) == Advance(Cols(c), RowsOf(c), (j, k))
    && m'.pix == Paint(c.w, m.pix, Origin(c.mode, c.tileX, j), Origin(c.mode, c.tileY, k), Q(c.mode), colour)
  }

  /** One block without a position: it paints its own cell and moves on. */
  ghost predicate CellStep(c: Config, m: Machine, m': Machine, colour: (nat, nat) -> nat) {
    BlockStep(c, m, m', m.jb, m.kb, colour)
  }

  /** The colours of the block of a kind that follows its header. */
  ghost function BlockColour(c: Config, r: GoodReader, kind: nat, at: Machine): (nat, nat) -> nat {
    if kind == 0 then
      var u := McuAt(r, LumaCount(c.mode), at.p, at.dcY, at.dcCb, at.dcCr);
      McuColour(u.y, u.cb, u.cr)
    else if kind == 4 then PaletteColour(c.mode, AllSamples(r, at.vb, at.p))
    else
      var n := Slots(kind);
      var f := Refresh(r, at.p, at.vb.(entropy := EntropyOf(n)), 0, n);
      PaletteColour(c.mode, AllSamples(r, f.1, f.0))
  }

  /** Every block opcode is such a step, with a position or without, DCT and palette blocks alike. */
  lemma OpcodeIsBlockStep(c: Config, r: GoodReader, m: Machine)
    ensures var op := OpAt(r, m.p);
            var at := Head(r, Positioned(op), m);
            BlockStep(c, m, Step(c, r, m), at.jb, at.kb, BlockColour(c, r, Kind(op), at))
  {
    var op := OpAt(r, m.p);
    var at := Head(r, Positioned(op), m);
    var b := BlockOp(c, r, Kind(op), at);
    assert b.jb == at.jb && b.kb == at.kb;
  }

  /** A run of blocks without positions. */
  ghost predicate Sweep(c: Config, ms: seq<Machine>, colours: seq<(nat, nat) -> nat>) {
    |ms| == |colours| + 1 && forall t :: 0 <= t < |colours| ==> CellStep(c, ms[t], ms[t + 1], colours[t])
  }

  // ---- positions ----------------------------------------------------------

  /** The place of a cell in the raster. */
  function Index(cols: nat, j: nat, k: nat): nat {
    k * cols + j
  }

  predicate InGrid(cols: nat, rows: nat, j: nat, k: nat) {
    j < cols && k < rows
  }

  lemma IndexBound(cols: nat, rows: nat, j: nat, k: nat)
    requires InGrid(cols, rows, j, k)
    ensures Index(cols, j, k) < cols * rows
  {
    assert (k + 1) * cols <= rows * cols;
    assert (k + 1) * cols == k * cols + cols;
  }

  lemma SameIndex(cols: nat, j: nat, k: nat, j': nat, k': nat)
    requires j < cols && j' < cols && Index(cols, j, k) == Index(cols, j', k')
    ensures j == j' && k == k'
  {
    ModOfSum(k, cols, j);
    ModOfSum(k', cols, j');
  }

  function Next(n: nat, i: nat): nat {
    if i + 1 < n then i + 1 else 0
  }

  /** Moving on is counting up, modulo the number of cells. */
  lemma AdvanceIsNext(cols: nat, rows: nat, j: nat, k: nat)
    requires InGrid(cols, rows, j, k)
    ensures var at := Advance(cols, rows, (j, k));
            InGrid(cols, rows, at.0, at.1) && Index(cols, at.0, at.1) == Next(cols * rows, Index(cols, j, k))
  {
    var at := Advance(cols, rows, (j, k));
    IndexBound(cols, rows, at.0, at.1);
    assert (k + 1) * cols == k * cols + cols;
    if j + 1 == cols && k + 1 == rows {
      assert cols * rows == k * cols + cols;
    }
  }

  /** The cell of the `t`-th block of a sweep that starts in cell `s`. */
  function CellIndex(n: nat, s: nat, t: nat): nat
    requires n > 0
  {
    (s + t) % n
  }

  lemma NextCell(n: nat, s: nat, t: nat)
    requires n > 0
    ensures Next(n, CellIndex(n, s, t)) == CellIndex(n, s, t + 1)
  {
    var i, d := (s + t) % n, (s + t) / n;
    assert s + t == d * n + i;
    if i + 1 < n {
      ModOfSum(d, n, i + 1);
    } else {
      ModOfSum(d + 1, n, 0);
      assert (d + 1) * n == d * n + n;
    }
  }

  /** Where the `t`-th block of a sweep stands. */
  lemma {:induction false} SweepPosition(c: Config, ms: seq<Machine>, colours: seq<(nat, nat) -> nat>, t: nat)
    requires Sweep(c, ms, colours) && t < |ms|
    requires InGrid(Cols(c), RowsOf(c), ms[0].jb, ms[0].kb)
    ensures InGrid(Cols(c), RowsOf(c), ms[t].jb, ms[t].kb) && Cols(c) * RowsOf(c) > 0
    ensures Index(Cols(c), ms[t].jb, ms[t].kb)
         == CellIndex(Cols(c) * RowsOf(c), Index(Cols(c), ms[0].jb, ms[0].kb), t)
    ensures |ms[t].pix| == |ms[0].pix|
  {
    var n, s := Cols(c) * RowsOf(c), Index(Cols(c), ms[0].jb, ms[0].kb);
    IndexBound(Cols(c), RowsOf(c), ms[0].jb, ms[0].kb);
    if t == 0 {
      ModOfSum(0, n, s);
    } else {
      SweepPosition(c, ms, colours, t - 1);
      assert CellStep(c, ms[t - 1], ms[t - 1 + 1], colours[t - 1]);
      AdvanceIsNext(Cols(c), RowsOf(c), ms[t - 1].jb, ms[t - 1].kb);
      NextCell(n, s, t - 1);
    }
  }

  /** From the first cell on, the `t`-th block paints cell (t mod C, (t/C) mod R). */
  lemma RasterPosition(c: Config, ms: seq<Machine>, colours: seq<(nat, nat) -> nat>, t: nat)
    requires Sweep(c, ms, colours) && t < |ms| && Cols(c) >= 1 && RowsOf(c) >= 1
    requires ms[0].jb == 0 && ms[0].kb == 0
    ensures ms[t].jb == t % Cols(c) && ms[t].kb == t / Cols(c) % RowsOf(c)
  {
    var cols, rows := Cols(c), RowsOf(c);
    SweepPosition(c, ms, colours, t);
    SplitIndex(cols, rows, t);
    ModOfSum(ms[t].kb, cols, ms[t].jb);
  }

  /** Taking the remainder by C * R, then by C, or the quotient. */
  lemma SplitIndex(cols: nat, rows: nat, t: nat)
    requires cols >= 1 && rows >= 1 && cols * rows > 0
    ensures t % (cols * rows) % cols == t % cols && t % (cols * rows) / cols == t / cols % rows
  {
    var j, a := t % cols, t / cols;
    var k, b := a % rows, a / rows;
    assert t == (b * rows + k) * cols + j;
    IndexBound(cols, rows, j, k);
    assert (b * rows + k) * cols == b * (cols * rows) + k * cols by {
      assert (b * rows) * cols == b * (cols * rows);
    }
    ModOfSum(b, cols * rows, k * cols + j);
    ModOfSum(k, cols, j);
  }

  // ---- coverage -----------------------------------------------------------

  /** The block at machine `m` covers pixel `n`. */
  predicate Covers(c: Config, m: Machine, n: nat)
    requires c.w > 0
  {
    InSquare(c.w, Origin(c.mode, c.tileX, m.jb), Origin(c.mode, c.tileY, m.kb), Q(c.mode), n)
  }

  /** Pixel `n` lies in the aligned tile: the grid of whole blocks from the tile's origin on. */
  predicate InTile(c: Config, n: nat)
    requires c.w > 0
  {
    && c.tileX <= n % c.w < Origin(c.mode, c.tileX, Cols(c))
    && c.tileY <= n / c.w < Origin(c.mode, c.tileY, RowsOf(c))
  }

  /** The cell of the tile that holds pixel `n`. */
  function CellOf(c: Config, n: nat): (cell: nat)
    requires c.w > 0 && InTile(c, n)
  {
    Index(Cols(c), BlockOf(c.mode, n % c.w - c.tileX), BlockOf(c.mode, n / c.w - c.tileY))
  }

  function BlockOf(mode: nat, d: nat): nat {
    if mode == 1 then d / 16 else d / 8
  }

  function WithinBlock(mode: nat, d: nat): nat {
    if mode == 1 then d % 16 else d % 8
  }

  /** A pixel of the tile: its cell, and its place in that cell. */
  datatype Place = Place(cell: nat, x: nat, y: nat)

  function Locate(c: Config, n: nat): (at: Place)
    requires c.w > 0 && InTile(c, n)
  {
    Place(CellOf(c, n), WithinBlock(c.mode, n % c.w - c.tileX), WithinBlock(c.mode, n / c.w - c.tileY))
  }

  /** A block covers exactly the pixels of its own cell. */
  lemma CoversItsCell(c: Config, m: Machine, n: nat)
    requires c.w > 0 && InGrid(Cols(c), RowsOf(c), m.jb, m.kb)
    ensures Covers(c, m, n) <==> InTile(c, n) && CellOf(c, n) == Index(Cols(c), m.jb, m.kb)
  {
    if InTile(c, n) && CellOf(c, n) == Index(Cols(c), m.jb, m.kb) {
      SameIndex(Cols(c), BlockOf(c.mode, n % c.w - c.tileX), BlockOf(c.mode, n / c.w - c.tileY), m.jb, m.kb);
    }
  }

  /** The only block among the first `n` of a sweep of the whole grid whose cell is `i`. */
  function Visit(n: nat, s: nat, i: nat): (t: nat)
    requires i < n && s < n
    ensures t < n
  {
    if i >= s then i - s else i - s + n
  }

  lemma VisitedOnce(n: nat, s: nat, i: nat, t: nat)
    requires i < n && s < n && t < n
    ensures CellIndex(n, s, t) == i <==> t == Visit(n, s, i)
  {
    if s + t < n {
      ModOfSum(0, n, s + t);
    } else {
      ModOfSum(1, n, s + t - n);
    }
  }

  /** What pixel `n` ends up as when only block `t` of the first `upto` covers it, or none does. */
  lemma {:induction false} LastPaint(c: Config, ms: seq<Machine>, colours: seq<(nat, nat) -> nat>, upto: nat, n: nat, t: int)
    requires Sweep(c, ms, colours) && upto < |ms| && c.w > 0 && n < |ms[0].pix|
    requires InGrid(Cols(c), RowsOf(c), ms[0].jb, ms[0].kb)
    requires forall i :: 0 <= i < upto ==> (Covers(c, ms[i], n) <==> i == t)
    ensures |ms[upto].pix| == |ms[0].pix|
    ensures ms[upto].pix[n] == if 0 <= t < upto then Painted(c, ms[t], colours[t], n) else ms[0].pix[n]
  {
    SweepPosition(c, ms, colours, upto);
    if upto > 0 {
      var i := upto - 1;
      LastPaint(c, ms, colours, i, n, t);
      assert CellStep(c, ms[i], ms[i + 1], colours[i]);
    }
  }

  /** The colour block `m` gives pixel `n`. */
  function Painted(c: Config, m: Machine, colour: (nat, nat) -> nat, n: nat): nat
    requires c.w > 0
  {
    var x, y := n % c.w - Origin(c.mode, c.tileX, m.jb), n / c.w - Origin(c.mode, c.tileY, m.kb);
    if x >= 0 && y >= 0 then colour(x, y) else 0
  }

  /** C * R consecutive blocks, from any cell of the grid on, paint every pixel of the aligned tile exactly
  once, with the colour its own block gives it, and touch no other pixel. */
  lemma SweepPaintsTile(c: Config, ms: seq<Machine>, colours: seq<(nat, nat) -> nat>, n: nat)
    requires Sweep(c, ms, colours) && c.w > 0 && n < |ms[0].pix|
    requires InGrid(Cols(c), RowsOf(c), ms[0].jb, ms[0].kb) && |colours| == Cols(c) * RowsOf(c)
    ensures |ms[|colours|].pix| == |ms[0].pix|
    ensures InTile(c, n) ==>
              var s := Index(Cols(c), ms[0].jb, ms[0].kb);
              var at := Locate(c, n);
              && at.cell < |colours| && s < |colours|
              && var t := Visit(|colours|, s, at.cell);
                 && (forall i :: 0 <= i < |colours| ==> (Covers(c, ms[i], n) <==> i == t))
                 && ms[|colours|].pix[n] == colours[t](at.x, at.y)
    ensures !InTile(c, n) ==>
              (forall i :: 0 <= i < |colours| ==> !Covers(c, ms[i], n)) && ms[|colours|].pix[n] == ms[0].pix[n]
  {
    var total, s := |colours|, Index(Cols(c), ms[0].jb, ms[0].kb);
    IndexBound(Cols(c), RowsOf(c), ms[0].jb, ms[0].kb);
    var t := -1;
    if InTile(c, n) {
      IndexBound(Cols(c), RowsOf(c), BlockOf(c.mode, n % c.w - c.tileX), BlockOf(c.mode, n / c.w - c.tileY));
      t := Visit(total, s, CellOf(c, n));
    }
    forall i | 0 <= i < total
      ensures Covers(c, ms[i], n) <==> i == t
    {
      SweepPosition(c, ms, colours, i);
      CoversItsCell(c, ms[i], n);
      if InTile(c, n) {
        VisitedOnce(total, s, CellOf(c, n), i);
      }
    }
    LastPaint(c, ms, colours, total, n, t);
    if InTile(c, n) {
      SweepPosition(c, ms, colours, t);
      InOwnBlock(c, ms[t], colours[t], n);
    }
  }

  /** A sweep from the first cell on: block `t` paints cell `t`. */
  lemma SweepFromOrigin(c: Config, ms: seq<Machine>, colours: seq<(nat, nat) -> nat>, n: nat)
    requires Sweep(c, ms, colours) && c.w > 0 && n < |ms[0].pix| && ms[0].jb == 0 && ms[0].kb == 0
    requires Cols(c) >= 1 && RowsOf(c) >= 1 && |colours| == Cols(c) * RowsOf(c)
    ensures |ms[|colours|].pix| == |ms[0].pix|
    ensures InTile(c, n) ==>
              var at := Locate(c, n);
              at.cell < |colours| && ms[|colours|].pix[n] == colours[at.cell](at.x, at.y)
    ensures !InTile(c, n) ==> ms[|colours|].pix[n] == ms[0].pix[n]
  {
    SweepPaintsTile(c, ms, colours, n);
    assert Index(Cols(c), 0, 0) == 0;
  }

  lemma InOwnBlock(c: Config, m: Machine, colour: (nat, nat) -> nat, n: nat)
    requires c.w > 0 && InTile(c, n) && Covers(c, m, n)
    ensures Painted(c, m, colour, n)
         == colour(WithinBlock(c.mode, n % c.w - c.tileX), WithinBlock(c.mode, n / c.w - c.tileY))
  {
    OwnOffset(c.mode, c.tileX, m.jb, n % c.w);
    OwnOffset(c.mode, c.tileY, m.kb, n / c.w);
  }

  lemma OwnOffset(mode: nat, tile: int, j: nat, x: int)
    requires 0 <= x - Origin(mode, tile, j) < Q(mode)
    ensures x >= tile && WithinBlock(mode, x - tile) == x - Origin(mode, tile, j)
  {
    ModOfSum(j, Q(mode), x - Origin(mode, tile, j));
  }

  // ---- any blocks, in any places ------------------------------------------

  /** A run of blocks, each in its own place. */
  ghost predicate Strokes(c: Config, ms: seq<Machine>, places: seq<(nat, nat)>, colours: seq<(nat, nat) -> nat>) {
    && |places| == |colours| && |ms| == |colours| + 1
    && forall t :: 0 <= t < |colours| ==> BlockStep(c, ms[t], ms[t + 1], places[t].0, places[t].1, colours[t])
  }

  /** What pixel `n` shows after blocks in these places: the last of them that covers it, or what it showed before. */
  ghost function Drawn(c: Config, places: seq<(nat, nat)>, colours: seq<(nat, nat) -> nat>, pix: seq<nat>, n: nat): nat
    requires |places| == |colours| && c.w > 0 && n < |pix|
  {
    if |places| == 0 then pix[n]
    else
      var t := |places| - 1;
      var x, y := n % c.w - Origin(c.mode, c.tileX, places[t].0), n / c.w - Origin(c.mode, c.tileY, places[t].1);
      if 0 <= x < Q(c.mode) && 0 <= y < Q(c.mode) then colours[t](x, y) else Drawn(c, places[..t], colours[..t], pix, n)
  }

  lemma {:induction false} StrokesDraw(c: Config, ms: seq<Machine>, places: seq<(nat, nat)>, colours: seq<(nat, nat) -> nat>, n: nat)
    requires Strokes(c, ms, places, colours) && c.w > 0 && n < |ms[0].pix|
    ensures |ms[|colours|].pix| == |ms[0].pix| && ms[|colours|].pix[n] == Drawn(c, places, colours, ms[0].pix, n)
    decreases |places|
  {
    if |places| > 0 {
      var t := |places| - 1;
      assert BlockStep(c, ms[t], ms[t + 1], places[t].0, places[t].1, colours[t]);
      FewerStrokes(c, ms, places, colours, t);
      StrokesDraw(c, ms[..t + 1], places[..t], colours[..t], n);
    }
  }

  lemma FewerStrokes(c: Config, ms: seq<Machine>, places: seq<(nat, nat)>, colours: seq<(nat, nat) -> nat>, t: nat)
    requires Strokes(c, ms, places, colours) && t <= |places|
    ensures Strokes(c, ms[..t + 1], places[..t], colours[..t])
  {
    forall i | 0 <= i < t
      ensures BlockStep(c, ms[..t + 1][i], ms[..t + 1][i + 1], places[..t][i].0, places[..t][i].1, colours[..t][i])
    {
      assert BlockStep(c, ms[i], ms[i + 1], places[i].0, places[i].1, colours[i]);
    }
  }
}
