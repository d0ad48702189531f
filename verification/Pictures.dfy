/** Whole tiles: an encoder for a tile of DCT and palette blocks, and the proof that running its bits paints exactly
that tile. */
module Pictures {
  import opened Bits
  import opened Coefficients
  import opened Colour
  import opened TileMachine
  import opened Raster
  import opened PaletteTiles

  /** How a channel codes a block after a predictor, which blocks it can code, and what a block looks like
  once transformed. */
  datatype BlockCoder = BlockCoder(can: (Block, int) -> bool, code: (Block, int) -> seq<bool>, show: Block -> Block)

  /** A coded block, followed by anything, is read as that block. */
  ghost predicate Inverts(plane: (nat, int) -> Plane, cd: BlockCoder, s: BitStream) {
    forall p: nat, blk: Block, prev: int {:trigger Holds(s, p, cd.code(blk, prev))} ::
      cd.can(blk, prev) && Holds(s, p, cd.code(blk, prev)) ==>
        plane(p, prev) == Plane(cd.show(blk), blk[0], p + |cd.code(blk, prev)|)
  }

  /** Coders for the two kinds of channel. */
  datatype Coders = Coders(luma: BlockCoder, chroma: BlockCoder) {
    ghost predicate Inverted(r: GoodReader) {
      Inverts(r.luma, luma, r.bits) && Inverts(r.chroma, chroma, r.bits)
    }
  }

  /** The coefficients of one MCU. */
  datatype Coefs = Coefs(y: seq<Block>, cb: Block, cr: Block)

  /** What one block leaves for the next: the predictors of the three channels, and the cached colours. */
  datatype Memory = Memory(y: int, cb: int, cr: int, vb: Palette)

  const DCT_KIND: Three := [false, false, false]
  const END_OPCODE: seq<bool> := [true, false, false, true]

  ghost predicate CanLuma(cd: BlockCoder, ys: seq<Block>, prev: int) {
    |ys| == 0 || (cd.can(ys[0], prev) && CanLuma(cd, ys[1..], ys[0][0]))
  }

  ghost function EncodeLuma(cd: BlockCoder, ys: seq<Block>, prev: int): seq<bool> {
    if |ys| == 0 then [] else cd.code(ys[0], prev) + EncodeLuma(cd, ys[1..], ys[0][0])
  }

  /** The predictor after the luma blocks: the DC coefficient of the last one. */
  function LumaDc(ys: seq<Block>, prev: int): int {
    if |ys| == 0 then prev else ys[|ys| - 1][0]
  }

  ghost predicate CanMcu(cds: Coders, u: Coefs, d: Memory) {
    CanLuma(cds.luma, u.y, d.y) && cds.chroma.can(u.cb, d.cb) && cds.chroma.can(u.cr, d.cr)
  }

  ghost function EncodePlanes(cds: Coders, u: Coefs, d: Memory): seq<bool> {
    EncodeLuma(cds.luma, u.y, d.y) + (cds.chroma.code(u.cb, d.cb) + cds.chroma.code(u.cr, d.cr))
  }

  ghost function EncodeMcu(cds: Coders, u: Coefs, at: Spot, d: Memory): seq<bool> {
    Lead(DCT_KIND, at) + EncodePlanes(cds, u, d)
  }

  function AfterMcu(u: Coefs, d: Memory): Memory {
    Memory(LumaDc(u.y, d.y), u.cb[0], u.cr[0], d.vb)
  }

  /** A block: an MCU of coefficients, or a block of cached colours, each for the next cell or one of its own. */
  datatype Cell = DctCell(at: Spot, coefs: Coefs) | PaletteCell(at: Spot, patch: Patch)

  ghost predicate CanCell(cds: Coders, mode: nat, u: Cell, d: Memory) {
    && InBytes(u.at)
    && match u
       case DctCell(_, coefs) => |coefs.y| == LumaCount(mode) && CanMcu(cds, coefs, d)
       case PaletteCell(_, patch) => CanPick(patch, d.vb)
  }

  ghost function EncodeCell(cds: Coders, u: Cell, d: Memory): seq<bool> {
    match u
    case DctCell(at, coefs) => EncodeMcu(cds, coefs, at, d)
    case PaletteCell(at, patch) => EncodePatch(patch, at, d.vb)
  }

  function AfterCell(u: Cell, d: Memory): Memory {
    match u
    case DctCell(_, coefs) => AfterMcu(coefs, d)
    case PaletteCell(_, patch) => d.(vb := CacheAfter(d.vb, patch))
  }

  ghost predicate CanTile(cds: Coders, mode: nat, us: seq<Cell>, d: Memory) {
    |us| == 0 || (CanCell(cds, mode, us[0], d) && CanTile(cds, mode, us[1..], AfterCell(us[0], d)))
  }

  /** The bits of some blocks: an opcode and its block for each, then the end of the frame. */
  ghost function EncodeTile(cds: Coders, us: seq<Cell>, d: Memory): (e: seq<bool>)
    ensures |e| >= 4
  {
    if |us| == 0 then END_OPCODE else EncodeCell(cds, us[0], d) + EncodeTile(cds, us[1..], AfterCell(us[0], d))
  }

  function Shown(cd: BlockCoder, ys: seq<Block>): (r: seq<Block>)
    ensures |r| == |ys|
  {
    if |ys| == 0 then [] else [cd.show(ys[0])] + Shown(cd, ys[1..])
  }

  /** The colours of an MCU. */
  ghost function McuShown(cds: Coders, u: Coefs): (nat, nat) -> nat
  {
    if |u.y| == 1 || |u.y| == 4 then McuColour(Shown(cds.luma, u.y), cds.chroma.show(u.cb), cds.chroma.show(u.cr))
    else (x: nat, y: nat) => 0
  }

  function PixelOf(b: Block, col: nat, row: nat): int
    requires col < 8 && row < 8
  {
    b[8 * row + col]
  }

  /** Planes cut from an image: one 8x8 plane, or the four quadrants of 16x16 pixels, left to right and top to
  bottom. */
  ghost predicate CutFrom(y: seq<Block>, image: (nat, nat) -> int) {
    && (|y| == 1 || |y| == 4)
    && forall k, col: nat, row: nat :: 0 <= k < |y| && col < 8 && row < 8 ==>
         PixelOf(y[k], col, row) == image(8 * (k % 2) + col, 8 * (k / 2) + row)
  }

  /** An MCU whose luma planes are cut from an image shows that image, pixel for pixel, with the chroma samples of
  its own pixel, or in the 16x16 mode of its own 2x2 pixels. */
  lemma McuShowsImage(y: seq<Block>, cb: Block, cr: Block, image: (nat, nat) -> int, px: nat, py: nat)
    requires CutFrom(y, image) && px < (if |y| == 1 then 8 else 16) && py < (if |y| == 1 then 8 else 16)
    ensures var s := if |y| == 1 then 8 * py + px else 8 * (py / 2) + px / 2;
            s < 64 && McuColour(y, cb, cr)(px, py) == Argb(Level(image(px, py)), Level(cb[s]), Level(cr[s]))
  {
    if |y| == 1 {
      assert PixelOf(y[0], px, py) == image(8 * (0 % 2) + px, 8 * (0 / 2) + py);
    } else {
      QuadrantShows(y, cb, cr, image, px, py);
    }
  }

  lemma QuadrantShows(y: seq<Block>, cb: Block, cr: Block, image: (nat, nat) -> int, px: nat, py: nat)
    requires CutFrom(y, image) && |y| == 4 && px < 16 && py < 16
    ensures var s := 8 * (py / 2) + px / 2; s < 64 && McuPixel(y, cb, cr, px, py) == Argb(Level(image(px, py)), Level(cb[s]), Level(cr[s]))
  {
    Quadrant(px, py);
    PlaneShows(y, image, 2 * (py / 8) + px / 8, px % 8, py % 8, px, py);
  }

  lemma PlaneShows(y: seq<Block>, image: (nat, nat) -> int, k: nat, col: nat, row: nat, px: nat, py: nat)
    requires CutFrom(y, image) && k < |y| && col < 8 && row < 8 && 8 * (k % 2) + col == px && 8 * (k / 2) + row == py
    ensures y[k][8 * row + col] == image(px, py)
  {
    assert PixelOf(y[k], col, row) == image(8 * (k % 2) + col, 8 * (k / 2) + row);
  }

  /** A palette block whose samples are a picture, row by row, shows that picture, in the 16x16 mode with 2x2 pixels a
  sample. */
  lemma PaletteShowsPicture(mode: nat, s: Samples, picture: (nat, nat) -> nat, px: nat, py: nat)
    requires mode <= 1 && px < Q(mode) && py < Q(mode)
    requires forall col: nat, row: nat :: col < 8 && row < 8 ==> PixelOf(s, col, row) == picture(col, row)
    ensures PaletteColour(mode, s)(px, py) == PaletteArgb(if mode == 1 then picture(px / 2, py / 2) else picture(px, py))
  {
    var col, row := if mode == 1 then px / 2 else px, if mode == 1 then py / 2 else py;
    assert PixelOf(s, col, row) == picture(col, row);
  }

  /** Which quadrant of a 16x16 square a pixel lies in, and where. */
  lemma Quadrant(px: nat, py: nat)
    requires px < 16 && py < 16
    ensures var k := 2 * (py / 8) + px / 8; k < 4 && 8 * (k % 2) + px % 8 == px && 8 * (k / 2) + py % 8 == py
  {
  }

  /** The colours of a block. */
  ghost function CellShown(cds: Coders, mode: nat, u: Cell, d: Memory): (nat, nat) -> nat {
    match u
    case DctCell(_, coefs) => McuShown(cds, coefs)
    case PaletteCell(_, patch) =>
      if CanPick(patch, d.vb) then PaletteColour(mode, Shows(patch, d.vb)) else (x: nat, y: nat) => 0
  }

  // ---- reading it back ----------------------------------------------------

  lemma {:induction false} LumaRoundTrip(r: GoodReader, cd: BlockCoder, ys: seq<Block>, prev: int, p: nat)
    requires Inverts(r.luma, cd, r.bits) && CanLuma(cd, ys, prev) && Holds(r.bits, p, EncodeLuma(cd, ys, prev))
    ensures LumaPlanes(r, p, prev, |ys|) == (Shown(cd, ys), LumaDc(ys, prev), p + |EncodeLuma(cd, ys, prev)|)
  {
    if |ys| > 0 {
      var e, y := cd.code(ys[0], prev), ys[0];
      HoldsSplit(r.bits, p, e, EncodeLuma(cd, ys[1..], y[0]));
      LumaRoundTrip(r, cd, ys[1..], y[0], p + |e|);
    }
  }

  /** The planes of a coded MCU are read back, from their first bit on. */
  lemma PlanesRoundTrip(r: GoodReader, cds: Coders, u: Coefs, d: Memory, p: nat)
    requires cds.Inverted(r) && CanMcu(cds, u, d) && Holds(r.bits, p, EncodePlanes(cds, u, d))
    ensures McuAt(r, |u.y|, p, d.y, d.cb, d.cr)
         == Mcu(Shown(cds.luma, u.y), cds.chroma.show(u.cb), cds.chroma.show(u.cr),
                LumaDc(u.y, d.y), u.cb[0], u.cr[0], p + |EncodePlanes(cds, u, d)|)
  {
    var ey, eb, er := EncodeLuma(cds.luma, u.y, d.y), cds.chroma.code(u.cb, d.cb), cds.chroma.code(u.cr, d.cr);
    HoldsSplit(r.bits, p, ey, eb + er);
    HoldsSplit(r.bits, p + |ey|, eb, er);
    LumaRoundTrip(r, cds.luma, u.y, d.y, p);
  }

  /** A coded MCU is read as its opcode and its own planes. */
  lemma McuRoundTrip(r: GoodReader, cds: Coders, u: Coefs, at: Spot, d: Memory, m: Machine)
    requires cds.Inverted(r) && InBytes(at) && CanMcu(cds, u, d) && Holds(r.bits, m.p, EncodeMcu(cds, u, at, d))
    ensures Kind(OpAt(r, m.p)) == 0 && Positioned(OpAt(r, m.p)) == at.At? && !Halts(OpAt(r, m.p))
    ensures Head(r, at.At?, m) == m.(p := m.p + |Lead(DCT_KIND, at)|, jb := PlaceOf(at, m.jb, m.kb).0, kb := PlaceOf(at, m.jb, m.kb).1)
    ensures McuAt(r, |u.y|, m.p + |Lead(DCT_KIND, at)|, d.y, d.cb, d.cr)
         == Mcu(Shown(cds.luma, u.y), cds.chroma.show(u.cb), cds.chroma.show(u.cr),
                LumaDc(u.y, d.y), u.cb[0], u.cr[0], m.p + |EncodeMcu(cds, u, at, d)|)
  {
    HoldsSplit(r.bits, m.p, Lead(DCT_KIND, at), EncodePlanes(cds, u, d));
    LeadOpcode(r, m, DCT_KIND, at);
    ThreeBits(false, false, false);
    PlanesRoundTrip(r, cds, u, d, m.p + |Lead(DCT_KIND, at)|);
  }

  function MemoryOf(m: Machine): Memory {
    Memory(m.dcY, m.dcCb, m.dcCr, m.vb)
  }

  /** A block has been painted in its place, its bits are consumed, and its memory is left. */
  ghost predicate CellDone(c: Config, cds: Coders, u: Cell, d: Memory, m: Machine, m': Machine) {
    var place := PlaceOf(u.at, m.jb, m.kb);
    && BlockStep(c, m, m', place.0, place.1, CellShown(cds, c.mode, u, d))
    && m'.p == m.p + |EncodeCell(cds, u, d)| && MemoryOf(m') == AfterCell(u, d)
  }

  lemma McuIsStep(c: Config, r: GoodReader, cds: Coders, u: Coefs, at: Spot, d: Memory, m: Machine)
    requires cds.Inverted(r) && |u.y| == LumaCount(c.mode) && InBytes(at)
    requires d == MemoryOf(m) && CanMcu(cds, u, d) && Holds(r.bits, m.p, EncodeMcu(cds, u, at, d))
    ensures !Halts(OpAt(r, m.p)) && CellDone(c, cds, DctCell(at, u), d, m, Step(c, r, m))
  {
    McuRoundTrip(r, cds, u, at, d, m);
    McuPainted(c, r, cds, u, at, d, m, Head(r, at.At?, m));
    OpcodeIsBlockStep(c, r, m);
  }

  lemma McuPainted(c: Config, r: GoodReader, cds: Coders, u: Coefs, at: Spot, d: Memory, m: Machine, h: Machine)
    requires |u.y| == LumaCount(c.mode) && d == MemoryOf(m) == MemoryOf(h)
    requires McuAt(r, |u.y|, h.p, d.y, d.cb, d.cr)
          == Mcu(Shown(cds.luma, u.y), cds.chroma.show(u.cb), cds.chroma.show(u.cr),
                 LumaDc(u.y, d.y), u.cb[0], u.cr[0], m.p + |EncodeMcu(cds, u, at, d)|)
    ensures BlockColour(c, r, 0, h) == McuShown(cds, u)
    ensures var b := BlockOp(c, r, 0, h); MemoryOf(b) == AfterMcu(u, d) && b.p == m.p + |EncodeMcu(cds, u, at, d)|
  {
  }

  lemma PatchIsStep(c: Config, r: GoodReader, cds: Coders, u: Patch, at: Spot, d: Memory, m: Machine)
    requires InBytes(at) && d == MemoryOf(m) && CanPick(u, d.vb) && Holds(r.bits, m.p, EncodePatch(u, at, d.vb))
    ensures !Halts(OpAt(r, m.p)) && CellDone(c, cds, PaletteCell(at, u), d, m, Step(c, r, m))
  {
    PatchStep(c, r, u, at, m);
  }

  /** A coded block of either kind, with a position or without, is one step that paints it in its place. */
  lemma CellRoundTrip(c: Config, r: GoodReader, g: Program, cds: Coders, u: Cell, d: Memory, m: Machine)
    requires cds.Inverted(r) && Executes(g, c, r)
    requires d == MemoryOf(m) && CanCell(cds, c.mode, u, d) && Holds(r.bits, m.p, EncodeCell(cds, u, d))
    ensures !Halts(g.Opcode(m.p)) && CellDone(c, cds, u, d, m, g.Next(m))
  {
    ExecutesStep(g, c, r, m);
    match u {
      case DctCell(at, coefs) => McuIsStep(c, r, cds, coefs, at, d, m);
      case PaletteCell(at, patch) => PatchIsStep(c, r, cds, patch, at, d, m);
    }
  }

  ghost function TileColours(cds: Coders, mode: nat, us: seq<Cell>, d: Memory): (colours: seq<(nat, nat) -> nat>)
    ensures |colours| == |us|
  {
    if |us| == 0 then [] else [CellShown(cds, mode, us[0], d)] + TileColours(cds, mode, us[1..], AfterCell(us[0], d))
  }

  /** Where some blocks go, the first of them from position `here`. */
  function Places(c: Config, us: seq<Cell>, here: (nat, nat)): (places: seq<(nat, nat)>)
    ensures |places| == |us|
  {
    if |us| == 0 then []
    else
      var place := PlaceOf(us[0].at, here.0, here.1);
      [place] + Places(c, us[1..], Advance(Cols(c), RowsOf(c), place))
  }

  /** No block has a position of its own. */
  predicate Unplaced(us: seq<Cell>) {
    forall t :: 0 <= t < |us| ==> us[t].at == Onward
  }

  /** The machine stands before coded blocks that end within `limit` bits. */
  ghost predicate AtTile(r: GoodReader, cds: Coders, mode: nat, us: seq<Cell>, limit: nat, m: Machine) {
    var d := MemoryOf(m);
    CanTile(cds, mode, us, d) && Holds(r.bits, m.p, EncodeTile(cds, us, d)) && m.p + |EncodeTile(cds, us, d)| <= limit
  }

  /** The first of some coded blocks is taken in one step, and what follows is the coded rest. */
  lemma TileStep(c: Config, r: GoodReader, g: Program, cds: Coders, us: seq<Cell>, limit: nat, m: Machine)
    requires cds.Inverted(r) && Executes(g, c, r) && |us| > 0
    requires AtTile(r, cds, c.mode, us, limit, m)
    ensures m.p < limit && !Halts(g.Opcode(m.p)) && AtTile(r, cds, c.mode, us[1..], limit, g.Next(m))
    ensures CellDone(c, cds, us[0], MemoryOf(m), m, g.Next(m))
  {
    var d, u := MemoryOf(m), us[0];
    var code, rest := EncodeCell(cds, u, d), EncodeTile(cds, us[1..], AfterCell(u, d));
    assert EncodeTile(cds, us, d) == code + rest;
    HoldsSplit(r.bits, m.p, code, rest);
    CellRoundTrip(c, r, g, cds, u, d, m);
    RestAtTile(r, cds, c.mode, us[1..], limit, g.Next(m), m.p + |code|, AfterCell(u, d));
  }

  lemma RestAtTile(r: GoodReader, cds: Coders, mode: nat, us: seq<Cell>, limit: nat, m: Machine, p: nat, d: Memory)
    requires m.p == p && MemoryOf(m) == d && CanTile(cds, mode, us, d) && Holds(r.bits, p, EncodeTile(cds, us, d))
    requires p + |EncodeTile(cds, us, d)| <= limit
    ensures AtTile(r, cds, mode, us, limit, m)
  {
  }

  /** Running the interpreter over coded blocks paints each in its place, and ends at the end opcode; blocks without
  positions are a sweep. */
  lemma {:induction false} TileRoundTrip(c: Config, r: GoodReader, g: Program, cds: Coders, us: seq<Cell>, limit: nat, m: Machine)
    returns (ms: seq<Machine>)
    requires cds.Inverted(r) && Executes(g, c, r)
    requires AtTile(r, cds, c.mode, us, limit, m)
    ensures Strokes(c, ms, Places(c, us, (m.jb, m.kb)), TileColours(cds, c.mode, us, MemoryOf(m))) && ms[0] == m
    ensures Unplaced(us) ==> Sweep(c, ms, TileColours(cds, c.mode, us, MemoryOf(m)))
    ensures Run(g, limit, m) == (ms[|us|], |us| + 1)
  {
    ms := [m];
    if |us| == 0 {
      EndHalts(r, m.p);
      assert g.Opcode(m.p) == OpAt(r, m.p);
    } else {
      TileStep(c, r, g, cds, us, limit, m);
      var rest := TileRoundTrip(c, r, g, cds, us[1..], limit, g.Next(m));
      ms := [m] + rest;
      JoinStrokes(c, cds, us, m, rest);
    }
  }

  lemma JoinStrokes(c: Config, cds: Coders, us: seq<Cell>, m: Machine, rest: seq<Machine>)
    requires |us| > 0 && |rest| > 0 && CellDone(c, cds, us[0], MemoryOf(m), m, rest[0])
    requires Strokes(c, rest, Places(c, us[1..], (rest[0].jb, rest[0].kb)), TileColours(cds, c.mode, us[1..], MemoryOf(rest[0])))
    requires Unplaced(us[1..]) ==> Sweep(c, rest, TileColours(cds, c.mode, us[1..], MemoryOf(rest[0])))
    ensures Strokes(c, [m] + rest, Places(c, us, (m.jb, m.kb)), TileColours(cds, c.mode, us, MemoryOf(m)))
    ensures Unplaced(us) ==> Sweep(c, [m] + rest, TileColours(cds, c.mode, us, MemoryOf(m)))
  {
    var d, place := MemoryOf(m), PlaceOf(us[0].at, m.jb, m.kb);
    var colour, colours := CellShown(cds, c.mode, us[0], d), TileColours(cds, c.mode, us[1..], MemoryOf(rest[0]));
    FirstStroke(c, m, rest, place, Places(c, us[1..], (rest[0].jb, rest[0].kb)), colour, colours);
    if Unplaced(us) {
      assert forall t :: 0 <= t < |us[1..]| ==> us[1..][t] == us[t + 1];
      FirstSweep(c, m, rest, colour, colours);
    }
  }

  lemma FirstStroke(c: Config, m: Machine, rest: seq<Machine>, place: (nat, nat), places: seq<(nat, nat)>,
                    colour: (nat, nat) -> nat, colours: seq<(nat, nat) -> nat>)
    requires Strokes(c, rest, places, colours) && BlockStep(c, m, rest[0], place.0, place.1, colour)
    ensures Strokes(c, [m] + rest, [place] + places, [colour] + colours)
  {
    var ms, ps, cs := [m] + rest, [place] + places, [colour] + colours;
    forall t | 0 <= t < |cs|
      ensures BlockStep(c, ms[t], ms[t + 1], ps[t].0, ps[t].1, cs[t])
    {
      if t > 0 {
        assert BlockStep(c, rest[t - 1], rest[t - 1 + 1], places[t - 1].0, places[t - 1].1, colours[t - 1]);
      }
    }
  }

  lemma EndHalts(r: GoodReader, p: nat)
    requires Holds(r.bits, p, END_OPCODE)
    ensures OpAt(r, p) == 9
  {
    var w := END_OPCODE;
    assert w[..3] == [true, false, false] && w[..3][..2] == [true, false] && w[..3][..2][..1] == [true];
    assert Val(w[..3][..2][..1]) == 1;
    assert Val(w[..3]) == 4;
  }

  lemma FirstSweep(c: Config, m: Machine, rest: seq<Machine>, colour: (nat, nat) -> nat, colours: seq<(nat, nat) -> nat>)
    requires Sweep(c, rest, colours) && CellStep(c, m, rest[0], colour)
    ensures Sweep(c, [m] + rest, [colour] + colours)
  {
    var ms, cs := [m] + rest, [colour] + colours;
    forall t | 0 <= t < |cs|
      ensures CellStep(c, ms[t], ms[t + 1], cs[t])
    {
      if t > 0 {
        assert CellStep(c, rest[t - 1], rest[t - 1 + 1], colours[t - 1]);
      }
    }
  }
}
