/** What a packet-134 body means: a pure interpreter of its opcodes over one infinite bit sequence. */
module TileMachine {
  import opened Bits
  import opened Coefficients
  import opened Colour

  /** Up to four recent colours, the cache slot each selector stands for, and the bits per selector. */
  datatype Cache = Palette(colors: seq<nat>, index: seq<nat>, entropy: nat) {
    predicate Valid() {
      |colors| == 4 && |index| == 4 && (forall i :: 0 <= i < 4 ==> index[i] < 4) && entropy <= 2
    }
  }

  type Palette = vb: Cache | vb.Valid() witness Palette([0, 0, 0, 0], [0, 0, 0, 0], 0)

  /** A decoded plane: its 64 values, its DC coefficient and the bit position after it. */
  datatype Plane = Plane(px: Block, dc: int, p: nat)

  /** The plane found at bit `p` after a plane with predictor `dc`. */
  function PlaneAt(plane: (nat, int) -> Plane, p: nat, dc: int): Plane {
    plane(p, dc)
  }

  /** How the decoder reads the stream: raw fields, and at a bit position, with the predictor of its
  channel, a luma or a chroma plane. */
  datatype Reader = Reader(bits: BitStream, luma: (nat, int) -> Plane, chroma: (nat, int) -> Plane) {
    ghost predicate Good() {
      forall p: nat, dc: int :: PlaneAt(luma, p, dc).p >= p && PlaneAt(chroma, p, dc).p >= p
    }
  }

  type GoodReader = r: Reader | r.Good() ghost witness
    Reader((_: nat) => false, (p: nat, dc: int) => Plane(DcBlock(dc), dc, p), (p: nat, dc: int) => Plane(DcBlock(dc), dc, p))

  /** What stays fixed while a body is decoded. `mode` 0 is 8x8 blocks, 1 is 16x16. */
  datatype Config = Config(mode: nat, tileX: int, tileY: int, tileW: nat, tileH: nat, w: nat, h: nat)

  /** The MCU size in pixels. */
  function Q(mode: nat): (q: nat)
    ensures q == 8 || q == 16
  {
    if mode == 1 then 16 else 8
  }

  /** Where the `n`-th block of a tile starts, along one axis. */
  function Origin(mode: nat, tile: int, n: nat): int {
    if mode == 1 then tile + n * 16 else tile + n * 8
  }

  /** What decoding changes: bits consumed, block position, palette, DC predictors and pixels. */
  datatype Machine = Machine(p: nat, jb: nat, kb: nat, vb: Palette, dcY: int, dcCb: int, dcCr: int, pix: seq<nat>)

  // ---- painting -----------------------------------------------------------

  /** Pixel `n` lies in the square of side `size` at (x0, y0). */
  predicate InSquare(w: nat, x0: int, y0: int, size: nat, n: nat)
    requires w > 0
  {
    x0 <= n % w < x0 + size && y0 <= n / w < y0 + size
  }

  /** The screen with the square at (x0, y0) painted, clipped to the screen. */
  function Paint(w: nat, pix: seq<nat>, x0: int, y0: int, size: nat, colour: (nat, nat) -> nat): (r: seq<nat>)
    ensures |r| == |pix|
  {
    if w == 0 then pix
    else
      seq(|pix|, (n: nat) requires n < |pix| =>
        if InSquare(w, x0, y0, size, n) then colour(n % w - x0, n / w - y0) else pix[n])
  }

  // ---- palette blocks -----------------------------------------------------

  /** The `i`-th selector picks a cached colour. */
  ghost function Sample(r: GoodReader, vb: Palette, p: nat, i: nat): nat
  {
    var v := Val(Window(r.bits, p + i * vb.entropy, vb.entropy));
    vb.colors[vb.index[if v >= 4 then 3 else v]]
  }

  type Samples = s: seq<nat> | |s| == 64 witness seq(64, _ => 0)

  ghost function AllSamples(r: GoodReader, vb: Palette, p: nat): (s: Samples)
  {
    seq(64, i requires 0 <= i < 64 => Sample(r, vb, p, i))
  }

  /** Colours of a palette block: one sample a pixel, or one for each 2x2 pixels. */
  function PaletteColour(mode: nat, s: Samples): (nat, nat) -> nat {
    (x: nat, y: nat) => SampleColour(mode, s, x, y)
  }

  function SampleColour(mode: nat, s: Samples, x: nat, y: nat): nat {
    if mode == 1 then if x < 16 && y < 16 then PaletteArgb(s[8 * (y / 2) + x / 2]) else 0
    else if x < 8 && y < 8 then PaletteArgb(s[8 * y + x]) else 0
  }

  ghost function PaletteBlock(c: Config, r: GoodReader, m: Machine): (m': Machine)
    ensures m'.p >= m.p && m'.vb == m.vb && |m'.pix| == |m.pix|
  {
    var q := Q(c.mode);
    m.(p := m.p + 64 * m.vb.entropy,
       pix := Paint(c.w, m.pix, Origin(c.mode, c.tileX, m.jb), Origin(c.mode, c.tileY, m.kb), q,
                    PaletteColour(c.mode, AllSamples(r, m.vb, m.p))))
  }

  /** Refreshing slot `i`: a selector, and a colour if its first bit is set. */
  ghost function SlotAt(r: GoodReader, p: nat, vb: Palette, i: nat): (res: (nat, Palette))
    requires i < 4
    ensures res.0 >= p && res.1.entropy == vb.entropy
  {
    var slot := Val(Window(r.bits, p, 3)) % 4;
    var vb' := vb.(index := vb.index[i := slot]);
    if !r.bits(p) then (p + 3, vb')
    else (p + 27, vb'.(colors := vb'.colors[slot := 0xFF000000 + Val(Window(r.bits, p + 3, 24))]))
  }

  /** Refreshing slots `i` to `n - 1`. */
  ghost function Refresh(r: GoodReader, p: nat, vb: Palette, i: nat, n: nat): (res: (nat, Palette))
    requires i <= n <= 4
    ensures res.0 >= p && res.1.entropy == vb.entropy
    decreases r, n - i
  {
    if i == n then (p, vb)
    else
      var s := SlotAt(r, p, vb, i);
      Refresh(r, s.0, s.1, i + 1, n)
  }

  // ---- DCT blocks ---------------------------------------------------------

  function Level(v: int): int {
    if v + 128 < 0 then 0 else if v + 128 > 255 then 255 else v + 128
  }

  /** Colours of an MCU: `y` has one plane, or four in a 2x2 grid with chroma shared by 2x2 pixels. */
  function McuColour(y: seq<Block>, cb: Block, cr: Block): (nat, nat) -> nat
    requires |y| == 1 || |y| == 4
  {
    (px: nat, py: nat) => McuPixel(y, cb, cr, px, py)
  }

  function McuPixel(y: seq<Block>, cb: Block, cr: Block, px: nat, py: nat): nat
    requires |y| == 1 || |y| == 4
  {
    if |y| == 1 then
      if px < 8 && py < 8 then
        Argb(Level(y[0][8 * py + px]), Level(cb[8 * py + px]), Level(cr[8 * py + px]))
      else 0
    else if px < 16 && py < 16 then
      Argb(Level(y[2 * (py / 8) + px / 8][8 * (py % 8) + px % 8]),
           Level(cb[8 * (py / 2) + px / 2]), Level(cr[8 * (py / 2) + px / 2]))
    else 0
  }

  /** The next `n` luma planes. */
  ghost function LumaPlanes(r: GoodReader, p: nat, dc: int, n: nat): (res: (seq<Block>, int, nat))
    ensures |res.0| == n && res.2 >= p
    decreases r, n
  {
    if n == 0 then ([], dc, p)
    else
      var a := PlaneAt(r.luma, p, dc);
      var rest := LumaPlanes(r, a.p, a.dc, n - 1);
      ([a.px] + rest.0, rest.1, rest.2)
  }

  /** The planes of one MCU, the predictors they leave and the bit position after them. */
  datatype Mcu = Mcu(y: seq<Block>, cb: Block, cr: Block, dcY: int, dcCb: int, dcCr: int, p: nat)

  /** An MCU of `n` luma planes and two chroma planes. */
  ghost function McuAt(r: GoodReader, n: nat, p: nat, dcY: int, dcCb: int, dcCr: int): (u: Mcu)
    ensures |u.y| == n && u.p >= p
  {
    var y := LumaPlanes(r, p, dcY, n);
    var cb := PlaneAt(r.chroma, y.2, dcCb);
    var cr := PlaneAt(r.chroma, cb.p, dcCr);
    Mcu(y.0, cb.px, cr.px, y.1, cb.dc, cr.dc, cr.p)
  }

  function LumaCount(mode: nat): (n: nat)
    ensures n == 1 || n == 4
  {
    if mode == 0 then 1 else 4
  }

  ghost function DctBlock(c: Config, r: GoodReader, m: Machine): (m': Machine)
    ensures m'.p >= m.p && m'.vb == m.vb && |m'.pix| == |m.pix|
  {
    var u := McuAt(r, LumaCount(c.mode), m.p, m.dcY, m.dcCb, m.dcCr);
    var q := Q(c.mode);
    m.(p := u.p, dcY := u.dcY, dcCb := u.dcCb, dcCr := u.dcCr,
       pix := Paint(c.w, m.pix, Origin(c.mode, c.tileX, m.jb), Origin(c.mode, c.tileY, m.kb), q, McuColour(u.y, u.cb, u.cr)))
  }

  // ---- opcodes ------------------------------------------------------------

  /** The block grid of a tile; a tile narrower or lower than one block falls back to the screen's size. */
  function Cols(c: Config): nat {
    var n := c.tileW / Q(c.mode);
    if n <= 0 then c.w / Q(c.mode) else n
  }

  function RowsOf(c: Config): nat {
    var n := c.tileH / Q(c.mode);
    if n <= 0 then c.h / Q(c.mode) else n
  }

  /** Moving on to the next block of the grid, wrapping at the right edge and at the bottom. */
  function Advance(cols: nat, rows: nat, at: (nat, nat)): (next: (nat, nat)) {
    if at.0 + 1 < cols then (at.0 + 1, at.1)
    else (0, if at.1 + 1 >= rows then 0 else at.1 + 1)
  }

  predicate Halts(op: nat) {
    op == 1 || op == 2 || op == 3 || op == 9 || op == 10 || op == 11
  }

  /** Bit 3 of an opcode that does not halt: it carries a block position. */
  predicate Positioned(op: nat) {
    op >= 8
  }

  /** The opcode without its position bit: 0 is a DCT block, 4 a palette block, 5 to 7 refresh the palette first. */
  function Kind(op: nat): nat {
    if op >= 8 then op - 8 else op
  }

  function Slots(kind: nat): nat {
    if kind == 5 then 1 else if kind == 6 then 2 else 4
  }

  ghost function OpAt(r: GoodReader, p: nat): (op: nat) {
    Val(Window(r.bits, p, 4))
  }

  /** The header of an opcode: its position, if it has one, and its length. */
  ghost function Head(r: GoodReader, positioned: bool, m: Machine): (m': Machine)
    ensures m'.p >= m.p + 4 && m'.vb == m.vb && m'.pix == m.pix
  {
    if positioned then
      m.(p := m.p + 20, jb := Val(Window(r.bits, m.p + 4, 8)), kb := Val(Window(r.bits, m.p + 12, 8)))
    else m.(p := m.p + 4)
  }

  /** Refreshing the first `n` slots, then painting with one, two or four colours. */
  ghost function RefreshBlock(c: Config, r: GoodReader, n: nat, m: Machine): (m': Machine)
    requires 1 <= n <= 4
    ensures m'.p >= m.p && |m'.pix| == |m.pix|
  {
    var f := Refresh(r, m.p, m.vb.(entropy := EntropyOf(n)), 0, n);
    PaletteBlock(c, r, m.(p := f.0, vb := f.1))
  }

  function EntropyOf(n: nat): (e: nat)
    ensures e <= 2
  {
    if n >= 4 then 2 else if n == 2 then 1 else 0
  }

  /** The block of an opcode, after its header. */
  ghost function BlockOp(c: Config, r: GoodReader, kind: nat, m: Machine): (m': Machine)
    ensures m'.p >= m.p && |m'.pix| == |m.pix|
  {
    if kind == 0 then DctBlock(c, r, m)
    else if kind == 4 then PaletteBlock(c, r, m)
    else RefreshBlock(c, r, Slots(kind), m)
  }

  /** An opcode: its header and its block. */
  ghost function Operate(c: Config, r: GoodReader, op: nat, m: Machine): (m': Machine)
    ensures m'.p >= m.p + 4 && |m'.pix| == |m.pix|
  {
    BlockOp(c, r, Kind(op), Head(r, Positioned(op), m))
  }

  /** Moving on to the next cell. */
  function Moved(c: Config, m: Machine): (m': Machine)
    ensures m'.p == m.p && m'.pix == m.pix
  {
    var at := Advance(Cols(c), RowsOf(c), (m.jb, m.kb));
    m.(jb := at.0, kb := at.1)
  }

  ghost function Step(c: Config, r: GoodReader, m: Machine): (m': Machine)
    ensures m'.p >= m.p + 4 && |m'.pix| == |m.pix|
  {
    Moved(c, Operate(c, r, OpAt(r, m.p), m))
  }

  /** The opcode at a bit position, what an opcode does, and a step. */
  datatype Ops = Ops(op: nat -> nat, operate: (nat, Machine) -> Machine, step: Machine -> Machine) {
    function Opcode(p: nat): nat {
      op(p)
    }

    function Done(o: nat, m: Machine): Machine {
      operate(o, m)
    }

    function Next(m: Machine): Machine {
      step(m)
    }

    ghost predicate Good() {
      forall m :: Next(m).p >= m.p + 4 && |Next(m).pix| == |m.pix|
    }
  }

  type Program = g: Ops | g.Good() ghost witness
    Ops((p: nat) => 0, (op: nat, m: Machine) => m, (m: Machine) => m.(p := m.p + 4))

  ghost function ProgramOf(c: Config, r: GoodReader): (g: Program)
    ensures Executes(g, c, r)
  {
    Ops((p: nat) => OpAt(r, p), (op: nat, m: Machine) => Operate(c, r, op, m), (m: Machine) => Step(c, r, m))
  }

  ghost predicate Executes(g: Program, c: Config, r: GoodReader) {
    && (forall p {:trigger OpAt(r, p)} :: g.Opcode(p) == OpAt(r, p))
    && Operates(g, c, r)
    && (forall m {:trigger g.Next(m)} :: g.Next(m) == Moved(c, g.Done(g.Opcode(m.p), m)))
  }

  ghost predicate Operates(g: Program, c: Config, r: GoodReader) {
    forall op, m {:trigger Operate(c, r, op, m)} :: g.Done(op, m) == Operate(c, r, op, m)
  }

  lemma ExecutesStep(g: Program, c: Config, r: GoodReader, m: Machine)
    requires Executes(g, c, r)
    ensures g.Opcode(m.p) == OpAt(r, m.p) && g.Next(m) == Step(c, r, m)
  {
    assert g.Opcode(m.p) == OpAt(r, m.p);
    assert g.Done(OpAt(r, m.p), m) == Operate(c, r, OpAt(r, m.p), m);
  }

  /** Running a body of `limit` bits, until all of them are consumed or an opcode halts: the final machine and
  the number of opcodes looked at. */
  ghost function Run(g: Program, limit: nat, m: Machine): (res: (Machine, nat))
    ensures |res.0.pix| == |m.pix|
    decreases limit - m.p
  {
    if m.p >= limit then (m, 0)
    else if Halts(g.Opcode(m.p)) then (m, 1)
    else
      var rest := Run(g, limit, g.Next(m));
      (rest.0, rest.1 + 1)
  }

  /** A body of `n` bytes holds at most `2 * n` opcodes. */
  lemma OpcodesPerByte(g: Program, n: nat, m: Machine)
    requires m.p == 0
    ensures Run(g, 8 * n, m).1 <= 2 * n
  {
    OpcodeBound(g, 8 * n, m);
  }

  /** Every opcode takes at least four bits. */
  lemma {:induction false} OpcodeBound(g: Program, limit: nat, m: Machine)
    requires m.p <= limit + 3
    ensures 4 * Run(g, limit, m).1 <= limit + 3 - m.p
    decreases limit - m.p
  {
    if m.p < limit && !Halts(g.Opcode(m.p)) {
      var m' := g.Next(m);
      if m'.p <= limit + 3 {
        OpcodeBound(g, limit, m');
      }
    }
  }
}
