/** The codec as a whole: a tile of coefficient and palette blocks, coded with the codec's tables and packed into a packet
body, is painted exactly where and as it was coded. */
module PacketCodec {
  import opened Bits
  import opened Endian
  import opened Huffman
  import opened ZigZagOrder
  import opened Coefficients
  import opened CodeBooks
  import opened StandardTables
  import opened InverseDct
  import opened Entropy
  import opened TileMachine
  import opened Raster
  import opened Pictures
  import opened AvocentDecoders
  import opened Framebuffers

  /** The books of a channel: complete for baseline blocks, and without stalling symbols. */
  ghost predicate Baseline(dcB: CodeBook, acB: CodeBook) {
    && DcComplete(dcB, 11) && (forall v :: v in dcB.values ==> v < 16)
    && AcComplete(acB, 10) && (forall v :: v in acB.values ==> !Stalls(v))
  }

  /** A block of a baseline image: AC coefficients of category up to 10, a DC difference of category up to 11. */
  ghost predicate BaselineBlock(blk: Block, prev: int) {
    && -0x8000 <= blk[0] < 0x8000 && Category(blk[0] - prev) <= 11
    && forall i :: 1 <= i < 64 ==> Category(blk[i]) <= 10
  }

  /** The books can code every baseline block. */
  lemma BaselineIsCodable(dcB: CodeBook, acB: CodeBook, inv: ScanOrder, blk: Block, prev: int)
    requires Baseline(dcB, acB) && BaselineBlock(blk, prev)
    ensures Codable(DcCoderOf(dcB, 11), AcCoderOf(acB, 10), inv, blk, prev)
  {
    var cd := AcCoderOf(acB, 10);
    forall k, run: nat | 1 <= k < 64 && run < 16 && Scan(inv, blk, k) != 0
      ensures (run, Scan(inv, blk, k)) in cd.coef
    {
      assert inv[k] != inv[0];
      assert (run, Scan(inv, blk, k)) in AcKeys(10);
    }
  }

  ghost function CodeBlock(dcB: CodeBook, acB: CodeBook, inv: ScanOrder, blk: Block, prev: int): seq<bool>
    requires Baseline(dcB, acB)
  {
    if BaselineBlock(blk, prev) then
      BaselineIsCodable(dcB, acB, inv, blk, prev);
      EncodeBlock(DcCoderOf(dcB, 11), AcCoderOf(acB, 10), inv, blk, prev)
    else []
  }

  ghost function CoderOf(dcB: CodeBook, acB: CodeBook, inv: ScanOrder, q: Dequant): BlockCoder
    requires Baseline(dcB, acB)
  {
    BlockCoder((blk: Block, prev: int) => BaselineBlock(blk, prev),
               (blk: Block, prev: int) => CodeBlock(dcB, acB, inv, blk, prev),
               (blk: Block) => Idct(CODE, q, blk))
  }

  lemma BookIsUsable(b: CodeBook)
    ensures (forall v :: v in b.values ==> v < 16) ==> DcUsable(b.table)
    ensures (forall v :: v in b.values ==> !Stalls(v)) ==> AcUsable(b.table)
  {
    forall s: BitStream, p: nat
      ensures var r := Lookup(b.table, s, p); r.Match? ==> r.value in b.values
    {
      LookupInBook(b, s, p);
    }
  }

  /** The channel's decoder inverts the channel's coder, on every stream. */
  lemma ChannelInverts(dcB: CodeBook, acB: CodeBook, c: Channel, plane: (nat, int) -> Plane)
    requires Baseline(dcB, acB) && c.dcT == dcB.table && c.acT == acB.table && Decodes(plane, c)
    ensures Inverts(plane, CoderOf(dcB, acB, c.inv, c.q), c.s)
  {
    var cd := CoderOf(dcB, acB, c.inv, c.q);
    forall p: nat, blk: Block, prev: int | cd.can(blk, prev) && Holds(c.s, p, cd.code(blk, prev))
      ensures plane(p, prev) == Plane(cd.show(blk), blk[0], p + |cd.code(blk, prev)|)
    {
      PlaneInverts(dcB, acB, c, blk, prev, p);
      assert plane(p, prev) == DecodePlane(c, p, prev);
    }
  }

  lemma PlaneInverts(dcB: CodeBook, acB: CodeBook, c: Channel, blk: Block, prev: int, p: nat)
    requires Baseline(dcB, acB) && c.dcT == dcB.table && c.acT == acB.table
    requires BaselineBlock(blk, prev) && Holds(c.s, p, CodeBlock(dcB, acB, c.inv, blk, prev))
    ensures DecodePlane(c, p, prev) == Plane(Idct(CODE, c.q, blk), blk[0], p + |CodeBlock(dcB, acB, c.inv, blk, prev)|)
  {
    ParseInverts(dcB, acB, c.inv, c.s, blk, prev, p, LinkOf(c.dcT, c.acT, c.s));
  }

  lemma ParseInverts(dcB: CodeBook, acB: CodeBook, inv: ScanOrder, s: BitStream, blk: Block, prev: int, p: nat, l: Codes)
    requires Baseline(dcB, acB) && l.dc == DifferencesOf(dcB, s) && l.ac == TokensOf(acB, s)
    requires BaselineBlock(blk, prev) && Holds(s, p, CodeBlock(dcB, acB, inv, blk, prev))
    ensures ParseBlock(l.dc, l.ac, inv, p, prev) == BlockResult(blk, blk[0], p + |CodeBlock(dcB, acB, inv, blk, prev)|)
  {
    DcBuiltReadsBack(dcB, 11, s);
    AcBuiltReadsBack(acB, 10, s);
    BaselineIsCodable(dcB, acB, inv, blk, prev);
    BlockRoundTrip(l.dc, DcCoderOf(dcB, 11), l.ac, AcCoderOf(acB, 10), inv, blk, prev, s, p);
  }

  /** The code books of the luma and chroma channels. */
  datatype Books = Books(dcY: CodeBook, acY: CodeBook, dcC: CodeBook, acC: CodeBook) {
    ghost predicate Good() {
      Baseline(dcY, acY) && Baseline(dcC, acC)
    }

    ghost predicate Behind(tabs: Tables) {
      tabs.dcLuma == dcY.table && tabs.acLuma == acY.table && tabs.dcChroma == dcC.table && tabs.acChroma == acC.table
    }
  }

  ghost function CodersOf(bk: Books, inv: ScanOrder, qY: Dequant, qC: Dequant): Coders
    requires bk.Good()
  {
    Coders(CoderOf(bk.dcY, bk.acY, inv, qY), CoderOf(bk.dcC, bk.acC, inv, qC))
  }

  /** The tables and scan order the codec is built with, and the books behind them. */
  method BuildCodec() returns (tabs: Tables, ghost bk: Books)
    ensures bk.Good() && bk.Behind(tabs) && OfLuma(bk.dcY, bk.acY) && OfChroma(bk.dcC, bk.acC)
    ensures Zigzags(tabs.inv) && UndoesZigZag(tabs.inv)
  {
    var dcY, dcC, acY, acC := BuildBooks();
    BooksGood(dcY, acY);
    BooksGood(dcC, acC);
    tabs, bk := Assemble(dcY, acY, dcC, acC);
  }

  method Assemble(dcY: CodeBook, acY: CodeBook, dcC: CodeBook, acC: CodeBook) returns (tabs: Tables, ghost bk: Books)
    requires Baseline(dcY, acY) && Baseline(dcC, acC)
    ensures bk == Books(dcY, acY, dcC, acC) && bk.Good() && bk.Behind(tabs)
    ensures Zigzags(tabs.inv) && UndoesZigZag(tabs.inv)
  {
    var inv := BuildInvZigZag();
    bk := Books(dcY, acY, dcC, acC);
    BookIsUsable(dcY);
    BookIsUsable(dcC);
    BookIsUsable(acY);
    BookIsUsable(acC);
    tabs := Tables(dcY.table, acY.table, dcC.table, acC.table, inv);
  }

  lemma BooksGood(dcB: Book, acB: Book)
    requires CoversDc(dcB) && CoversAc(acB)
    ensures Baseline(dcB, acB)
  {
  }

  /** What a body starts with: predictors at zero, and the cache that the packets before have left. */
  function AtStart(vb: Palette): Memory {
    Memory(0, 0, 0, vb)
  }

  /** The body of the packet that carries some blocks to a decoder with a cache. */
  ghost function TileBody(cds: Coders, us: seq<Cell>, vb: Palette): seq<byte> {
    Pack(EncodeTile(cds, us, AtStart(vb)))
  }

  /** What some blocks show in pixel `n`: the last of them whose place covers it; elsewhere, what was there. */
  ghost function BlocksPixel(c: Config, cds: Coders, us: seq<Cell>, vb: Palette, pix: seq<nat>, n: nat): nat
    requires c.w > 0 && n < |pix|
  {
    Drawn(c, Places(c, us, (0, 0)), TileColours(cds, c.mode, us, AtStart(vb)), pix, n)
  }

  /** Blocks without positions, as many as the tile has cells. */
  predicate FillsTile(c: Config, us: seq<Cell>) {
    Cols(c) >= 1 && RowsOf(c) >= 1 && |us| == Cols(c) * RowsOf(c) && Unplaced(us)
  }

  /** What a tile of such blocks shows in pixel `n`: in the tile, the pixel its own cell holds; elsewhere, what was there. */
  ghost function TilePixel(c: Config, cds: Coders, us: seq<Cell>, vb: Palette, pix: seq<nat>, n: nat): nat
    requires c.w > 0 && n < |pix|
  {
    if InTile(c, n) then
      var at := Locate(c, n);
      if at.cell < |us| then TileColours(cds, c.mode, us, AtStart(vb))[at.cell](at.x, at.y) else pix[n]
    else pix[n]
  }

  /** Decoding the packet body of any blocks leaves in each pixel what the last block over it shows; blocks without
  positions that fill the tile leave in each of its pixels what its own cell holds. */
  lemma PacketRoundTrip(bk: Books, tabs: Tables, qY: Dequant, qC: Dequant, c: Config, us: seq<Cell>,
                        vb: Palette, pix: seq<nat>, n: nat)
    requires bk.Good() && bk.Behind(tabs) && c.w > 0 && n < |pix|
    requires CanTile(CodersOf(bk, tabs.inv, qY, qC), c.mode, us, AtStart(vb))
    ensures var cds := CodersOf(bk, tabs.inv, qY, qC);
            var body := TileBody(cds, us, vb);
            var res := Run(ProgramOf(c, ReaderOf(tabs, qY, qC, Packed(body))), 8 * |body|, Initial(vb, pix));
            && res.1 == |us| + 1 && |res.0.pix| == |pix| && res.0.pix[n] == BlocksPixel(c, cds, us, vb, pix, n)
            && (FillsTile(c, us) ==>
                  (InTile(c, n) ==> Locate(c, n).cell < |us|) && res.0.pix[n] == TilePixel(c, cds, us, vb, pix, n))
  {
    var cds := CodersOf(bk, tabs.inv, qY, qC);
    var body := TileBody(cds, us, vb);
    var r := ReaderOf(tabs, qY, qC, Packed(body));
    ReaderInverts(bk, tabs, qY, qC, r, cds);
    PaintsTile(c, r, ProgramOf(c, r), cds, us, vb, pix, n);
  }

  lemma ReaderInverts(bk: Books, tabs: Tables, qY: Dequant, qC: Dequant, r: GoodReader, cds: Coders)
    requires bk.Good() && bk.Behind(tabs) && cds == CodersOf(bk, tabs.inv, qY, qC)
    requires Decodes(r.luma, Channel(tabs.dcLuma, tabs.acLuma, tabs.inv, qY, r.bits))
    requires Decodes(r.chroma, Channel(tabs.dcChroma, tabs.acChroma, tabs.inv, qC, r.bits))
    ensures cds.Inverted(r)
  {
    ChannelInverts(bk.dcY, bk.acY, Channel(tabs.dcLuma, tabs.acLuma, tabs.inv, qY, r.bits), r.luma);
    ChannelInverts(bk.dcC, bk.acC, Channel(tabs.dcChroma, tabs.acChroma, tabs.inv, qC, r.bits), r.chroma);
  }

  /** The same for any reader that inverts the coders. */
  lemma PaintsTile(c: Config, r: GoodReader, g: Program, cds: Coders, us: seq<Cell>, vb: Palette, pix: seq<nat>, n: nat)
    requires cds.Inverted(r) && Executes(g, c, r) && r.bits == Packed(TileBody(cds, us, vb))
    requires c.w > 0 && n < |pix| && CanTile(cds, c.mode, us, AtStart(vb))
    ensures var res := Run(g, 8 * |TileBody(cds, us, vb)|, Initial(vb, pix));
            && res.1 == |us| + 1 && |res.0.pix| == |pix| && res.0.pix[n] == BlocksPixel(c, cds, us, vb, pix, n)
            && (FillsTile(c, us) ==>
                  (InTile(c, n) ==> Locate(c, n).cell < |us|) && res.0.pix[n] == TilePixel(c, cds, us, vb, pix, n))
  {
    var bits, m := EncodeTile(cds, us, AtStart(vb)), Initial(vb, pix);
    PackedPack(bits);
    PackedLength(bits);
    var colours := TileColours(cds, c.mode, us, AtStart(vb));
    var ms := TileRoundTrip(c, r, g, cds, us, 8 * |TileBody(cds, us, vb)|, m);
    StrokesDraw(c, ms, Places(c, us, (0, 0)), colours, n);
    if FillsTile(c, us) {
      SweepFromOrigin(c, ms, colours, n);
    }
  }

  lemma PackedLength(bits: seq<bool>)
    ensures 8 * |Pack(bits)| >= |bits| && |Pack(bits)| % 4 == 0
  {
    EnoughWords(bits);
  }

  lemma {:induction false} EnoughWords(bits: seq<bool>)
    ensures 32 * |ToWords(bits)| >= |bits|
    decreases |bits|
  {
    if |bits| > 0 {
      EnoughWords(LaterBits(bits));
    }
  }

  /** A packet made of a header and a packed tile has that tile as its body. */
  lemma PacketBody(header: seq<byte>, bits: seq<bool>)
    requires |header| == 12
    ensures BodyOf(header + Pack(bits)) == Pack(bits)
  {
    PackedLength(bits);
  }

  // ---- headers ------------------------------------------------------------

  /** What a packet header says. */
  datatype Header = Header(subtype: byte, x: nat, y: nat, width: nat, height: nat, lumaQ: nat, chromaQ: nat) {
    predicate Fits() {
      x < 0x1000 && y < 0x1000 && width < 0x1_0000 && height < 0x1_0000 && lumaQ < 16 && chromaQ < 16
    }
  }

  /** The 12 bytes of a header: subtype, origin as two 12-bit numbers, height, width, flags and reserved bytes, and
  the two quantiser nibbles. */
  function HeaderBytes(h: Header, flags: seq<byte>): (b: seq<byte>)
    requires h.Fits() && |flags| == 3
    ensures |b| == 12
  {
    [h.subtype] + Be(h.x * 0x1000 + h.y, 3) + Be(h.height, 2) + Be(h.width, 2) + flags + [16 * h.lumaQ + h.chromaQ]
  }

  /** The tile of a header, on a screen. */
  function TileOf(h: Header, w: nat, height: nat): Config {
    Config(h.subtype % 2, h.x, h.y, h.width, h.height, w, height)
  }

  /** A header is read as it was written: tile, mode and quantisers. */
  lemma HeaderRoundTrip(h: Header, flags: seq<byte>, body: seq<byte>, w: nat, height: nat)
    requires h.Fits() && |flags| == 3
    ensures var payload := HeaderBytes(h, flags) + body;
            && HeaderConfig(payload, w, height) == TileOf(h, w, height)
            && payload[11] / 16 == h.lumaQ && payload[11] % 16 == h.chromaQ
  {
    var payload := HeaderBytes(h, flags) + body;
    ThreeBytes(h.x, h.y);
    ShortOf(h.height);
    ShortOf(h.width);
    assert payload[1] == Be(h.x * 0x1000 + h.y, 3)[0] && payload[2] == Be(h.x * 0x1000 + h.y, 3)[1];
    assert payload[3] == Be(h.x * 0x1000 + h.y, 3)[2];
    assert payload[4] == Be(h.height, 2)[0] && payload[5] == Be(h.height, 2)[1];
    assert payload[6] == Be(h.width, 2)[0] && payload[7] == Be(h.width, 2)[1];
  }

  lemma ShortOf(v: nat)
    requires v < 0x1_0000
    ensures Short(Be(v, 2)[0], Be(v, 2)[1]) == v
  {
    assert Be(v, 2) == Be(v / 256, 1) + [v % 256];
    assert Be(v / 256, 1) == Be(v / 256 / 256, 0) + [v / 256 % 256];
  }

  lemma ThreeBytes(x: nat, y: nat)
    requires x < 0x1000 && y < 0x1000
    ensures var b := Be(x * 0x1000 + y, 3);
            b[0] as int * 16 + b[1] as int / 16 == x && b[1] as int % 16 * 0x100 + b[2] as int == y
  {
    var v := x * 0x1000 + y;
    assert Be(v, 3) == Be(v / 256, 2) + [v % 256];
    assert Be(v / 256, 2) == Be(v / 256 / 256, 1) + [v / 256 % 256];
    assert Be(v / 256 / 256, 1) == Be(v / 256 / 256 / 256, 0) + [v / 256 / 256 % 256];
  }

  // ---- whole packets ------------------------------------------------------

  /** The coders of a decoder's tables with the quantisers a header names. */
  ghost function CodersFor(bk: Books, tabs: Tables, quantY: Quantisers, quantC: Quantisers, h: Header): Coders
    requires bk.Good()
  {
    CodersOf(bk, tabs.inv, quantY[QuantIndex(h.lumaQ)], quantC[QuantIndex(h.chromaQ)])
  }

  /** A header and coded blocks, decoded by the real decoder into the real framebuffer: every pixel shows the last block
  over it, or is as it was; and where the blocks fill the tile, every pixel of the tile shows its own cell. */
  method DecodeTilePacket(d: AvocentDecoder, fb: Framebuffer, payload: seq<byte>, ghost bk: Books,
                          ghost cds: Coders, ghost h: Header, ghost flags: seq<byte>, ghost us: seq<Cell>)
    requires fb.Valid() && fb.W > 0 && bk.Good() && bk.Behind(d.tabs) && h.Fits() && |flags| == 3
    requires cds == CodersFor(bk, d.tabs, d.quantY, d.quantC, h) && CanTile(cds, h.subtype % 2, us, AtStart(d.vb))
    requires payload == HeaderBytes(h, flags) + TileBody(cds, us, d.vb)
    modifies d, d.rd, fb.Pixels, fb`Dirty
    ensures Displays(TileOf(h, fb.W, fb.H), cds, us, old(d.vb), old(fb.Pixels[..]), fb.Pixels[..])
  {
    ghost var c, pix, vb := TileOf(h, fb.W, fb.H), fb.Pixels[..], d.vb;
    PacketLayout(h, flags, cds, us, vb, fb.W, fb.H);
    var n := d.DecodePacket(fb, payload);
    TileShown(bk, d.tabs, d.qY, d.qC, c, cds, us, vb, pix, d.Abs(fb.Pixels[..]), d.lastOpCount);
  }

  /** The screen after some blocks. */
  ghost predicate Displays(c: Config, cds: Coders, us: seq<Cell>, vb: Palette, before: seq<nat>, after: seq<nat>)
    requires c.w > 0
  {
    && |after| == |before|
    && (forall n :: 0 <= n < |before| ==> after[n] == BlocksPixel(c, cds, us, vb, before, n))
    && (FillsTile(c, us) ==> forall n :: 0 <= n < |before| ==> after[n] == TilePixel(c, cds, us, vb, before, n))
  }

  /** What a run over the body of some blocks leaves on the screen. */
  lemma TileShown(bk: Books, tabs: Tables, qY: Dequant, qC: Dequant, c: Config, cds: Coders, us: seq<Cell>, vb: Palette,
                  pix: seq<nat>, m: Machine, count: nat)
    requires bk.Good() && bk.Behind(tabs) && cds == CodersOf(bk, tabs.inv, qY, qC) && c.w > 0 && CanTile(cds, c.mode, us, AtStart(vb))
    requires (m, count)
          == Run(ProgramOf(c, ReaderOf(tabs, qY, qC, Packed(TileBody(cds, us, vb)))), 8 * |TileBody(cds, us, vb)|, Initial(vb, pix))
    ensures Displays(c, cds, us, vb, pix, m.pix)
  {
    forall n | 0 <= n < |pix|
      ensures |m.pix| == |pix| && m.pix[n] == BlocksPixel(c, cds, us, vb, pix, n)
      ensures FillsTile(c, us) ==> m.pix[n] == TilePixel(c, cds, us, vb, pix, n)
    {
      PacketRoundTrip(bk, tabs, qY, qC, c, us, vb, pix, n);
    }
  }

  /** A packet of a header and coded blocks: what the decoder finds in it. */
  lemma PacketLayout(h: Header, flags: seq<byte>, cds: Coders, us: seq<Cell>, vb: Palette, w: nat, height: nat)
    requires h.Fits() && |flags| == 3
    ensures var payload := HeaderBytes(h, flags) + TileBody(cds, us, vb);
            && |payload| >= 16 && BodyOf(payload) == TileBody(cds, us, vb) && HeaderConfig(payload, w, height) == TileOf(h, w, height)
            && payload[11] / 16 == h.lumaQ && payload[11] % 16 == h.chromaQ
  {
    var bits := EncodeTile(cds, us, AtStart(vb));
    PackedLength(bits);
    PacketBody(HeaderBytes(h, flags), bits);
    HeaderRoundTrip(h, flags, TileBody(cds, us, vb), w, height);
  }
}
