/** The packet-134 decoder: an opcode loop over the bit buffer that paints blocks into the framebuffer. */
module AvocentDecoders {
  import opened Bits
  import opened BitBuffer
  import opened ZigZagOrder
  import opened Coefficients
  import opened InverseDct
  import opened Entropy
  import opened TileMachine
  import opened Framebuffers

  /** The four tables and the scan order the decoder uses. */
  datatype Tables = Tables(dcLuma: DcTable, acLuma: AcTable, dcChroma: DcTable, acChroma: AcTable, inv: ScanOrder)

  /** Dequantisation with each of the eight quantiser tables of a channel, the finest first. */
  type Quantisers = s: seq<Dequant> | |s| == 8 ghost witness NoQuantisers()

  function NoQuantisers(): (s: seq<Dequant>)
    ensures |s| == 8
  {
    var zero: Dequant := (i: nat, c: int) => 0;
    [zero, zero, zero, zero, zero, zero, zero, zero]
  }

  class AvocentDecoder {
    const rd: BitReader
    const tabs: Tables
    const quantY: Quantisers
    const quantC: Quantisers
    var vb: Palette
    var jb: nat
    var kb: nat
    var tileX: int
    var tileY: int
    var tileW: nat
    var tileH: nat
    var q: nat
    var mode: nat
    var dcY: int
    var dcCb: int
    var dcCr: int
    var qY: Dequant
    var qC: Dequant
    var lastOpCount: nat

    constructor (tabs: Tables, quantY: Quantisers, quantC: Quantisers)
      ensures fresh(rd) && this.tabs == tabs && this.quantY == quantY && this.quantC == quantC
      ensures vb == Palette([0, 0, 0, 0], [0, 0, 0, 0], 0) && mode == 0 && q == 8
      ensures qY == quantY[7] && qC == quantC[7]
    {
      rd := new BitReader();
      this.tabs, this.quantY, this.quantC := tabs, quantY, quantC;
      vb, q, mode := Palette([0, 0, 0, 0], [0, 0, 0, 0], 0), 8, 0;
      jb, kb, tileX, tileY, tileW, tileH, lastOpCount := 0, 0, 0, 0, 0, 0, 0;
      dcY, dcCb, dcCr := 0, 0, 0;
      qY, qC := quantY[7], quantC[7];
    }

    /** `r` finds in the stream what the decoder makes of it. */
    ghost predicate Reads(r: GoodReader)
      reads `qY, `qC, rd`bits
    {
      ReadsAs(r, tabs, qY, qC, rd.bits)
    }

    /** The mode, tile and screen are those of `c`. */
    ghost predicate Stands(fb: Framebuffer, c: Config)
      reads `mode, `q, `tileX, `tileY, `tileW, `tileH, fb`Pixels, fb`W, fb`H
    {
      mode <= 1 && q == Q(mode) && fb.Valid() && c == Cfg(fb)
    }

    ghost function Abs(pix: seq<nat>): Machine
      reads rd`consumedB, `jb, `kb, `vb, `dcY, `dcCb, `dcCr
    {
      Machine(rd.consumedB, jb, kb, vb, dcY, dcCb, dcCr, pix)
    }

    ghost function Cfg(fb: Framebuffer): Config
      reads `mode, `tileX, `tileY, `tileW, `tileH, fb`W, fb`H
    {
      Config(mode, tileX, tileY, tileW, tileH, fb.W, fb.H)
    }

    /** The luma planes of an MCU: the loop over `yBlocks`. */
    method DecodeLuma(n: nat, ghost r: GoodReader) returns (ys: seq<Block>)
      requires rd.Buffered() && Reads(r)
      modifies rd`nb, rd`mb, rd`ob, rd`pos, rd`consumedB, rd`loaded, `dcY
      ensures rd.Buffered()
      ensures (ys, dcY, rd.consumedB) == LumaPlanes(r, old(rd.consumedB), old(dcY), n)
    {
      ys := [];
      ghost var goal := LumaPlanes(r, rd.consumedB, dcY, n);
      assert ys + goal.0 == goal.0;
      var i := 0;
      while i < n
        invariant 0 <= i <= n && |ys| == i
        invariant rd.Buffered() && Reads(r)
        invariant LumaFrom(goal, ys, LumaPlanes(r, rd.consumedB, dcY, n - i))
      {
        LumaUnfold(r, goal, ys, rd.consumedB, dcY, n - i);
        var y;
        dcY, y := DecodeDCTBlock(rd, tabs.dcLuma, tabs.acLuma, tabs.inv, qY, dcY, r.luma);
        ys := ys + [y];
        i := i + 1;
      }
      LumaDone(r, goal, ys, rd.consumedB, dcY);
    }

    /** The planes of one DCT tile. */
    method DecodeMcu(n: nat, ghost r: GoodReader) returns (ys: seq<Block>, cb: Block, cr: Block)
      requires rd.Buffered() && Reads(r)
      modifies rd`nb, rd`mb, rd`ob, rd`pos, rd`consumedB, rd`loaded, `dcY, `dcCb, `dcCr
      ensures rd.Buffered()
      ensures Mcu(ys, cb, cr, dcY, dcCb, dcCr, rd.consumedB)
           == McuAt(r, n, old(rd.consumedB), old(dcY), old(dcCb), old(dcCr))
    {
      ys := DecodeLuma(n, r);
      dcCb, cb := DecodeDCTBlock(rd, tabs.dcChroma, tabs.acChroma, tabs.inv, qC, dcCb, r.chroma);
      dcCr, cr := DecodeDCTBlock(rd, tabs.dcChroma, tabs.acChroma, tabs.inv, qC, dcCr, r.chroma);
    }

    /** The paint half of `dispatchDCT`. */
    method PaintDCT(fb: Framebuffer, ys: seq<Block>, cb: Block, cr: Block)
      requires fb.Valid() && mode <= 1 && |ys| == LumaCount(mode)
      modifies fb.Pixels, fb`Dirty
      ensures fb.Pixels[..] == Paint(fb.W, old(fb.Pixels[..]), Origin(mode, tileX, jb), Origin(mode, tileY, kb), Q(mode),
                                     McuColour(ys, cb, cr))
    {
      var x0, y0 := Origin(mode, tileX, jb), Origin(mode, tileY, kb);
      PaintMcu(fb, x0, y0, Q(mode), ys, cb, cr);
      fb.Dirty := true;
    }

    /** Decodes and paints one DCT tile. */
    method DispatchDCT(fb: Framebuffer, ghost c: Config, ghost r: GoodReader)
      requires rd.Buffered() && Reads(r) && Stands(fb, c)
      modifies rd`nb, rd`mb, rd`ob, rd`pos, rd`consumedB, rd`loaded, `dcY, `dcCb, `dcCr, fb.Pixels, fb`Dirty
      ensures rd.Buffered()
      ensures Abs(fb.Pixels[..]) == DctBlock(c, r, old(Abs(fb.Pixels[..])))
    {
      ghost var m := Abs(fb.Pixels[..]);
      var ys, cb, cr := DecodeMcu(LumaCount(mode), r);
      ghost var u := Mcu(ys, cb, cr, dcY, dcCb, dcCr, rd.consumedB);
      assert fb.Pixels[..] == m.pix;
      PaintDCT(fb, ys, cb, cr);
      DctBlockIs(c, r, m, u, fb.Pixels[..]);
    }

    /** The 64 selectors of a palette block. */
    method ReadSamples(ghost r: GoodReader) returns (samples: Samples)
      requires rd.Buffered() && r.bits == rd.bits
      modifies rd`nb, rd`mb, rd`ob, rd`pos, rd`consumedB, rd`loaded
      ensures rd.Buffered()
      ensures rd.consumedB == old(rd.consumedB) + 64 * vb.entropy
      ensures samples == AllSamples(r, vb, old(rd.consumedB))
    {
      ghost var p, all := rd.consumedB, AllSamples(r, vb, rd.consumedB);
      var s := [];
      var i := 0;
      while i < 64
        invariant 0 <= i <= 64 && |s| == i && s == all[..i]
        invariant rd.Buffered() && rd.consumedB == p + i * vb.entropy
      {
        assert (i + 1) * vb.entropy == i * vb.entropy + vb.entropy;
        var v := ReadSample(p, i, r);
        s := s + [v];
        i := i + 1;
      }
      samples := s;
    }

    /** The `i`-th selector of a block whose selectors start at bit `p`. */
    method ReadSample(ghost p: nat, ghost i: nat, ghost r: GoodReader) returns (colour: nat)
      requires rd.Buffered() && r.bits == rd.bits && rd.consumedB == p + i * vb.entropy
      modifies rd`nb, rd`mb, rd`ob, rd`pos, rd`consumedB, rd`loaded
      ensures rd.Buffered() && rd.consumedB == old(rd.consumedB) + vb.entropy
      ensures colour == Sample(r, vb, p, i)
    {
      if vb.entropy == 0 {
        assert Window(rd.bits, rd.consumedB, 0) == [];
        return vb.colors[vb.index[0]];
      }
      var v := rd.PeekBits(vb.entropy);
      if v >= 4 {
        v := 3;
      }
      rd.Consume(vb.entropy);
      return vb.colors[vb.index[v]];
    }

    /** Paints a palette tile. */
    method PaintPaletteBlock(fb: Framebuffer, ghost c: Config, ghost r: GoodReader)
      requires rd.Buffered() && r.bits == rd.bits && Stands(fb, c)
      modifies rd`nb, rd`mb, rd`ob, rd`pos, rd`consumedB, rd`loaded, fb.Pixels, fb`Dirty
      ensures rd.Buffered()
      ensures Abs(fb.Pixels[..]) == PaletteBlock(c, r, old(Abs(fb.Pixels[..])))
    {
      ghost var m := Abs(fb.Pixels[..]);
      var samples := ReadSamples(r);
      assert fb.Pixels[..] == m.pix;
      PaintPalette(fb, samples);
      PaletteBlockIs(c, r, m, samples, fb.Pixels[..]);
    }

    /** The paint half of `paintPaletteBlock`. */
    method PaintPalette(fb: Framebuffer, samples: Samples)
      requires fb.Valid() && mode <= 1
      modifies fb.Pixels, fb`Dirty
      ensures fb.Pixels[..] == Paint(fb.W, old(fb.Pixels[..]), Origin(mode, tileX, jb), Origin(mode, tileY, kb), Q(mode),
                                     PaletteColour(mode, samples))
    {
      var x0, y0 := Origin(mode, tileX, jb), Origin(mode, tileY, kb);
      if mode == 1 {
        PaintQuads(fb, x0, y0, samples);
      } else {
        PaintSamples(fb, x0, y0, samples);
      }
      fb.Dirty := true;
    }

    /** The slot loop of `opPaletteRefresh`. */
    method RefreshPalette(nSlots: nat, entropy: nat, ghost r: GoodReader)
      requires rd.Buffered() && r.bits == rd.bits && nSlots <= 4 && entropy <= 2
      modifies rd`nb, rd`mb, rd`ob, rd`pos, rd`consumedB, rd`loaded, `vb
      ensures rd.Buffered()
      ensures (rd.consumedB, vb) == Refresh(r, old(rd.consumedB), old(vb).(entropy := entropy), 0, nSlots)
    {
      vb := vb.(entropy := entropy);
      ghost var goal := Refresh(r, rd.consumedB, vb, 0, nSlots);
      var i := 0;
      while i < nSlots
        invariant 0 <= i <= nSlots
        invariant rd.Buffered() && r.bits == rd.bits
        invariant goal == Refresh(r, rd.consumedB, vb, i, nSlots)
      {
        RefreshSlot(i, r);
        i := i + 1;
      }
    }

    method RefreshSlot(i: nat, ghost r: GoodReader)
      requires rd.Buffered() && r.bits == rd.bits && i < 4
      modifies rd`nb, rd`mb, rd`ob, rd`pos, rd`consumedB, rd`loaded, `vb
      ensures rd.Buffered()
      ensures (rd.consumedB, vb) == SlotAt(r, old(rd.consumedB), old(vb), i)
    {
      var idx := rd.PeekBits(3);
      vb := vb.(index := vb.index[i := idx % 4]);
      var bit := rd.PeekBits(1);
      FirstBit(rd.bits, rd.consumedB);
      if bit == 0 {
        rd.Consume(3);
        return;
      }
      var color := rd.PeekField(3, 24);
      vb := vb.(colors := vb.colors[vb.index[i] := 0xFF000000 + color]);
      rd.Consume(27);
    }

    // ---- opcodes ------------------------------------------------------------

    /** Takes the opcode, and the position that follows it if it has one. */
    method TakeHead(positioned: bool, ghost pix: seq<nat>, ghost r: GoodReader)
      requires rd.Buffered() && r.bits == rd.bits
      modifies rd`nb, rd`mb, rd`ob, rd`pos, rd`consumedB, rd`loaded, `jb, `kb
      ensures rd.Buffered()
      ensures Abs(pix) == Head(r, positioned, old(Abs(pix)))
    {
      if positioned {
        jb := rd.PeekField(4, 8);
        kb := rd.PeekField(12, 8);
        rd.Consume(20);
      } else {
        rd.Consume(4);
      }
    }

    /** The palette refresh opcodes: `nSlots` slots, then a block of `entropy` bits a selector. */
    method OpPaletteRefresh(fb: Framebuffer, nSlots: nat, entropy: nat, updatePos: bool, ghost c: Config, ghost r: GoodReader)
      requires rd.Buffered() && r.bits == rd.bits && Stands(fb, c) && 1 <= nSlots <= 4 && entropy == EntropyOf(nSlots)
      modifies rd`nb, rd`mb, rd`ob, rd`pos, rd`consumedB, rd`loaded, `jb, `kb, `vb, fb.Pixels, fb`Dirty
      ensures rd.Buffered()
      ensures Abs(fb.Pixels[..]) == RefreshBlock(c, r, nSlots, Head(r, updatePos, old(Abs(fb.Pixels[..]))))
    {
      ghost var pix := fb.Pixels[..];
      TakeHead(updatePos, pix, r);
      ghost var m := Abs(pix);
      RefreshPalette(nSlots, entropy, r);
      assert fb.Pixels[..] == pix;
      assert Abs(pix) == m.(p := rd.consumedB, vb := vb);
      PaintPaletteBlock(fb, c, r);
    }

    /** A DCT block, after its header. */
    method TakeDCT(fb: Framebuffer, updatePos: bool, ghost c: Config, ghost r: GoodReader)
      requires rd.Buffered() && Reads(r) && Stands(fb, c)
      modifies rd`nb, rd`mb, rd`ob, rd`pos, rd`consumedB, rd`loaded, `jb, `kb, `dcY, `dcCb, `dcCr, fb.Pixels, fb`Dirty
      ensures rd.Buffered()
      ensures Abs(fb.Pixels[..]) == DctBlock(c, r, Head(r, updatePos, old(Abs(fb.Pixels[..]))))
    {
      ghost var pix := fb.Pixels[..];
      ghost var qy, qc, bits := qY, qC, rd.bits;
      TakeHead(updatePos, pix, r);
      assert fb.Pixels[..] == pix && Cfg(fb) == c && qY == qy && qC == qc && rd.bits == bits;
      assert Reads(r);
      DispatchDCT(fb, c, r);
    }

    /** Opcodes 0 and 8: a DCT block. */
    method OpDCT(fb: Framebuffer, op: nat, ghost g: Program, ghost c: Config, ghost r: GoodReader)
      requires rd.Buffered() && Reads(r) && Stands(fb, c) && Operates(g, c, r) && (op == 0 || op == 8)
      modifies rd`nb, rd`mb, rd`ob, rd`pos, rd`consumedB, rd`loaded, `jb, `kb, `dcY, `dcCb, `dcCr, fb.Pixels, fb`Dirty
      ensures rd.Buffered()
      ensures Abs(fb.Pixels[..]) == g.Done(op, old(Abs(fb.Pixels[..])))
    {
      OperatesDct(g, c, r, op, Abs(fb.Pixels[..]));
      TakeDCT(fb, op == 8, c, r);
    }

    /** Opcodes 4 and 12: a block from the palette as it is. */
    method OpPalette(fb: Framebuffer, op: nat, ghost g: Program, ghost c: Config, ghost r: GoodReader)
      requires rd.Buffered() && r.bits == rd.bits && Stands(fb, c) && Operates(g, c, r) && (op == 4 || op == 12)
      modifies rd`nb, rd`mb, rd`ob, rd`pos, rd`consumedB, rd`loaded, `jb, `kb, fb.Pixels, fb`Dirty
      ensures rd.Buffered()
      ensures Abs(fb.Pixels[..]) == g.Done(op, old(Abs(fb.Pixels[..])))
    {
      ghost var pix := fb.Pixels[..];
      OperatesPalette(g, c, r, op, Abs(pix));
      TakeHead(op == 12, pix, r);
      assert fb.Pixels[..] == pix;
      PaintPaletteBlock(fb, c, r);
    }

    /** Opcodes 5 to 7 and 13 to 15: one, two or four slots, with 0, 1 or 2 bits a selector. */
    method OpRefresh(fb: Framebuffer, op: nat, ghost g: Program, ghost c: Config, ghost r: GoodReader)
      requires rd.Buffered() && r.bits == rd.bits && Stands(fb, c) && Operates(g, c, r) && (5 <= op <= 7 || 13 <= op <= 15)
      modifies rd`nb, rd`mb, rd`ob, rd`pos, rd`consumedB, rd`loaded, `jb, `kb, `vb, fb.Pixels, fb`Dirty
      ensures rd.Buffered()
      ensures Abs(fb.Pixels[..]) == g.Done(op, old(Abs(fb.Pixels[..])))
    {
      OperatesRefresh(g, c, r, op, Abs(fb.Pixels[..]));
      var nSlots := Slots(Kind(op));
      OpPaletteRefresh(fb, nSlots, EntropyOf(nSlots), op >= 8, c, r);
    }

    /** One opcode that does not halt the frame. */
    method DecodeOp(fb: Framebuffer, op: nat, ghost g: Program, ghost c: Config, ghost r: GoodReader)
      requires rd.Buffered() && Reads(r) && Stands(fb, c) && Operates(g, c, r) && op < 16 && !Halts(op)
      modifies rd`nb, rd`mb, rd`ob, rd`pos, rd`consumedB, rd`loaded, `jb, `kb, `vb, `dcY, `dcCb, `dcCr, fb.Pixels, fb`Dirty
      ensures rd.Buffered()
      ensures Abs(fb.Pixels[..]) == g.Done(op, old(Abs(fb.Pixels[..])))
    {
      if op == 0 || op == 8 {
        OpDCT(fb, op, g, c, r);
      } else if op == 4 || op == 12 {
        OpPalette(fb, op, g, c, r);
      } else {
        OpRefresh(fb, op, g, c, r);
      }
    }

    /** Moves on to the next block position. */
    method AdvancePos(fbW: nat, fbH: nat)
      requires q == Q(mode)
      modifies `jb, `kb
      ensures var c := Config(mode, tileX, tileY, tileW, tileH, fbW, fbH);
              (jb, kb) == Advance(Cols(c), RowsOf(c), (old(jb), old(kb)))
    {
      var wCols := tileW / q;
      var hRows := tileH / q;
      if wCols <= 0 {
        wCols := fbW / q;
      }
      if hRows <= 0 {
        hRows := fbH / q;
      }
      jb := jb + 1;
      if jb >= wCols {
        jb := 0;
        kb := kb + 1;
        if kb >= hRows {
          kb := 0;
        }
      }
    }

    /** One turn of the opcode loop. */
    method StepOp(fb: Framebuffer, op: nat, ghost g: Program, ghost c: Config, ghost r: GoodReader)
      requires rd.Buffered() && Reads(r) && Stands(fb, c) && Executes(g, c, r)
      requires op == g.Opcode(rd.consumedB) && op < 16 && !Halts(op)
      modifies rd`nb, rd`mb, rd`ob, rd`pos, rd`consumedB, rd`loaded, `jb, `kb, `vb, `dcY, `dcCb, `dcCr, fb.Pixels, fb`Dirty
      ensures rd.Buffered() && Stands(fb, c)
      ensures Abs(fb.Pixels[..]) == g.Next(old(Abs(fb.Pixels[..])))
    {
      ghost var m := Abs(fb.Pixels[..]);
      DecodeOp(fb, op, g, c, r);
      ghost var b := Abs(fb.Pixels[..]);
      AdvancePos(fb.W, fb.H);
      assert fb.Pixels[..] == b.pix;
      assert g.Next(m) == Moved(c, b);
    }

    /** The same, between two opcodes. */
    method CarryOut(fb: Framebuffer, op: nat, ghost g: Program, ghost c: Config, ghost r: GoodReader)
      requires rd.Buffered() && Reads(r) && Stands(fb, c) && Executes(g, c, r)
      requires op == g.Opcode(rd.consumedB) && op < 16 && !Halts(op)
      modifies rd`nb, rd`mb, rd`ob, rd`pos, rd`consumedB, rd`loaded, `jb, `kb, `vb, `dcY, `dcCb, `dcCr, fb.Pixels, fb`Dirty
      ensures rd.Buffered() && Reads(r) && Stands(fb, c)
      ensures Abs(fb.Pixels[..]) == g.Next(old(Abs(fb.Pixels[..])))
    {
      ghost var qy, qc, bits := qY, qC, rd.bits;
      StepOp(fb, op, g, c, r);
      assert qY == qy && qC == qc && rd.bits == bits;
    }

    /** Starts on a new body: everything is reset except the palette. */
    method Start(payload: seq<byte>)
      modifies rd, `jb, `kb, `dcY, `dcCb, `dcCr, `lastOpCount
      ensures rd.Buffered() && rd.consumedB == 0 && rd.src == payload && rd.bits == Packed(payload)
      ensures jb == kb == dcY == dcCb == dcCr == lastOpCount == 0
    {
      rd.Open(payload);
      jb, kb, dcY, dcCb, dcCr, lastOpCount := 0, 0, 0, 0, 0, 0;
    }

    /** The opcode loop: it is the pure interpreter run over the packed bits of the body, and looks at no more than two
    opcodes a byte. */
    method DecodeBody(fb: Framebuffer, payload: seq<byte>) returns (n: int)
      requires fb.Valid() && mode <= 1 && q == Q(mode)
      modifies rd, `jb, `kb, `vb, `dcY, `dcCb, `dcCr, `lastOpCount, fb.Pixels, fb`Dirty
      ensures (Abs(fb.Pixels[..]), lastOpCount)
           == Run(ProgramOf(Cfg(fb), ReaderOf(tabs, qY, qC, Packed(payload))), 8 * |payload|, Initial(old(vb), old(fb.Pixels[..])))
      ensures lastOpCount <= 2 * |payload|
      ensures n == rd.pos && 0 <= n <= |payload| && (rd.consumedB >= 8 * |payload| ==> n == 4 * (|payload| / 4))
    {
      ghost var m, c, r := Initial(vb, fb.Pixels[..]), Cfg(fb), ReaderOf(tabs, qY, qC, Packed(payload));
      ghost var g := ProgramOf(c, r);
      RunBody(fb, payload, g, c, r);
      assert Cfg(fb) == c;
      OpcodesPerByte(g, |payload|, m);
      rd.WordsTaken();
      n := rd.pos;
    }

    method RunBody(fb: Framebuffer, payload: seq<byte>, ghost g: Program, ghost c: Config, ghost r: GoodReader)
      requires Stands(fb, c) && ReadsAs(r, tabs, qY, qC, Packed(payload)) && Executes(g, c, r)
      modifies rd, `jb, `kb, `vb, `dcY, `dcCb, `dcCr, `lastOpCount, fb.Pixels, fb`Dirty
      ensures (Abs(fb.Pixels[..]), lastOpCount) == Run(g, 8 * |payload|, Initial(old(vb), old(fb.Pixels[..])))
      ensures rd.Buffered() && rd.src == payload
    {
      ghost var pix, palette := fb.Pixels[..], vb;
      Start(payload);
      assert fb.Pixels[..] == pix;
      assert vb == palette;
      Opcodes(fb, g, c, r);
    }

    method Opcodes(fb: Framebuffer, ghost g: Program, ghost c: Config, ghost r: GoodReader)
      requires rd.Buffered() && Reads(r) && Stands(fb, c) && Executes(g, c, r) && lastOpCount == 0
      modifies rd`nb, rd`mb, rd`ob, rd`pos, rd`consumedB, rd`loaded, `jb, `kb, `vb, `dcY, `dcCb, `dcCr, `lastOpCount, fb.Pixels, fb`Dirty
      ensures rd.Buffered()
      ensures (Abs(fb.Pixels[..]), lastOpCount) == Run(g, 8 * |rd.src|, old(Abs(fb.Pixels[..])))
    {
      ghost var limit := 8 * |rd.src|;
      ghost var goal := Run(g, limit, Abs(fb.Pixels[..]));
      var halted := false;
      while !halted && rd.consumedB < 8 * |rd.src|
        invariant rd.Buffered() && Reads(r) && Stands(fb, c)
        invariant LeftToRun(g, limit, halted, Abs(fb.Pixels[..]), goal, lastOpCount)
        decreases !halted, limit - rd.consumedB
      {
        halted := Turn(fb, g, c, r, limit, goal);
      }
      RunOver(g, limit, halted, Abs(fb.Pixels[..]), goal, lastOpCount);
    }

    /** One turn of the loop, on the way to `goal`. */
    method Turn(fb: Framebuffer, ghost g: Program, ghost c: Config, ghost r: GoodReader, ghost limit: nat, ghost goal: (Machine, nat))
      returns (halted: bool)
      requires rd.Buffered() && Reads(r) && Stands(fb, c) && Executes(g, c, r) && rd.consumedB < limit
      requires LeftToRun(g, limit, false, Abs(fb.Pixels[..]), goal, lastOpCount)
      modifies rd`nb, rd`mb, rd`ob, rd`pos, rd`consumedB, rd`loaded, `jb, `kb, `vb, `dcY, `dcCb, `dcCr, `lastOpCount, fb.Pixels, fb`Dirty
      ensures rd.Buffered() && Reads(r) && Stands(fb, c) && (halted || rd.consumedB > old(rd.consumedB))
      ensures LeftToRun(g, limit, halted, Abs(fb.Pixels[..]), goal, lastOpCount)
    {
      ghost var m, n := Abs(fb.Pixels[..]), lastOpCount;
      assert m.p == rd.consumedB;
      halted := NextOpcode(fb, g, c, r);
      ghost var m' := Abs(fb.Pixels[..]);
      assert m'.p == rd.consumedB;
      RunTurn(g, limit, m, goal, n, halted, m');
    }

    /** Looks at the next opcode, and carries it out unless it halts the frame. */
    method NextOpcode(fb: Framebuffer, ghost g: Program, ghost c: Config, ghost r: GoodReader) returns (halted: bool)
      requires rd.Buffered() && Reads(r) && Stands(fb, c) && Executes(g, c, r)
      modifies rd`nb, rd`mb, rd`ob, rd`pos, rd`consumedB, rd`loaded, `jb, `kb, `vb, `dcY, `dcCb, `dcCr, `lastOpCount, fb.Pixels, fb`Dirty
      ensures rd.Buffered() && Reads(r) && Stands(fb, c) && lastOpCount == old(lastOpCount) + 1
      ensures halted == Halts(g.Opcode(old(rd.consumedB)))
      ensures Abs(fb.Pixels[..]) == if halted then old(Abs(fb.Pixels[..])) else g.Next(old(Abs(fb.Pixels[..])))
    {
      ghost var pix := fb.Pixels[..];
      var op := PeekOp(r);
      assert op == g.Opcode(rd.consumedB);
      lastOpCount := lastOpCount + 1;
      assert fb.Pixels[..] == pix;
      halted := Halts(op);
      if !halted {
        CarryOut(fb, op, g, c, r);
      }
    }

    /** Peeks at the next opcode. */
    method PeekOp(ghost r: GoodReader) returns (op: nat)
      requires rd.Buffered() && r.bits == rd.bits
      ensures op == OpAt(r, rd.consumedB) && op < 16
    {
      op := rd.PeekBits(4);
      OpBound(rd.bits, rd.consumedB);
    }

    // ---- packets ------------------------------------------------------------

    /** Configures the block size and the quantisers from the packet header. */
    method SetMode(mode: nat, lumaQ: nat, chromaQ: nat)
      modifies `mode, `q, `qY, `qC
      ensures this.mode == mode && q == Q(mode)
      ensures qY == quantY[QuantIndex(lumaQ)] && qC == quantC[QuantIndex(chromaQ)]
      ensures qY == (if lumaQ <= 7 then quantY[7 - lumaQ] else quantY[7]) && qC == (if chromaQ <= 7 then quantC[7 - chromaQ] else quantC[7])
    {
      this.mode := mode;
      if mode == 1 {
        q := 16;
      } else {
        q := 8;
      }
      var yi, ci := 7 - lumaQ, 7 - chromaQ;
      if yi < 0 || yi >= |quantY| {
        yi := 7;
      }
      if ci < 0 || ci >= |quantC| {
        ci := 7;
      }
      qY, qC := quantY[yi], quantC[ci];
    }

    /** One packet: a 12-byte header and a body, of which only whole words count. A packet shorter than its
    header changes nothing; one without a whole word in its body only sets the mode. Otherwise the packet is
    the interpreter's run over its body from the tile the header names. */
    method DecodePacket(fb: Framebuffer, payload: seq<byte>) returns (n: int)
      requires fb.Valid()
      modifies this, rd, fb.Pixels, fb`Dirty
      ensures |payload| < 12 ==> n == -1 && unchanged(this, rd, fb) && fb.Pixels[..] == old(fb.Pixels[..])
      ensures |payload| >= 12 ==>
                && mode == payload[0] % 2
                && qY == quantY[QuantIndex(payload[11] / 16)] && qC == quantC[QuantIndex(payload[11] % 16)]
      ensures 12 <= |payload| < 16 ==> n == 0 && unchanged(rd, fb) && vb == old(vb) && fb.Pixels[..] == old(fb.Pixels[..])
      ensures |payload| >= 16 ==>
                && Cfg(fb) == HeaderConfig(payload, fb.W, fb.H)
                && (Abs(fb.Pixels[..]), lastOpCount)
                   == Run(ProgramOf(Cfg(fb), ReaderOf(tabs, qY, qC, Packed(BodyOf(payload)))), 8 * |BodyOf(payload)|,
                          Initial(old(vb), old(fb.Pixels[..])))
      ensures |payload| >= 16 ==> 0 <= n <= |BodyOf(payload)|
    {
      if |payload| < 12 {
        return -1;
      }
      ghost var pix := fb.Pixels[..];
      ReadHeader(payload);
      var body := BodyOf(payload);
      if |body| == 0 {
        return 0;
      }
      assert fb.Pixels[..] == pix;
      n := DecodeTile(fb, payload, body);
    }

    /** The body of a packet, from the tile its header names. */
    method DecodeTile(fb: Framebuffer, payload: seq<byte>, body: seq<byte>) returns (n: int)
      requires fb.Valid() && |payload| >= 12 && mode == payload[0] % 2 && q == Q(mode)
      modifies rd, `tileX, `tileY, `tileW, `tileH, `jb, `kb, `vb, `dcY, `dcCb, `dcCr, `lastOpCount, fb.Pixels, fb`Dirty
      ensures Cfg(fb) == HeaderConfig(payload, fb.W, fb.H)
      ensures (Abs(fb.Pixels[..]), lastOpCount)
           == Run(ProgramOf(Cfg(fb), ReaderOf(tabs, qY, qC, Packed(body))), 8 * |body|, Initial(old(vb), old(fb.Pixels[..])))
      ensures 0 <= n <= |body|
    {
      ghost var pix := fb.Pixels[..];
      ReadTile(payload);
      assert fb.Pixels[..] == pix;
      ghost var c := Cfg(fb);
      n := DecodeBody(fb, body);
      assert Cfg(fb) == c;
    }

    /** The place and size of the tile. */
    method ReadTile(payload: seq<byte>)
      requires |payload| >= 12
      modifies `tileX, `tileY, `tileW, `tileH
      ensures forall w, h :: Config(payload[0] % 2, tileX, tileY, tileW, tileH, w, h) == HeaderConfig(payload, w, h)
    {
      TileOrigin(payload[1], payload[2], payload[3]);
      var tilePack := payload[1] as int * 0x1_0000 + payload[2] as int * 0x100 + payload[3] as int;
      tileX, tileY := tilePack / 0x1000 % 0x1000, tilePack % 0x1000;
      tileH := Short(payload[4], payload[5]);
      tileW := Short(payload[6], payload[7]);
    }

    /** The mode and quantisers of a packet: its subtype's low bit, and the two halves of byte 11. */
    method ReadHeader(payload: seq<byte>)
      requires |payload| >= 12
      modifies `mode, `q, `qY, `qC
      ensures mode == payload[0] % 2 && q == Q(mode)
      ensures qY == quantY[QuantIndex(payload[11] / 16)] && qC == quantC[QuantIndex(payload[11] % 16)]
    {
      var pLo, qHi := payload[11] % 16, payload[11] / 16;
      SetMode(payload[0] % 2, qHi, pLo);
    }
  }

  /** The quantiser a header nibble names: the tables are stored finest first, and 8 to 15 name the coarsest. */
  function QuantIndex(v: nat): (i: nat)
    ensures i < 8
  {
    if v > 7 then 7 else 7 - v
  }

  function Short(hi: byte, lo: byte): nat {
    hi as int * 0x100 + lo as int
  }

  /** Two 12-bit numbers in three bytes. */
  lemma TileOrigin(a: byte, b: byte, c: byte)
    ensures var pack := a as int * 0x1_0000 + b as int * 0x100 + c as int;
            pack / 0x1000 % 0x1000 == a as int * 16 + b as int / 16 && pack % 0x1000 == b as int % 16 * 0x100 + c as int
  {
  }

  /** The tile of a packet of at least 12 bytes: its mode, its origin as two 12-bit numbers, its width and height. */
  function HeaderConfig(payload: seq<byte>, w: nat, h: nat): Config
    requires |payload| >= 12
  {
    Config(payload[0] % 2,
           payload[1] as int * 16 + payload[2] as int / 16, payload[2] as int % 16 * 0x100 + payload[3] as int,
           Short(payload[6], payload[7]), Short(payload[4], payload[5]), w, h)
  }

  function BodyOf(payload: seq<byte>): (body: seq<byte>)
    requires |payload| >= 12
    ensures |body| % 4 == 0 && |payload| - 15 <= |body| <= |payload| - 12
  {
    var bodyLen := (|payload| - 12) / 4 * 4;
    payload[12..12 + bodyLen]
  }

  /** Where a body starts. */
  function Initial(vb: Palette, pix: seq<nat>): Machine {
    Machine(0, 0, 0, vb, 0, 0, 0, pix)
  }

  lemma OperatesDct(g: Program, c: Config, r: GoodReader, op: nat, m: Machine)
    requires Operates(g, c, r) && (op == 0 || op == 8)
    ensures g.Done(op, m) == DctBlock(c, r, Head(r, op == 8, m))
  {
    assert g.Done(op, m) == Operate(c, r, op, m);
  }

  lemma OperatesPalette(g: Program, c: Config, r: GoodReader, op: nat, m: Machine)
    requires Operates(g, c, r) && (op == 4 || op == 12)
    ensures g.Done(op, m) == PaletteBlock(c, r, Head(r, op == 12, m))
  {
    assert g.Done(op, m) == Operate(c, r, op, m);
  }

  lemma OperatesRefresh(g: Program, c: Config, r: GoodReader, op: nat, m: Machine)
    requires Operates(g, c, r) && (5 <= op <= 7 || 13 <= op <= 15)
    ensures g.Done(op, m) == RefreshBlock(c, r, Slots(Kind(op)), Head(r, op >= 8, m))
  {
    assert g.Done(op, m) == Operate(c, r, op, m);
  }

  /** After `n` opcodes the machine is `m`; running on, or having halted, gives `goal`. */
  ghost predicate LeftToRun(g: Program, limit: nat, halted: bool, m: Machine, goal: (Machine, nat), n: nat) {
    if halted then goal == (m, n)
    else goal.0 == Run(g, limit, m).0 && goal.1 == Run(g, limit, m).1 + n
  }

  lemma RunTurn(g: Program, limit: nat, m: Machine, goal: (Machine, nat), n: nat, halted: bool, m': Machine)
    requires m.p < limit && LeftToRun(g, limit, false, m, goal, n)
    requires halted == Halts(g.Opcode(m.p)) && m' == if halted then m else g.Next(m)
    ensures LeftToRun(g, limit, halted, m', goal, n + 1) && (halted || m'.p > m.p)
  {
  }

  lemma RunOver(g: Program, limit: nat, halted: bool, m: Machine, goal: (Machine, nat), n: nat)
    requires LeftToRun(g, limit, halted, m, goal, n) && (halted || m.p >= limit)
    ensures goal == (m, n)
  {
  }

  lemma OpBound(s: BitStream, p: nat)
    ensures Val(Window(s, p, 4)) < 16
  {
    ValBound(Window(s, p, 4));
    assert Pow2(4) == 16;
  }

  /** `r` finds in a stream what a decoder with these tables and quantisers makes of it. */
  ghost predicate ReadsAs(r: GoodReader, tabs: Tables, qY: Dequant, qC: Dequant, s: BitStream) {
    && r.bits == s
    && Decodes(r.luma, Channel(tabs.dcLuma, tabs.acLuma, tabs.inv, qY, s))
    && Decodes(r.chroma, Channel(tabs.dcChroma, tabs.acChroma, tabs.inv, qC, s))
  }

  /** What a decoder with these tables and quantisers reads from a stream. */
  ghost function ReaderOf(tabs: Tables, qY: Dequant, qC: Dequant, s: BitStream): (r: GoodReader)
    ensures ReadsAs(r, tabs, qY, qC, s)
  {
    var luma, chroma := Channel(tabs.dcLuma, tabs.acLuma, tabs.inv, qY, s), Channel(tabs.dcChroma, tabs.acChroma, tabs.inv, qC, s);
    Reader(s, (p: nat, dc: int) => DecodePlane(luma, p, dc), (p: nat, dc: int) => DecodePlane(chroma, p, dc))
  }

  lemma PaletteBlockIs(c: Config, r: GoodReader, m: Machine, samples: Samples, pix: seq<nat>)
    requires samples == AllSamples(r, m.vb, m.p)
    requires pix == Paint(c.w, m.pix, Origin(c.mode, c.tileX, m.jb), Origin(c.mode, c.tileY, m.kb), Q(c.mode),
                          PaletteColour(c.mode, samples))
    ensures PaletteBlock(c, r, m) == m.(p := m.p + 64 * m.vb.entropy, pix := pix)
  {
  }

  lemma DctBlockIs(c: Config, r: GoodReader, m: Machine, u: Mcu, pix: seq<nat>)
    requires u == McuAt(r, LumaCount(c.mode), m.p, m.dcY, m.dcCb, m.dcCr)
    requires pix == Paint(c.w, m.pix, Origin(c.mode, c.tileX, m.jb), Origin(c.mode, c.tileY, m.kb), Q(c.mode),
                          McuColour(u.y, u.cb, u.cr))
    ensures DctBlock(c, r, m) == Machine(u.p, m.jb, m.kb, m.vb, u.dcY, u.dcCb, u.dcCr, pix)
  {
  }

  /** The planes still to come complete those already decoded. */
  ghost predicate LumaFrom(goal: (seq<Block>, int, nat), ys: seq<Block>, rest: (seq<Block>, int, nat)) {
    goal == (ys + rest.0, rest.1, rest.2)
  }

  lemma LumaDone(r: GoodReader, goal: (seq<Block>, int, nat), ys: seq<Block>, p: nat, dc: int)
    requires LumaFrom(goal, ys, LumaPlanes(r, p, dc, 0))
    ensures goal == (ys, dc, p)
  {
    assert ys + LumaPlanes(r, p, dc, 0).0 == ys;
  }

  lemma LumaUnfold(r: GoodReader, goal: (seq<Block>, int, nat), ys: seq<Block>, p: nat, dc: int, n: nat)
    requires n > 0 && LumaFrom(goal, ys, LumaPlanes(r, p, dc, n))
    ensures var a := PlaneAt(r.luma, p, dc); LumaFrom(goal, ys + [a.px], LumaPlanes(r, a.p, a.dc, n - 1))
  {
    var a := PlaneAt(r.luma, p, dc);
    var rest := LumaPlanes(r, a.p, a.dc, n - 1);
    assert ys + ([a.px] + rest.0) == (ys + [a.px]) + rest.0;
  }
}
