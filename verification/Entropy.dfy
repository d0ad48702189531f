/** Reading blocks off the bit buffer: Huffman symbols, amplitudes and whole DCT blocks. */
module Entropy {
  import opened Bits
  import opened BitBuffer
  import opened Huffman
  import opened ZigZagOrder
  import opened Coefficients
  import opened InverseDct
  import opened TileMachine

  /** A DC and an AC table on a stream, and what they read from it. */
  datatype Link = Link(dcT: Table, acT: Table, s: BitStream, dc: Differences, ac: Tokens) {
    ghost predicate Good() {
      && WellSized(dcT) && WellSized(acT) && Progresses(ac)
      && (forall p: nat :: dc(p) == DifferenceAt(dcT, s, p))
      && (forall p: nat :: ac(p) == TokenAt(acT, s, p))
      && (forall p: nat :: Lookup(dcT, s, p).Match? ==> Lookup(dcT, s, p).value < 16)
    }
  }

  type Codes = l: Link | l.Good() ghost witness EmptyLink()

  ghost function EmptyLink(): (l: Link)
    ensures l.Good()
  {
    var t := Table(seq(17, _ => 1), seq(17, _ => 0), seq(65536, _ => 0));
    var s: BitStream := (_: nat) => false;
    assert forall p: nat :: Lookup(t, s, p) == NoMatch by {
      forall p: nat ensures Lookup(t, s, p) == NoMatch { NothingFound(t, Window(s, p, 16), 1); }
    }
    Link(t, t, s, (_: nat) => NoDifference, (_: nat) => NoCode)
  }

  lemma {:induction false} NothingFound(t: Table, w: seq<bool>, l: nat)
    requires WellSized(t) && |w| == 16 && 1 <= l <= 17
    requires forall m :: 1 <= m <= 16 ==> t.minCode[m] > t.maxCode[m]
    ensures LookupFrom(t, w, l) == NoMatch
    decreases 17 - l
  {
    if l < 17 {
      NothingFound(t, w, l + 1);
    }
  }

  /** Every symbol a DC table finds is a size below 16. */
  ghost predicate DcUsable(t: Table) {
    WellSized(t) && forall s: BitStream, p: nat :: Lookup(t, s, p).Match? ==> Lookup(t, s, p).value < 16
  }

  /** No symbol an AC table finds stalls the AC loop. */
  ghost predicate AcUsable(t: Table) {
    WellSized(t) && forall s: BitStream, p: nat :: !TokenAt(t, s, p).Stall?
  }

  ghost function EmptyTable(): (t: Table)
    ensures DcUsable(t) && AcUsable(t)
  {
    var t := Table(seq(17, _ => 1), seq(17, _ => 0), seq(65536, _ => 0));
    assert forall s: BitStream, p: nat :: Lookup(t, s, p) == NoMatch by {
      forall s: BitStream, p: nat ensures Lookup(t, s, p) == NoMatch { NothingFound(t, Window(s, p, 16), 1); }
    }
    t
  }

  type DcTable = t: Table | DcUsable(t) ghost witness EmptyTable()
  type AcTable = t: Table | AcUsable(t) ghost witness EmptyTable()

  /** What usable tables read from a stream. */
  ghost function LinkOf(dcT: DcTable, acT: AcTable, s: BitStream): (l: Codes)
    ensures l.dcT == dcT && l.acT == acT && l.s == s
    ensures l.dc == DifferencesOn(dcT, s) && l.ac == TokensOn(acT, s)
  {
    Link(dcT, acT, s, DifferencesOn(dcT, s), TokensOn(acT, s))
  }

  /** A colour channel: its tables, scan order and quantiser, and the stream it is read from. */
  datatype Channel = Channel(dcT: DcTable, acT: AcTable, inv: ScanOrder, q: Dequant, s: BitStream)

  /** One plane of a channel: the parsed block, transformed. */
  ghost function DecodePlane(c: Channel, p: nat, prevDC: int): (r: Plane)
    ensures r.p >= p
  {
    var l := LinkOf(c.dcT, c.acT, c.s);
    var b := ParseBlock(l.dc, l.ac, c.inv, p, prevDC);
    Plane(Idct(CODE, c.q, b.coef), b.dc, b.p)
  }

  /** The planes that a reader finds are those of the channel. */
  ghost predicate Decodes(plane: (nat, int) -> Plane, c: Channel) {
    forall p: nat, prevDC: int {:trigger DecodePlane(c, p, prevDC)} :: PlaneAt(plane, p, prevDC) == DecodePlane(c, p, prevDC)
  }

  /** Reads one Huffman code; consumes nothing when no code matches. */
  method DecodeHuffSymbol(rd: BitReader, tab: Table) returns (v: byte, ok: bool)
    requires rd.Buffered() && WellSized(tab)
    modifies rd`nb, rd`mb, rd`ob, rd`pos, rd`consumedB, rd`loaded
    ensures rd.Buffered() && rd.consumedB >= old(rd.consumedB)
    ensures Lookup(tab, rd.bits, old(rd.consumedB)) == if ok then Match(v, rd.consumedB - old(rd.consumedB)) else NoMatch
    ensures !ok ==> rd.consumedB == old(rd.consumedB)
  {
    ghost var w := Window(rd.bits, rd.consumedB, 16);
    var l := 1;
    while l <= 16
      invariant 1 <= l <= 17
      invariant rd.Buffered() && rd.consumedB == old(rd.consumedB)
      invariant Lookup(tab, rd.bits, rd.consumedB) == LookupFrom(tab, w, l)
    {
      var code := rd.PeekBits(l);
      assert w[..l] == Window(rd.bits, rd.consumedB, l);
      if tab.minCode[l] <= code <= tab.maxCode[l] {
        rd.Consume(l);
        return tab.values[256 * l + (code - tab.minCode[l])], true;
      }
      l := l + 1;
    }
    return 0, false;
  }

  /** Reads `n` bits and sign-extends them, in `int16`. */
  method DecodeSignedValue(rd: BitReader, n: nat) returns (v: int)
    requires rd.Buffered() && n < 16
    modifies rd`nb, rd`mb, rd`ob, rd`pos, rd`consumedB, rd`loaded
    ensures rd.Buffered() && rd.consumedB == old(rd.consumedB) + n
    ensures v == Amplitude(rd.bits, old(rd.consumedB), n)
  {
    if n == 0 {
      return 0;
    }
    var x := rd.GetBits(n);
    ValBound(Window(rd.bits, old(rd.consumedB), n));
    TableExtends(x, n);
    if x < Pow2(n - 1) {
      return Wrap16(x + AVO_EXTEND[n]);
    }
    return Wrap16(x);
  }

  /** One block: DC difference, AC loop, inverse DCT. Returns the new DC predictor and the 64 values. */
  method DecodeDCTBlock(rd: BitReader, dcTab: DcTable, acTab: AcTable, inv: ScanOrder, q: Dequant, prevDC: int,
                        ghost plane: (nat, int) -> Plane) returns (newDC: int, out: Block)
    requires rd.Buffered() && Decodes(plane, Channel(dcTab, acTab, inv, q, rd.bits))
    modifies rd`nb, rd`mb, rd`ob, rd`pos, rd`consumedB, rd`loaded
    ensures rd.Buffered()
    ensures Plane(out, newDC, rd.consumedB) == PlaneAt(plane, old(rd.consumedB), prevDC)
  {
    ghost var l := LinkOf(dcTab, acTab, rd.bits);
    ghost var r := DecodePlane(Channel(dcTab, acTab, inv, q, rd.bits), rd.consumedB, prevDC);
    newDC := DecodeDC(rd, dcTab, prevDC, l);
    var coef := DecodeAC(rd, acTab, inv, newDC, l);
    out := AvoIdctInt(coef, q);
  }

  method DecodeDC(rd: BitReader, dcTab: Table, prevDC: int, ghost l: Codes) returns (newDC: int)
    requires rd.Buffered() && l.dcT == dcTab && l.s == rd.bits
    modifies rd`nb, rd`mb, rd`ob, rd`pos, rd`consumedB, rd`loaded
    ensures rd.Buffered()
    ensures (newDC, rd.consumedB) == ParseDC(l.dc, old(rd.consumedB), prevDC)
  {
    newDC := prevDC;
    assert l.dc(rd.consumedB) == DifferenceAt(dcTab, rd.bits, rd.consumedB);
    var sDC, ok := DecodeHuffSymbol(rd, dcTab);
    if ok {
      var dcVal := DecodeSignedValue(rd, sDC);
      newDC := Wrap16(prevDC + dcVal);
    }
  }

  /** The AC loop, writing coefficients to their natural positions. */
  method DecodeAC(rd: BitReader, acTab: Table, inv: ScanOrder, dc: int, ghost l: Codes) returns (coef: Block)
    requires rd.Buffered() && l.acT == acTab && l.s == rd.bits
    modifies rd`nb, rd`mb, rd`ob, rd`pos, rd`consumedB, rd`loaded
    ensures rd.Buffered()
    ensures (coef, rd.consumedB) == ParseAC(l.ac, inv, old(rd.consumedB), 1, DcBlock(dc))
  {
    coef := DcBlock(dc);
    ghost var goal := ParseAC(l.ac, inv, rd.consumedB, 1, coef);
    var k: int, ended := 1, false;
    while k < 64 && !ended
      invariant k >= 0 && rd.Buffered()
      invariant goal == if ended then (coef, rd.consumedB) else ParseAC(l.ac, inv, rd.consumedB, k, coef)
      decreases !ended, 64 - k
    {
      k, coef, ended := DecodeCoefficient(rd, acTab, inv, k, coef, l);
    }
  }

  /** One turn of the AC loop: a symbol, and the amplitude it announces unless its place is past the block. */
  method DecodeCoefficient(rd: BitReader, acTab: Table, inv: ScanOrder, k: nat, coef: Block, ghost l: Codes)
    returns (k': nat, coef': Block, ended: bool)
    requires rd.Buffered() && l.acT == acTab && l.s == rd.bits && k < 64
    modifies rd`nb, rd`mb, rd`ob, rd`pos, rd`consumedB, rd`loaded
    ensures rd.Buffered()
    ensures ended ==> coef' == coef && AcTurn(l.ac, inv, old(rd.consumedB), k, coef) == Done(rd.consumedB)
    ensures !ended ==> AcTurn(l.ac, inv, old(rd.consumedB), k, coef) == More(rd.consumedB, k', coef')
  {
    k', coef', ended := k, coef, false;
    assert l.ac(rd.consumedB) == TokenAt(acTab, rd.bits, rd.consumedB);
    var rs, ok := DecodeHuffSymbol(rd, acTab);
    if !ok {
      k' := k + 1;
      return;
    }
    var s, r := rs % 16, rs / 16;
    if s == 0 {
      if r == 0 {
        ended := true;
      } else if r == 15 {
        k' := k + 16;
      } else {
        assert false;
      }
      return;
    }
    k' := k + r;
    if k' >= 64 {
      ended := true;
      return;
    }
    var v := DecodeSignedValue(rd, s);
    coef' := coef[inv[k'] := v];
    k' := k' + 1;
  }
}
