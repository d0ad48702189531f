/** Entropy coding of one 8x8 block: what `decodeDCTBlock` reads, and the encoder it inverts
(sections F.1.2 and F.2.2 of ITU-T T.81). */
module Coefficients {
  import opened Bits
  import opened Huffman
  import opened ZigZagOrder

  /** Wrap-around of a Go `int16`. */
  function Wrap16(x: int): (r: int)
    ensures -0x8000 <= r < 0x8000
    ensures -0x8000 <= x < 0x8000 ==> r == x
  {
    (x + 0x8000) % 0x10000 - 0x8000
  }

  /** The signed value of `size` amplitude bits that read as `v` (EXTEND, section F.2.2.1 of ITU-T T.81). */
  function Extend(v: nat, size: nat): (r: int) {
    if size == 0 then 0 else if v < Pow2(size - 1) then v + 1 - Pow2(size) else v
  }

  function Amplitude(s: BitStream, p: nat, size: nat): (r: int) {
    Extend(Val(Window(s, p, size)), size)
  }

  const AVO_EXTEND: seq<int> :=
    [0, -1, -3, -7, -15, -31, -63, -127, -255, -511, -1023, -2047, -4095, -8191, -16383, -32767]

  lemma ExtendTable(size: nat)
    requires size < 16
    ensures AVO_EXTEND[size] == 1 - Pow2(size)
    ensures Pow2(size) <= 0x8000
  {
    var n := 0;
    while n < size
      invariant n <= size && AVO_EXTEND[n] == 1 - Pow2(n) && Pow2(n) <= 0x8000
    {
      assert Pow2(n + 1) == 2 * Pow2(n);
      assert AVO_EXTEND[n + 1] == 2 * AVO_EXTEND[n] - 1;
      n := n + 1;
    }
  }

  /** The table lookup of `decodeSignedValue`, in `int16`, computes EXTEND. */
  lemma TableExtends(v: nat, size: nat)
    requires 1 <= size < 16 && v < Pow2(size)
    ensures Extend(v, size) == if v < Pow2(size - 1) then Wrap16(v + AVO_EXTEND[size]) else Wrap16(v)
  {
    ExtendTable(size);
  }

  // ---- the decoder's entropy loop -----------------------------------------

  type Block = b: seq<int> | |b| == 64 witness seq(64, _ => 0)

  /** A block with only its DC coefficient set. */
  function DcBlock(dc: int): (b: Block)
    ensures b[0] == dc && forall i :: 1 <= i < 64 ==> b[i] == 0
  {
    seq(64, i => if i == 0 then dc else 0)
  }

  /** What the AC loop reads at a bit position: nothing it knows, an end of block, sixteen zeros, a run of
  zeros and a value (`len` code bits, then `size` amplitude bits), or a symbol that makes no progress. */
  datatype Token =
    | NoCode
    | EndOfBlock(len: nat)
    | ZeroRun(len: nat)
    | Coef(run: nat, value: int, len: nat, size: nat)
    | Stall(len: nat)

  function TokenAt(t: Table, s: BitStream, p: nat): (r: Token)
    requires WellSized(t)
  {
    match Lookup(t, s, p)
    case NoMatch => NoCode
    case Match(rs, len) =>
      if rs % 16 != 0 then Coef(rs / 16, Amplitude(s, p + len, rs % 16), len, rs % 16)
      else if rs / 16 == 0 then EndOfBlock(len)
      else if rs / 16 == 15 then ZeroRun(len)
      else Stall(len)
  }

  /** What the DC step reads: the difference and the number of bits it takes, or no code. */
  datatype Difference = NoDifference | Difference(value: int, len: nat)

  function DifferenceAt(t: Table, s: BitStream, p: nat): (r: Difference)
    requires WellSized(t)
  {
    match Lookup(t, s, p)
    case NoMatch => NoDifference
    case Match(size, len) => Difference(Amplitude(s, p + len, size), len + size)
  }

  type Tokens = nat -> Token
  type Differences = nat -> Difference

  /** Everything a table reads from a stream. */
  function TokensOn(t: Table, s: BitStream): Tokens
    requires WellSized(t)
  {
    (p: nat) => TokenAt(t, s, p)
  }

  function DifferencesOn(t: Table, s: BitStream): Differences
    requires WellSized(t)
  {
    (p: nat) => DifferenceAt(t, s, p)
  }

  /** No token stalls: then every turn of the AC loop moves on. */
  ghost predicate Progresses(ac: Tokens) {
    forall p: nat :: !ac(p).Stall?
  }

  /** What one turn of the AC loop leads to. */
  datatype Turn = Done(p: nat) | More(p: nat, k: nat, coef: Block)

  /** One turn of the AC loop at zigzag position `k`. */
  ghost function AcTurn(ac: Tokens, inv: ScanOrder, p: nat, k: nat, coef: Block): (r: Turn)
    requires Progresses(ac) && k < 64
    ensures r.p >= p && (r.More? ==> r.k > k)
  {
    match ac(p)
    case NoCode => More(p, k + 1, coef)
    case EndOfBlock(len) => Done(p + len)
    case ZeroRun(len) => More(p + len, k + 16, coef)
    case Coef(run, v, len, size) =>
      if k + run >= 64 then Done(p + len) else More(p + len + size, k + run + 1, coef[inv[k + run] := v])
  }

  /** The AC loop from zigzag position `k`: the finished block and the bit position after it. */
  ghost function ParseAC(ac: Tokens, inv: ScanOrder, p: nat, k: nat, coef: Block): (r: (Block, nat))
    requires Progresses(ac)
    ensures r.1 >= p
    decreases |coef| - k
  {
    if k >= 64 then (coef, p)
    else
      match AcTurn(ac, inv, p, k, coef)
      case Done(p') => (coef, p')
      case More(p', k', coef') => ParseAC(ac, inv, p', k', coef')
  }

  function ParseDC(dc: Differences, p: nat, prevDC: int): (r: (int, nat))
    ensures r.1 >= p
  {
    match dc(p)
    case NoDifference => (prevDC, p)
    case Difference(d, len) => (Wrap16(prevDC + d), p + len)
  }

  datatype BlockResult = BlockResult(coef: Block, dc: int, p: nat)

  /** One block: the DC difference, then the AC loop. A DC lookup that fails consumes nothing. */
  ghost function ParseBlock(dc: Differences, ac: Tokens, inv: ScanOrder, p: nat, prevDC: int): (r: BlockResult)
    requires Progresses(ac)
    ensures r.p >= p
  {
    var d := ParseDC(dc, p, prevDC);
    var a := ParseAC(ac, inv, d.1, 1, DcBlock(d.0));
    BlockResult(a.0, d.0, a.1)
  }

  // ---- the encoder --------------------------------------------------------

  /** Codes for the tokens of the AC loop: `coef[(run, v)]` codes `run` zeros followed by the value `v`. */
  datatype AcCoder = AcCoder(eob: seq<bool>, zrl: seq<bool>, coef: map<(nat, int), seq<bool>>)

  /** Codes for the DC differences. */
  type DcCoder = map<int, seq<bool>>

  /** The coded bits `e` lie at position `p` of the stream. */
  ghost predicate Holds(s: BitStream, p: nat, e: seq<bool>) {
    Window(s, p, |e|) == e
  }

  lemma HoldsSplit(s: BitStream, p: nat, a: seq<bool>, b: seq<bool>)
    requires Holds(s, p, a + b)
    ensures Holds(s, p, a) && Holds(s, p + |a|, b)
  {
    WindowSplit(s, p, |a|, |b|);
    assert (a + b)[..|a|] == a && (a + b)[|a|..] == b;
  }

  /** The decoder reads a coded token back, with its length, whatever follows. */
  ghost predicate AcReadsBack(ac: Tokens, cd: AcCoder, s: BitStream) {
    && (forall p: nat :: Holds(s, p, cd.eob) ==> ac(p) == EndOfBlock(|cd.eob|))
    && (forall p: nat :: Holds(s, p, cd.zrl) ==> ac(p) == ZeroRun(|cd.zrl|))
    && (forall p: nat, x :: x in cd.coef && Holds(s, p, cd.coef[x]) ==>
          ac(p).Coef? && ac(p).run == x.0 && ac(p).value == x.1 && ac(p).len + ac(p).size == |cd.coef[x]|)
  }

  ghost predicate DcReadsBack(dc: Differences, cd: DcCoder, s: BitStream) {
    forall p: nat, d :: d in cd && Holds(s, p, cd[d]) ==> dc(p) == Difference(d, |cd[d]|)
  }

  /** Coefficient at a zigzag position. */
  function Scan(inv: ScanOrder, blk: Block, k: nat): int
    requires k < 64
  {
    blk[inv[k]]
  }

  /** The coder can code every AC coefficient of the block after any run of fewer than sixteen zeros. */
  ghost predicate AcFits(cd: AcCoder, inv: ScanOrder, blk: Block) {
    forall k, run: nat :: 1 <= k < 64 && run < 16 && Scan(inv, blk, k) != 0 ==> (run, Scan(inv, blk, k)) in cd.coef
  }

  /** Codes for the coefficients from zigzag position `k` on, with `run` zeros pending
  (section F.1.2.2 of ITU-T T.81). */
  ghost function EncodeAC(cd: AcCoder, inv: ScanOrder, blk: Block, k: nat, run: nat): (e: seq<bool>)
    requires AcFits(cd, inv, blk) && 1 <= k <= 64
    decreases |blk| - k, run
  {
    if k == 64 then (if run > 0 then cd.eob else [])
    else
      var v := Scan(inv, blk, k);
      if v == 0 then EncodeAC(cd, inv, blk, k + 1, run + 1)
      else if run >= 16 then cd.zrl + EncodeAC(cd, inv, blk, k, run - 16)
      else cd.coef[(run, v)] + EncodeAC(cd, inv, blk, k + 1, 0)
  }

  /** The decoder's block holds the coefficients below position `k` and zeros from there on. */
  ghost predicate FilledBelow(inv: ScanOrder, coef: Block, blk: Block, k: nat) {
    forall j :: 0 <= j < 64 ==> Scan(inv, coef, j) == if j < k then Scan(inv, blk, j) else 0
  }

  lemma FilledAll(inv: ScanOrder, coef: Block, blk: Block)
    requires FilledBelow(inv, coef, blk, 64)
    ensures coef == blk
  {
    forall n | 0 <= n < 64
      ensures coef[n] == blk[n]
    {
      assert n in inv;
      var k :| 0 <= k < 64 && inv[k] == n;
      assert Scan(inv, coef, k) == Scan(inv, blk, k);
    }
  }

  lemma FillNext(inv: ScanOrder, coef: Block, blk: Block, k: nat)
    requires k < 64 && FilledBelow(inv, coef, blk, k)
    ensures FilledBelow(inv, coef[inv[k] := Scan(inv, blk, k)], blk, k + 1)
    ensures Scan(inv, blk, k) == 0 ==> FilledBelow(inv, coef, blk, k + 1)
  {
    var coef' := coef[inv[k] := Scan(inv, blk, k)];
    forall j | 0 <= j < 64
      ensures Scan(inv, coef', j) == if j < k + 1 then Scan(inv, blk, j) else 0
    {
      assert Scan(inv, coef, j) == if j < k then Scan(inv, blk, j) else 0;
    }
    if Scan(inv, blk, k) == 0 {
      assert Scan(inv, coef, k) == 0;
    }
  }

  /** A decoder, a coder it reads back, a scan order, a stream and a block the coder can code. */
  datatype AcLink = AcLink(ac: Tokens, cd: AcCoder, inv: ScanOrder, s: BitStream, blk: Block) {
    ghost predicate Good() {
      AcReadsBack(ac, cd, s) && Progresses(ac) && AcFits(cd, inv, blk)
    }

    ghost function Encoded(k: nat, run: nat): seq<bool>
      requires Good() && 1 <= k <= 64
    {
      EncodeAC(cd, inv, blk, k, run)
    }

    ghost function Parsed(p: nat, k: nat, coef: Block): (Block, nat)
      requires Good()
    {
      ParseAC(ac, inv, p, k, coef)
    }
  }

  lemma LinkExists()
    ensures AcLink((_: nat) => NoCode, AcCoder([true], [true], map[]), Raster(), (_: nat) => false, DcBlock(0)).Good()
  {
    var s: BitStream := (_: nat) => false;
    forall p: nat
      ensures !Holds(s, p, [true])
    {
      assert Window(s, p, 1)[0] == s(p + 0);
    }
  }

  type GoodLink = l: AcLink | l.Good() ghost witness
    (LinkExists(); AcLink((_: nat) => NoCode, AcCoder([true], [true], map[]), Raster(), (_: nat) => false, DcBlock(0)))

  lemma {:induction false} AcRoundTrip(l: GoodLink, p: nat, k: nat, run: nat, coef: Block)
    requires 1 <= k <= 64 && run < k && FilledBelow(l.inv, coef, l.blk, k)
    requires Holds(l.s, p, l.Encoded(k, run))
    ensures l.Parsed(p, k - run, coef) == (l.blk, p + |l.Encoded(k, run)|)
    decreases |l.blk| - k, 1 + run
  {
    if k == 64 {
      FilledAll(l.inv, coef, l.blk);
      assert run > 0 ==> AcTurn(l.ac, l.inv, p, k - run, coef) == Done(p + |l.cd.eob|);
    } else if Scan(l.inv, l.blk, k) == 0 {
      FillNext(l.inv, coef, l.blk, k);
      AcRoundTrip(l, p, k + 1, run + 1, coef);
    } else if run >= 16 {
      ZeroRunRoundTrip(l, p, k, run, coef);
    } else {
      ValueRoundTrip(l, p, k, run, coef);
    }
  }

  /** The case of sixteen pending zeros: they are skipped. */
  lemma {:induction false} ZeroRunRoundTrip(l: GoodLink, p: nat, k: nat, run: nat, coef: Block)
    requires 1 <= k < 64 && 16 <= run < k && Scan(l.inv, l.blk, k) != 0 && FilledBelow(l.inv, coef, l.blk, k)
    requires Holds(l.s, p, l.Encoded(k, run))
    ensures l.Parsed(p, k - run, coef) == (l.blk, p + |l.Encoded(k, run)|)
    decreases |l.blk| - k, run
  {
    HoldsSplit(l.s, p, l.cd.zrl, l.Encoded(k, run - 16));
    assert AcTurn(l.ac, l.inv, p, k - run, coef) == More(p + |l.cd.zrl|, k - (run - 16), coef);
    ParseOn(l, p, k - run, coef, p + |l.cd.zrl|, k - (run - 16), coef);
    AcRoundTrip(l, p + |l.cd.zrl|, k, run - 16, coef);
    assert |l.Encoded(k, run)| == |l.cd.zrl| + |l.Encoded(k, run - 16)|;
  }

  /** The case of a non-zero coefficient: it is read into its place. */
  lemma {:induction false} ValueRoundTrip(l: GoodLink, p: nat, k: nat, run: nat, coef: Block)
    requires 1 <= k < 64 && run < k && run < 16 && Scan(l.inv, l.blk, k) != 0 && FilledBelow(l.inv, coef, l.blk, k)
    requires Holds(l.s, p, l.Encoded(k, run))
    ensures l.Parsed(p, k - run, coef) == (l.blk, p + |l.Encoded(k, run)|)
    decreases |l.blk| - k, 0
  {
    var v := Scan(l.inv, l.blk, k);
    var p', coef' := p + |l.cd.coef[(run, v)]|, coef[l.inv[k] := v];
    ValueTurn(l, p, k, run, coef, v, p', coef');
    ParseOn(l, p, k - run, coef, p', k + 1, coef');
    AcRoundTrip(l, p', k + 1, 0, coef');
  }

  /** The turn that reads it. */
  lemma ValueTurn(l: GoodLink, p: nat, k: nat, run: nat, coef: Block, v: int, p': nat, coef': Block)
    requires 1 <= k < 64 && run < k && run < 16 && v == Scan(l.inv, l.blk, k) != 0 && FilledBelow(l.inv, coef, l.blk, k)
    requires Holds(l.s, p, l.Encoded(k, run)) && (run, v) in l.cd.coef
    requires p' == p + |l.cd.coef[(run, v)]| && coef' == coef[l.inv[k] := v]
    ensures AcTurn(l.ac, l.inv, p, k - run, coef) == More(p', k + 1, coef')
    ensures FilledBelow(l.inv, coef', l.blk, k + 1)
    ensures Holds(l.s, p', l.Encoded(k + 1, 0)) && p + |l.Encoded(k, run)| == p' + |l.Encoded(k + 1, 0)|
  {
    var e := l.cd.coef[(run, v)];
    var rest := l.Encoded(k + 1, 0);
    assert l.Encoded(k, run) == e + rest;
    HoldsSplit(l.s, p, e, rest);
    FillNext(l.inv, coef, l.blk, k);
  }

  lemma ParseOn(l: GoodLink, p: nat, k: nat, coef: Block, p': nat, k': nat, coef': Block)
    requires k < 64 && AcTurn(l.ac, l.inv, p, k, coef) == More(p', k', coef')
    ensures l.Parsed(p, k, coef) == l.Parsed(p', k', coef')
  {
  }

  /** A block the coders can code after a block whose DC coefficient was `prevDC`. */
  ghost predicate Codable(dc: DcCoder, ac: AcCoder, inv: ScanOrder, blk: Block, prevDC: int) {
    -0x8000 <= blk[0] < 0x8000 && blk[0] - prevDC in dc && AcFits(ac, inv, blk)
  }

  ghost function EncodeBlock(dc: DcCoder, ac: AcCoder, inv: ScanOrder, blk: Block, prevDC: int): (e: seq<bool>)
    requires Codable(dc, ac, inv, blk, prevDC)
  {
    dc[blk[0] - prevDC] + EncodeAC(ac, inv, blk, 1, 0)
  }

  /** Entropy coding is inverted: a coded block, followed by anything, decodes to exactly that block in
  natural order, leaves its DC coefficient as the predictor and consumes exactly the coded bits. */
  lemma BlockRoundTrip(dc: Differences, dcC: DcCoder, ac: Tokens, acC: AcCoder, inv: ScanOrder,
                       blk: Block, prevDC: int, s: BitStream, p: nat)
    requires DcReadsBack(dc, dcC, s) && AcReadsBack(ac, acC, s) && Progresses(ac)
    requires Codable(dcC, acC, inv, blk, prevDC)
    requires Holds(s, p, EncodeBlock(dcC, acC, inv, blk, prevDC))
    ensures ParseBlock(dc, ac, inv, p, prevDC)
         == BlockResult(blk, blk[0], p + |EncodeBlock(dcC, acC, inv, blk, prevDC)|)
  {
    var head, tail := dcC[blk[0] - prevDC], EncodeAC(acC, inv, blk, 1, 0);
    HoldsSplit(s, p, head, tail);
    DcRoundTrip(dc, dcC, s, p, blk[0], prevDC);
    TailRoundTrip(ac, acC, inv, blk, s, p + |head|);
  }

  lemma DcRoundTrip(dc: Differences, dcC: DcCoder, s: BitStream, p: nat, v: int, prevDC: int)
    requires DcReadsBack(dc, dcC, s) && -0x8000 <= v < 0x8000 && v - prevDC in dcC && Holds(s, p, dcC[v - prevDC])
    ensures ParseDC(dc, p, prevDC) == (v, p + |dcC[v - prevDC]|)
  {
  }

  lemma TailRoundTrip(ac: Tokens, acC: AcCoder, inv: ScanOrder, blk: Block, s: BitStream, p: nat)
    requires AcReadsBack(ac, acC, s) && Progresses(ac) && AcFits(acC, inv, blk)
    requires Holds(s, p, EncodeAC(acC, inv, blk, 1, 0))
    ensures ParseAC(ac, inv, p, 1, DcBlock(blk[0])) == (blk, p + |EncodeAC(acC, inv, blk, 1, 0)|)
  {
    var l: GoodLink := AcLink(ac, acC, inv, s, blk);
    DcFilled(inv, blk);
    AcRoundTrip(l, p, 1, 0, DcBlock(blk[0]));
  }

  lemma DcFilled(inv: ScanOrder, blk: Block)
    ensures FilledBelow(inv, DcBlock(blk[0]), blk, 1)
  {
  }
}
