/** From a histogram and a symbol list to coders for whole blocks: Huffman codes joined with amplitude
bits, and the proof that the tables `newAvoHuff` builds read them back. */
module CodeBooks {
  import opened Bits
  import opened Huffman
  import opened Coefficients

  /** A histogram with its symbols, and the table built from them. */
  datatype Book = Book(bits: Histogram, values: seq<byte>, table: Table) {
    ghost predicate Good() {
      && Kraft(bits) && |values| == Total(bits)
      && Built(table, bits, values) && WellSized(table)
    }
  }

  type CodeBook = b: Book | b.Good() ghost witness EmptyBook()

  ghost function EmptyBook(): (b: Book)
    ensures b.Good()
  {
    var bits: Histogram := seq(17, _ => 0);
    var t := Table(seq(17, _ => 65535), seq(17, _ => 0), seq(65536, _ => 0));
    NoCodes(bits, 17);
    assert forall l {:trigger LengthBuilt(t, bits, [], l)} :: 1 <= l < 17 ==> LengthBuilt(t, bits, [], l) by {
      forall l | 1 <= l < 17 ensures LengthBuilt(t, bits, [], l) { NoCodes(bits, l); }
    }
    Book(bits, [], t)
  }

  lemma {:induction false} NoCodes(bits: Histogram, l: nat)
    requires forall i :: 0 <= i < 17 ==> bits[i] == 0
    requires 1 <= l <= 17
    ensures Offset(bits, l) == 0 && First(bits, l) == 0 && Kraft(bits)
  {
    var m := 17;
    while m > 1
      invariant 1 <= m <= 17 && KraftSum(bits, m) == 0
    {
      m := m - 1;
    }
    if l > 1 {
      NoCodes(bits, l - 1);
    }
  }

  /** What `newAvoHuff` returns makes a code book of any complete histogram. */
  lemma BuiltBook(bits: Histogram, values: seq<byte>, t: Table)
    requires Kraft(bits) && |values| == Total(bits) && Built(t, bits, values)
    ensures Book(bits, values, t).Good()
  {
    BuiltIsWellSized(t, bits, values);
  }

  function IndexOf(values: seq<byte>, sym: byte): (i: nat)
    requires sym in values
    ensures i < |values| && values[i] == sym
  {
    if values[0] == sym then 0 else 1 + IndexOf(values[1..], sym)
  }

  /** Length of the code of the `i`-th symbol. */
  function LengthOf(bits: Histogram, i: nat, l: nat): (r: nat)
    requires 1 <= l <= 17 && Offset(bits, l) <= i < Total(bits)
    ensures l <= r <= 16 && Offset(bits, r) <= i < Offset(bits, r) + bits[r]
    decreases 17 - l
  {
    if i < Offset(bits, l) + bits[l] then l else LengthOf(bits, i, l + 1)
  }

  /** The code of a symbol. */
  ghost function Encode(b: CodeBook, sym: byte): (c: seq<bool>)
    requires sym in b.values
  {
    var i := IndexOf(b.values, sym);
    var l := LengthOf(b.bits, i, 1);
    CodeWord(b.bits, l, i - Offset(b.bits, l))
  }

  /** The code of a symbol is one of the canonical codes, and stands for that symbol. */
  lemma EncodeIsCode(b: CodeBook, sym: byte) returns (l: nat, j: nat)
    requires sym in b.values
    ensures IsCode(b.bits, l, j) && Encode(b, sym) == CodeWord(b.bits, l, j)
    ensures Offset(b.bits, l) + j < |b.values| && b.values[Offset(b.bits, l) + j] == sym
  {
    var i := IndexOf(b.values, sym);
    l := LengthOf(b.bits, i, 1);
    j := i - Offset(b.bits, l);
  }

  lemma SymbolRoundTrip(b: CodeBook, sym: byte, s: BitStream, p: nat)
    requires sym in b.values && Holds(s, p, Encode(b, sym))
    ensures Lookup(b.table, s, p) == Match(sym, |Encode(b, sym)|)
  {
    var l, j := EncodeIsCode(b, sym);
    assert At(b.bits, s, p, l, j);
    CodeDecodes(b.table, b.bits, b.values, s, p, l, j);
  }

  // ---- amplitudes ---------------------------------------------------------

  /** Magnitude category of a value: the least `n` with |v| < 2^n. */
  function Category(v: int): (n: nat)
    ensures 0 - Pow2(n) < v < Pow2(n)
    ensures n > 0 ==> v >= Pow2(n - 1) || v <= 0 - Pow2(n - 1)
    decreases if v < 0 then -v else v
  {
    if v == 0 then 0
    else if v > 0 then 1 + Category(v / 2)
    else 1 + Category(-(-v / 2))
  }

  lemma CategoryBound(v: int, n: nat)
    ensures Category(v) <= n <==> 0 - Pow2(n) < v < Pow2(n)
  {
    var c := Category(v);
    if c <= n {
      Pow2Monotone(c, n);
    } else {
      Pow2Monotone(n, c - 1);
    }
  }

  /** Amplitude bits of a value: the value itself, or one less in two's complement when negative
  (section F.1.2.1 of ITU-T T.81). */
  function AmplitudeBits(v: int): (b: seq<bool>)
    ensures |b| == Category(v)
  {
    var n := Category(v);
    BitsOf(if v >= 0 then v else v + Pow2(n) - 1, n)
  }

  lemma AmplitudeRoundTrip(v: int, s: BitStream, p: nat)
    requires Holds(s, p, AmplitudeBits(v))
    ensures Amplitude(s, p, Category(v)) == v
  {
    var n := Category(v);
    if n > 0 {
      var x := if v >= 0 then v else v + Pow2(n) - 1;
      assert Pow2(n) == 2 * Pow2(n - 1);
      ValBitsOf(x, n);
      assert Val(Window(s, p, n)) == x;
    }
  }

  // ---- coders -------------------------------------------------------------

  ghost function TokensOf(b: CodeBook, s: BitStream): Tokens {
    TokensOn(b.table, s)
  }

  ghost function DifferencesOf(b: CodeBook, s: BitStream): Differences {
    DifferencesOn(b.table, s)
  }

  /** The symbol of a run of zeros and an amplitude size. */
  function RunSize(run: nat, size: nat): (rs: byte)
    requires run < 16 && size < 16
    ensures rs / 16 == run && rs % 16 == size
  {
    16 * run + size
  }

  const EOB: byte := 0x00
  const ZRL: byte := 0xF0

  /** The book has a symbol for every run and every size up to `top`, an end of block and a run of sixteen. */
  ghost predicate AcComplete(b: CodeBook, top: nat) {
    && top < 16 && EOB in b.values && ZRL in b.values
    && forall run: nat, size: nat :: run < 16 && 1 <= size <= top ==> RunSize(run, size) in b.values
  }

  ghost predicate DcComplete(b: CodeBook, top: nat) {
    top < 16 && forall size: nat :: size <= top ==> size in b.values
  }

  /** The code of `run` zeros and then `v`: symbol and amplitude. */
  ghost function EncodeCoef(b: CodeBook, run: nat, v: int): (e: seq<bool>)
    requires run < 16 && Category(v) < 16 && RunSize(run, Category(v)) in b.values
  {
    Encode(b, RunSize(run, Category(v))) + AmplitudeBits(v)
  }

  ghost function EncodeDifference(b: CodeBook, d: int): (e: seq<bool>)
    requires Category(d) < 16 && Category(d) in b.values
  {
    Encode(b, Category(d)) + AmplitudeBits(d)
  }

  ghost function AcKeys(top: nat): (keys: set<(nat, int)>)
    ensures forall x :: x in keys <==> x.0 < 16 && x.1 != 0 && Category(x.1) <= top
  {
    var lim := Pow2(top);
    forall v: int ensures Category(v) <= top <==> 0 - lim < v < lim { CategoryBound(v, top); }
    set run: nat, v: int | run < 16 && 0 - lim < v < lim && v != 0 :: (run, v)
  }

  ghost function AcCoderOf(b: CodeBook, top: nat): (cd: AcCoder)
    requires AcComplete(b, top)
    ensures cd.eob == Encode(b, EOB) && cd.zrl == Encode(b, ZRL)
    ensures cd.coef.Keys == AcKeys(top)
    ensures forall x :: x in cd.coef ==> cd.coef[x] == EncodeCoef(b, x.0, x.1)
  {
    AcCoder(Encode(b, EOB), Encode(b, ZRL), map x | x in AcKeys(top) :: EncodeCoef(b, x.0, x.1))
  }

  ghost function DcCoderOf(b: CodeBook, top: nat): (cd: DcCoder)
    requires DcComplete(b, top)
    ensures forall d :: d in cd <==> Category(d) <= top
    ensures forall d :: d in cd ==> cd[d] == EncodeDifference(b, d)
  {
    var lim := Pow2(top);
    forall v: int ensures Category(v) <= top <==> 0 - lim < v < lim { CategoryBound(v, top); }
    map d: int | 0 - lim < d < lim :: EncodeDifference(b, d)
  }

  lemma CoefRoundTrip(b: CodeBook, run: nat, v: int, s: BitStream, p: nat)
    requires run < 16 && v != 0 && Category(v) < 16 && RunSize(run, Category(v)) in b.values
    requires Holds(s, p, EncodeCoef(b, run, v))
    ensures TokenAt(b.table, s, p) == Coef(run, v, |Encode(b, RunSize(run, Category(v)))|, Category(v))
  {
    SymbolAndBits(b, RunSize(run, Category(v)), v, s, p);
    TokenOn(b, s, p, run, Category(v), |Encode(b, RunSize(run, Category(v)))|);
  }

  /** A symbol's code followed by the amplitude bits of a value. */
  lemma SymbolAndBits(b: CodeBook, sym: byte, v: int, s: BitStream, p: nat)
    requires sym in b.values && Holds(s, p, Encode(b, sym) + AmplitudeBits(v))
    ensures Lookup(b.table, s, p) == Match(sym, |Encode(b, sym)|)
    ensures Amplitude(s, p + |Encode(b, sym)|, Category(v)) == v
  {
    CodeAndBits(Encode(b, sym), v, s, p);
    SymbolRoundTrip(b, sym, s, p);
  }

  lemma CodeAndBits(code: seq<bool>, v: int, s: BitStream, p: nat)
    requires Holds(s, p, code + AmplitudeBits(v))
    ensures Holds(s, p, code) && Amplitude(s, p + |code|, Category(v)) == v
  {
    HoldsSplit(s, p, code, AmplitudeBits(v));
    AmplitudeRoundTrip(v, s, p + |code|);
  }

  lemma TokenOn(b: CodeBook, s: BitStream, p: nat, run: nat, size: nat, len: nat)
    requires run < 16 && 1 <= size < 16 && Lookup(b.table, s, p) == Match(RunSize(run, size), len)
    ensures TokenAt(b.table, s, p) == Coef(run, Amplitude(s, p + len, size), len, size)
  {
  }

  /** The table built from an AC book reads the book's tokens back. */
  lemma AcBuiltReadsBack(b: CodeBook, top: nat, s: BitStream)
    requires AcComplete(b, top)
    ensures AcReadsBack(TokensOf(b, s), AcCoderOf(b, top), s)
  {
    var cd, ac := AcCoderOf(b, top), TokensOf(b, s);
    forall p: nat | Holds(s, p, cd.eob)
      ensures ac(p) == EndOfBlock(|cd.eob|)
    {
      SymbolRoundTrip(b, EOB, s, p);
    }
    forall p: nat | Holds(s, p, cd.zrl)
      ensures ac(p) == ZeroRun(|cd.zrl|)
    {
      SymbolRoundTrip(b, ZRL, s, p);
    }
    forall p: nat, x | x in cd.coef && Holds(s, p, cd.coef[x])
      ensures ac(p).Coef? && ac(p).run == x.0 && ac(p).value == x.1 && ac(p).len + ac(p).size == |cd.coef[x]|
    {
      CoefRoundTrip(b, x.0, x.1, s, p);
    }
  }

  lemma DifferenceRoundTrip(b: CodeBook, d: int, s: BitStream, p: nat)
    requires Category(d) < 16 && Category(d) in b.values
    requires Holds(s, p, EncodeDifference(b, d))
    ensures DifferenceAt(b.table, s, p) == Difference(d, |EncodeDifference(b, d)|)
  {
    SymbolAndBits(b, Category(d), d, s, p);
    DifferenceOn(b.table, s, p, Category(d), |Encode(b, Category(d))|);
  }

  lemma DifferenceOn(t: Table, s: BitStream, p: nat, size: byte, len: nat)
    requires WellSized(t) && Lookup(t, s, p) == Match(size, len)
    ensures DifferenceAt(t, s, p) == Difference(Amplitude(s, p + len, size), len + size)
  {
  }

  lemma DcBuiltReadsBack(b: CodeBook, top: nat, s: BitStream)
    requires DcComplete(b, top)
    ensures DcReadsBack(DifferencesOf(b, s), DcCoderOf(b, top), s)
  {
    var cd, dc := DcCoderOf(b, top), DifferencesOf(b, s);
    forall p: nat, d | d in cd && Holds(s, p, cd[d])
      ensures dc(p) == Difference(d, |cd[d]|)
    {
      DifferenceRoundTrip(b, d, s, p);
    }
  }

  lemma LookupInBook(b: CodeBook, s: BitStream, p: nat)
    ensures var r := Lookup(b.table, s, p); r.Match? ==> r.len >= 1 && r.value in b.values
  {
    if Lookup(b.table, s, p).Match? {
      var j := MatchIsCode(b.table, b.bits, b.values, s, p, 1);
    }
  }

  /** A symbol that the AC loop reads without moving on: size 0 with a run of 1 to 14. */
  predicate Stalls(rs: byte) {
    rs % 16 == 0 && 1 <= rs / 16 <= 14
  }
}
