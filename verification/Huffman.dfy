/** Canonical Huffman tables: how `newAvoHuff` builds them and what `decodeHuffSymbol` finds.

A table is given by a histogram `bits` (`bits[l]` codes of length `l`, 1 <= l <= 16) and the list of
symbols in code order. Everything here holds for any histogram; nothing depends on the four
tables the codec ships with. */
module Huffman {
  import opened Bits

  type Histogram = h: seq<byte> | |h| == 17 witness seq(17, _ => 0)

  datatype Table = Table(minCode: seq<int>, maxCode: seq<int>, values: seq<byte>)

  /** First code of length `l` in the canonical assignment (Annex C of ITU-T T.81). */
  function First(bits: Histogram, l: nat): nat
    requires 1 <= l <= 17
  {
    if l == 1 then 0 else 2 * (First(bits, l - 1) + bits[l - 1])
  }

  /** Number of symbols with codes shorter than `l`. */
  function Offset(bits: Histogram, l: nat): nat
    requires 1 <= l <= 17
  {
    if l == 1 then 0 else Offset(bits, l - 1) + bits[l - 1]
  }

  function Total(bits: Histogram): nat {
    Offset(bits, 17)
  }

  lemma {:induction false} OffsetMonotone(bits: Histogram, l: nat, m: nat)
    requires 1 <= l <= m <= 17
    ensures Offset(bits, l) <= Offset(bits, m)
    decreases m - l
  {
    if l < m {
      OffsetMonotone(bits, l, m - 1);
    }
  }

  /** `(l, j)` names a code: the `j`-th code of length `l`. */
  predicate IsCode(bits: Histogram, l: nat, j: nat) {
    1 <= l <= 16 && j < bits[l]
  }

  /** The bits of the `j`-th code of length `l`. */
  function CodeWord(bits: Histogram, l: nat, j: nat): (c: seq<bool>)
    requires IsCode(bits, l, j)
    ensures |c| == l
  {
    BitsOf(First(bits, l) + j, l)
  }

  // ---- Kraft --------------------------------------------------------------

  /** Sum over the codes of length at least `l` of 2^(16 - length). */
  function KraftSum(bits: Histogram, l: nat): nat
    requires 1 <= l <= 17
    decreases |bits| - l
  {
    if l == 17 then 0 else bits[l] * Pow2(16 - l) + KraftSum(bits, l + 1)
  }

  /** Kraft's inequality, scaled by 2^16. */
  predicate Kraft(bits: Histogram) {
    KraftSum(bits, 1) <= Pow2(16)
  }

  /** Every canonical code fits in its own length. */
  predicate CodesFit(bits: Histogram) {
    forall l :: 1 <= l <= 16 ==> First(bits, l) + bits[l] <= Pow2(l)
  }

  /** The code space used so far plus the space the longer codes need is the Kraft sum. */
  lemma {:induction false} KraftSplit(bits: Histogram, l: nat)
    requires 1 <= l <= 16
    ensures First(bits, l) * Pow2(16 - l) + KraftSum(bits, l) == KraftSum(bits, 1)
  {
    if l > 1 {
      KraftSplit(bits, l - 1);
      KraftAdvance(bits, l - 1);
    }
  }

  lemma KraftAdvance(bits: Histogram, l: nat)
    requires 1 <= l <= 15
    ensures First(bits, l + 1) * Pow2(15 - l) + KraftSum(bits, l + 1) == First(bits, l) * Pow2(16 - l) + KraftSum(bits, l)
  {
    var f, b, y := First(bits, l), bits[l] as int, Pow2(15 - l);
    assert Pow2(16 - l) == 2 * y;
    KraftStep(First(bits, l + 1), f, b, y, KraftSum(bits, l + 1));
  }

  lemma KraftStep(g: nat, f: nat, b: nat, y: nat, rest: nat)
    requires g == 2 * (f + b)
    ensures g * y + rest == f * (2 * y) + (b * (2 * y) + rest)
  {
    Spread(f, b, y);
  }

  lemma Spread(f: int, b: int, y: int)
    ensures 2 * (f + b) * y == f * (2 * y) + b * (2 * y)
  {
  }

  lemma {:induction false} FirstGrows(bits: Histogram, l: nat, m: nat)
    requires 1 <= l < m <= 17
    ensures (First(bits, l) + bits[l]) * Pow2(m - l) <= First(bits, m)
    decreases m - l
  {
    if m == l + 1 {
      assert Pow2(1) == 2;
    } else {
      FirstGrows(bits, l, m - 1);
      var x, y := First(bits, l) + bits[l], Pow2(m - 1 - l);
      assert Pow2(m - l) == 2 * y;
      Double(x, y);
    }
  }

  /** Kraft's inequality is exactly the condition under which the canonical codes exist. */
  lemma KraftIffCodesFit(bits: Histogram)
    ensures Kraft(bits) <==> CodesFit(bits)
  {
    KraftIsLast(bits);
    if Kraft(bits) {
      forall l | 1 <= l <= 16
        ensures First(bits, l) + bits[l] <= Pow2(l)
      {
        FitsBefore(bits, l, 16);
      }
    }
  }

  /** The Kraft sum is the end of the longest codes. */
  lemma KraftIsLast(bits: Histogram)
    ensures KraftSum(bits, 1) == First(bits, 16) + bits[16]
  {
    KraftSplit(bits, 16);
    assert KraftSum(bits, 17) == 0 && Pow2(0) == 1;
    assert KraftSum(bits, 16) == bits[16];
  }

  /** When the codes of one length fit, so do the shorter ones. */
  lemma FitsBefore(bits: Histogram, l: nat, m: nat)
    requires 1 <= l <= m <= 16 && First(bits, m) + bits[m] <= Pow2(m)
    ensures First(bits, l) + bits[l] <= Pow2(l)
  {
    if l < m {
      var end, p := First(bits, l) + bits[l], Pow2(m - l);
      FirstGrows(bits, l, m);
      assert end * p <= Pow2(m);
      Pow2Add(l, m - l);
      CancelFactor(end, Pow2(l), p);
    }
  }

  lemma CancelFactor(a: nat, b: nat, m: nat)
    requires m >= 1 && a * m <= b * m
    ensures a <= b
  {
    assert a >= b + 1 ==> a * m >= (b + 1) * m;
    assert (b + 1) * m == b * m + m;
  }

  // ---- building -----------------------------------------------------------

  /** What `newAvoHuff` must leave in the table for lengths below `upto`. */
  ghost predicate BuiltUpTo(t: Table, bits: Histogram, values: seq<byte>, upto: nat) {
    && 1 <= upto <= 17
    && |t.minCode| == 17 && |t.maxCode| == 17 && |t.values| == 65536
    && Offset(bits, upto) <= |values|
    && forall l :: 1 <= l < upto ==> LengthBuilt(t, bits, values, l)
  }

  ghost predicate LengthBuilt(t: Table, bits: Histogram, values: seq<byte>, l: nat)
    requires 1 <= l <= 16 && |t.minCode| == 17 && |t.maxCode| == 17 && |t.values| == 65536
  {
    && t.minCode[l] == (if bits[l] == 0 then 65535 else First(bits, l))
    && t.maxCode[l] == (if bits[l] == 0 then 0 else First(bits, l) + bits[l] - 1)
    && Offset(bits, l) + bits[l] <= |values|
    && t.values[256 * l..256 * l + bits[l]] == values[Offset(bits, l)..Offset(bits, l) + bits[l]]
  }

  /** The finished table. */
  ghost predicate Built(t: Table, bits: Histogram, values: seq<byte>) {
    BuiltUpTo(t, bits, values, 17)
  }

  method NewAvoHuff(bits: Histogram, values: seq<byte>) returns (h: Table)
    requires Total(bits) <= |values|
    ensures Built(h, bits, values)
  {
    var minCode, maxCode := new int[17](_ => 0), new int[17](_ => 0);
    var vals := new byte[65536](_ => 0);
    var code, vi := 0, 0;
    var l := 1;
    while l <= 16
      invariant 1 <= l <= 17
      invariant code == First(bits, l) && vi == Offset(bits, l) <= |values|
      invariant BuiltUpTo(Table(minCode[..], maxCode[..], vals[..]), bits, values, l)
    {
      OffsetMonotone(bits, l + 1, 17);
      ghost var before := Table(minCode[..], maxCode[..], vals[..]);
      vi, code := BuildLength(minCode, maxCode, vals, bits, values, l, vi, code);
      KeepsShorter(before, Table(minCode[..], maxCode[..], vals[..]), bits, values, l);
      l := l + 1;
    }
    h := Table(minCode[..], maxCode[..], vals[..]);
  }

  /** The outer loop's body: the code range and the symbols of one length. */
  method BuildLength(minCode: array<int>, maxCode: array<int>, vals: array<byte>, bits: Histogram, values: seq<byte>, l: nat, start: nat, first: nat)
    returns (vi: nat, code: nat)
    requires minCode.Length == 17 && maxCode.Length == 17 && vals.Length == 65536 && minCode != maxCode
    requires 1 <= l <= 16 && start == Offset(bits, l) && first == First(bits, l) && Offset(bits, l + 1) <= |values|
    modifies minCode, maxCode, vals
    ensures vi == Offset(bits, l + 1) && code == First(bits, l + 1)
    ensures LengthBuilt(Table(minCode[..], maxCode[..], vals[..]), bits, values, l)
    ensures minCode[..l] == old(minCode[..l]) && maxCode[..l] == old(maxCode[..l])
    ensures vals[..256 * l] == old(vals[..256 * l])
  {
    vi, code := start, first;
    if bits[l] == 0 {
      minCode[l], maxCode[l] := 65535, 0;
    } else {
      minCode[l] := code;
      vi, code := FillRow(vals, l, bits[l], values, vi, code);
      maxCode[l] := code - 1;
    }
    assert vals[..][256 * l..256 * l + bits[l]] == values[start..start + bits[l]];
    code := 2 * code;
  }

  /** The inner loop of `newAvoHuff`: the symbols of one code length. */
  method FillRow(vals: array<byte>, l: nat, count: byte, values: seq<byte>, start: nat, first: nat)
    returns (vi: nat, code: nat)
    requires vals.Length == 65536 && 1 <= l <= 16 && start + count <= |values|
    modifies vals
    ensures vi == start + count && code == first + count
    ensures vals[256 * l..256 * l + count] == values[start..start + count]
    ensures vals[..256 * l] == old(vals[..256 * l])
  {
    vi, code := start, first;
    var j := 0;
    while j < count
      invariant 0 <= j <= count
      invariant code == first + j && vi == start + j
      invariant vals[256 * l..256 * l + j] == values[start..start + j]
      invariant vals[..256 * l] == old(vals[..256 * l])
    {
      ghost var done := vals[256 * l..256 * l + j];
      vals[256 * l + j] := values[vi];
      assert vals[256 * l..256 * l + j + 1] == done + [values[vi]];
      assert values[start..start + j + 1] == values[start..start + j] + [values[vi]];
      vi, code, j := vi + 1, code + 1, j + 1;
    }
  }

  /** Filling length `l` leaves the shorter lengths as they were. */
  lemma KeepsShorter(t: Table, t': Table, bits: Histogram, values: seq<byte>, l: nat)
    requires l <= 16 && BuiltUpTo(t, bits, values, l)
    requires |t'.minCode| == 17 && |t'.maxCode| == 17 && |t'.values| == 65536
    requires t'.minCode[..l] == t.minCode[..l] && t'.maxCode[..l] == t.maxCode[..l]
    requires t'.values[..256 * l] == t.values[..256 * l]
    requires LengthBuilt(t', bits, values, l)
    ensures BuiltUpTo(t', bits, values, l + 1)
  {
    forall m | 1 <= m < l
      ensures LengthBuilt(t', bits, values, m)
    {
      assert LengthBuilt(t, bits, values, m);
      assert t'.minCode[m] == t'.minCode[..l][m] && t'.maxCode[m] == t'.maxCode[..l][m];
      assert t'.values[256 * m..256 * m + bits[m]] == t'.values[..256 * l][256 * m..256 * m + bits[m]];
      assert t.values[256 * m..256 * m + bits[m]] == t.values[..256 * l][256 * m..256 * m + bits[m]];
    }
  }

  // ---- decoding -----------------------------------------------------------

  datatype Symbol = NoMatch | Match(value: byte, len: nat)

  /** Shape of a table that lookups may index: no code range is wider than a row of `values`. */
  predicate WellSized(t: Table) {
    && |t.minCode| == 17 && |t.maxCode| == 17 && |t.values| == 65536
    && forall l :: 1 <= l <= 16 ==> t.maxCode[l] - t.minCode[l] < 256
  }

  lemma BuiltIsWellSized(t: Table, bits: Histogram, values: seq<byte>)
    requires Built(t, bits, values)
    ensures WellSized(t)
  {
    forall l | 1 <= l <= 16
      ensures t.maxCode[l] - t.minCode[l] < 256
    {
      assert LengthBuilt(t, bits, values, l);
    }
  }

  /** The range test of `decodeHuffSymbol` at length `l`. */
  predicate InRange(t: Table, l: nat, code: int)
    requires WellSized(t) && 1 <= l <= 16
  {
    t.minCode[l] <= code <= t.maxCode[l]
  }

  /** Symbol lookup in the next 16 bits from length `l` on: the first length whose code range holds. */
  function LookupFrom(t: Table, w: seq<bool>, l: nat): (r: Symbol)
    requires WellSized(t) && |w| == 16 && 1 <= l <= 17
    ensures r.Match? ==> l <= r.len <= 16 && r.value in t.values
    decreases |w| + 1 - l
  {
    if l == 17 then NoMatch
    else
      var code := Val(w[..l]);
      if InRange(t, l, code) then Match(t.values[256 * l + (code - t.minCode[l])], l)
      else LookupFrom(t, w, l + 1)
  }

  function Lookup(t: Table, s: BitStream, p: nat): (r: Symbol)
    requires WellSized(t)
    ensures r.Match? ==> 1 <= r.len <= 16 && r.value in t.values
  {
    LookupFrom(t, Window(s, p, 16), 1)
  }

  /** The next `l` bits of the stream are the code `(l, j)`. */
  ghost predicate At(bits: Histogram, s: BitStream, p: nat, l: nat, j: nat) {
    IsCode(bits, l, j) && Window(s, p, l) == CodeWord(bits, l, j)
  }

  /** The same, comparing numbers as the decoder does. */
  ghost predicate Reads(bits: Histogram, s: BitStream, p: nat, l: nat, j: nat) {
    IsCode(bits, l, j) && Val(Window(s, p, l)) == First(bits, l) + j
  }

  lemma AtReads(bits: Histogram, s: BitStream, p: nat, l: nat, j: nat)
    requires CodesFit(bits)
    ensures At(bits, s, p, l, j) <==> Reads(bits, s, p, l, j)
  {
    if IsCode(bits, l, j) {
      BinaryForm(Window(s, p, l), First(bits, l) + j);
    }
  }

  /** No code is a prefix of a longer one. */
  lemma NoPrefix(bits: Histogram, s: BitStream, p: nat, l: nat, j: nat, l': nat, j': nat)
    requires l < l' && Reads(bits, s, p, l, j)
    ensures !Reads(bits, s, p, l', j')
  {
    if IsCode(bits, l', j') {
      var n := l' - l;
      WindowSplit(s, p, l, n);
      ValConcat(Window(s, p, l), Window(s, p + l, n));
      ValBound(Window(s, p + l, n));
      FirstGrows(bits, l, l');
      Squeeze(First(bits, l), j, bits[l], Pow2(n), Val(Window(s, p + l, n)));
    }
  }

  lemma Squeeze(f: nat, j: nat, b: nat, m: nat, r: nat)
    requires j < b && r < m
    ensures (f + j) * m + r < (f + b) * m
  {
    assert (f + j + 1) * m <= (f + b) * m;
    assert (f + j + 1) * m == (f + j) * m + m;
  }

  /** Testing the range at one length is testing for one of the codes of that length. */
  lemma RangeIsCode(t: Table, bits: Histogram, values: seq<byte>, l: nat, code: nat)
    requires Built(t, bits, values) && WellSized(t) && 1 <= l <= 16
    ensures InRange(t, l, code) <==> First(bits, l) <= code < First(bits, l) + bits[l]
    ensures InRange(t, l, code) ==>
              && Offset(bits, l) + (code - First(bits, l)) < |values|
              && t.values[256 * l + (code - t.minCode[l])] == values[Offset(bits, l) + (code - First(bits, l))]
  {
    assert LengthBuilt(t, bits, values, l);
    if InRange(t, l, code) {
      var j, o := code - First(bits, l), Offset(bits, l);
      assert t.values[256 * l..256 * l + bits[l]][j] == values[o..o + bits[l]][j];
    }
  }

  /** A canonical code followed by anything decodes to its own symbol and its own length. */
  lemma CodeDecodes(t: Table, bits: Histogram, values: seq<byte>, s: BitStream, p: nat, l: nat, j: nat)
    requires Built(t, bits, values) && WellSized(t) && Kraft(bits)
    requires At(bits, s, p, l, j)
    ensures Offset(bits, l) + j < |values|
    ensures Lookup(t, s, p) == Match(values[Offset(bits, l) + j], l)
  {
    KraftIffCodesFit(bits);
    AtReads(bits, s, p, l, j);
    FoundFrom(t, bits, values, s, p, 1, l, j);
  }

  lemma {:induction false} FoundFrom(t: Table, bits: Histogram, values: seq<byte>, s: BitStream, p: nat, m: nat, l: nat, j: nat)
    requires Built(t, bits, values) && WellSized(t)
    requires Reads(bits, s, p, l, j) && 1 <= m <= l
    ensures Offset(bits, l) + j < |values|
    ensures LookupFrom(t, Window(s, p, 16), m) == Match(values[Offset(bits, l) + j], l)
    decreases l - m
  {
    var code := Val(Window(s, p, m));
    assert m <= 16 ==> Window(s, p, 16)[..m] == Window(s, p, m);
    RangeIsCode(t, bits, values, m, code);
    if m < l {
      if InRange(t, m, code) {
        NoPrefix(bits, s, p, m, code - First(bits, m), l, j);
      }
      FoundFrom(t, bits, values, s, p, m + 1, l, j);
    }
  }

  /** A lookup that succeeds has read a code, and returns that code's symbol and length. */
  lemma {:induction false} MatchIsCode(t: Table, bits: Histogram, values: seq<byte>, s: BitStream, p: nat, m: nat)
    returns (j: nat)
    requires Built(t, bits, values) && WellSized(t) && 1 <= m <= 17
    requires LookupFrom(t, Window(s, p, 16), m).Match?
    ensures var r := LookupFrom(t, Window(s, p, 16), m);
            && Reads(bits, s, p, r.len, j)
            && Offset(bits, r.len) + j < |values| && r.value == values[Offset(bits, r.len) + j]
    decreases 17 - m
  {
    var code := Val(Window(s, p, m));
    assert m <= 16 ==> Window(s, p, 16)[..m] == Window(s, p, m);
    RangeIsCode(t, bits, values, m, code);
    if InRange(t, m, code) {
      j := code - First(bits, m);
    } else {
      j := MatchIsCode(t, bits, values, s, p, m + 1);
    }
  }

  /** Decoding fails exactly when no code is a prefix of what follows. */
  lemma FailsExactlyWithoutCode(t: Table, bits: Histogram, values: seq<byte>, s: BitStream, p: nat)
    requires Built(t, bits, values) && WellSized(t) && Kraft(bits)
    ensures Lookup(t, s, p) == NoMatch <==> forall l, j :: !At(bits, s, p, l, j)
  {
    if Lookup(t, s, p).Match? {
      KraftIffCodesFit(bits);
      var j := MatchIsCode(t, bits, values, s, p, 1);
      AtReads(bits, s, p, Lookup(t, s, p).len, j);
    } else {
      forall l, j | At(bits, s, p, l, j)
        ensures false
      {
        CodeDecodes(t, bits, values, s, p, l, j);
      }
    }
  }
}
