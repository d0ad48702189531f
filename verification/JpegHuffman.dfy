/** The older decoder's Huffman tables: a second implementation, which tests only the upper end of each code
range. It finds the same symbols. */
module JpegHuffman {
  import opened Basics
  import opened Bits
  import opened Huffman

  datatype JpegTable = JpegTable(minCode: seq<int>, maxCode: seq<int>, valPtr: seq<int>, values: seq<byte>)

  /** The entry for codes of length `l`. */
  ghost predicate Entry(bits: Histogram, l: nat, lo: int, hi: int, at: int)
    requires 1 <= l <= 16
  {
    && lo == (if bits[l] == 0 then 0x10000 else First(bits, l))
    && hi == (if bits[l] == 0 then -1 else First(bits, l) + bits[l] - 1)
    && at == Offset(bits, l)
  }

  /** The entries for codes shorter than `upto`. */
  ghost predicate Entries(bits: Histogram, lo: seq<int>, hi: seq<int>, at: seq<int>, upto: nat) {
    && |lo| == |hi| == |at| == 17 && 1 <= upto <= 17
    && forall l :: 1 <= l < upto ==> Entry(bits, l, lo[l], hi[l], at[l])
  }

  predicate Sized(t: JpegTable) {
    |t.minCode| == 17 && |t.maxCode| == 17 && |t.valPtr| == 17 && |t.values| == 4096
  }

  ghost predicate Ready(t: JpegTable, bits: Histogram, values: seq<byte>) {
    && Sized(t) && Total(bits) <= |values| && Total(bits) <= 4096
    && t.values[..Total(bits)] == values[..Total(bits)]
    && Entries(bits, t.minCode, t.maxCode, t.valPtr, 17)
  }

  lemma {:induction false} TotalBound(bits: Histogram, l: nat)
    requires 1 <= l <= 17
    ensures Offset(bits, l) <= 255 * (l - 1)
  {
    if l > 1 {
      TotalBound(bits, l - 1);
    }
  }

  method BuildHuffman(bits: Histogram, huffvals: seq<byte>) returns (t: JpegTable)
    requires Total(bits) <= |huffvals|
    ensures Ready(t, bits, huffvals)
  {
    var minCode, maxCode, valPtr := new int[17](_ => 0), new int[17](_ => 0), new int[17](_ => 0);
    var values := new byte[4096](_ => 0);
    TotalBound(bits, 17);
    var code, vi := 0, 0;
    var l := 1;
    while l <= 16
      invariant 1 <= l <= 17 && code == First(bits, l) && vi == Offset(bits, l) <= Total(bits)
      invariant values[..vi] == huffvals[..vi]
      invariant Entries(bits, minCode[..], maxCode[..], valPtr[..], l)
    {
      OffsetMonotone(bits, l + 1, 17);
      ghost var lo, hi, at := minCode[..], maxCode[..], valPtr[..];
      vi, code := BuildEntry(minCode, maxCode, valPtr, values, bits, huffvals, l, vi, code);
      KeepsEntries(bits, lo, hi, at, minCode[..], maxCode[..], valPtr[..], l);
      l := l + 1;
    }
    t := JpegTable(minCode[..], maxCode[..], valPtr[..], values[..]);
  }

  /** The entry of one length. */
  method BuildEntry(minCode: array<int>, maxCode: array<int>, valPtr: array<int>, values: array<byte>, bits: Histogram, huffvals: seq<byte>,
                    l: nat, start: nat, first: nat) returns (vi: nat, code: nat)
    requires minCode.Length == 17 && maxCode.Length == 17 && valPtr.Length == 17
    requires minCode != maxCode && maxCode != valPtr && valPtr != minCode
    requires 1 <= l <= 16 && start == Offset(bits, l) && first == First(bits, l)
    requires Offset(bits, l + 1) <= |huffvals| && Offset(bits, l + 1) <= values.Length && values[..start] == huffvals[..start]
    modifies minCode, maxCode, valPtr, values
    ensures vi == Offset(bits, l + 1) && code == First(bits, l + 1) && values[..vi] == huffvals[..vi]
    ensures Entry(bits, l, minCode[l], maxCode[l], valPtr[l])
    ensures minCode[..l] == old(minCode[..l]) && maxCode[..l] == old(maxCode[..l]) && valPtr[..l] == old(valPtr[..l])
  {
    vi, code := start, first;
    valPtr[l] := vi;
    if bits[l] == 0 {
      minCode[l], maxCode[l] := 0x10000, -1;
    } else {
      minCode[l] := code;
      vi, code := CopySymbols(values, huffvals, vi, code, bits[l]);
      maxCode[l] := code - 1;
    }
    code := 2 * code;
  }

  lemma KeepsEntries(bits: Histogram, lo: seq<int>, hi: seq<int>, at: seq<int>, lo': seq<int>, hi': seq<int>, at': seq<int>, l: nat)
    requires 1 <= l <= 16 && Entries(bits, lo, hi, at, l) && |lo'| == |hi'| == |at'| == 17
    requires lo'[..l] == lo[..l] && hi'[..l] == hi[..l] && at'[..l] == at[..l] && Entry(bits, l, lo'[l], hi'[l], at'[l])
    ensures Entries(bits, lo', hi', at', l + 1)
  {
    forall m | 1 <= m < l
      ensures Entry(bits, m, lo'[m], hi'[m], at'[m])
    {
      assert lo'[m] == lo'[..l][m] && hi'[m] == hi'[..l][m] && at'[m] == at'[..l][m];
      assert Entry(bits, m, lo[m], hi[m], at[m]);
    }
  }

  method CopySymbols(values: array<byte>, huffvals: seq<byte>, start: nat, first: nat, count: byte) returns (vi: nat, code: nat)
    requires start + count <= |huffvals| && start + count <= values.Length && values[..start] == huffvals[..start]
    modifies values
    ensures vi == start + count && code == first + count && values[..vi] == huffvals[..vi]
  {
    vi, code := start, first;
    for j := 0 to count
      invariant vi == start + j && code == first + j && values[..vi] == huffvals[..vi]
    {
      values[vi] := huffvals[vi];
      vi, code := vi + 1, code + 1;
    }
  }

  /** The search: the first length whose largest code is not below the bits read. */
  function Search(t: JpegTable, w: seq<bool>, l: nat): (r: Symbol)
    requires Sized(t) && |w| == 16 && 1 <= l <= 17
    decreases |w| + 1 - l
  {
    if l == 17 then NoMatch
    else
      var code := Val(w[..l]);
      if code <= t.maxCode[l] then Match(SymbolFor(t, l, code), l) else Search(t, w, l + 1)
  }

  /** What the reader returns for a search and how many bits it asks for. */
  function ValueIn(r: Symbol): byte {
    if r.Match? then r.value else 0
  }

  function LengthIn(r: Symbol): nat {
    if r.Match? then r.len else 16
  }

  /** The symbol of a code of length `l`, 0 when the table has no place for it. */
  function SymbolFor(t: JpegTable, l: nat, code: int): byte
    requires Sized(t) && 1 <= l <= 16
  {
    var i := t.valPtr[l] + (code - t.minCode[l]);
    if 0 <= i < 4096 then t.values[i] else 0
  }

  // ---- the bit accumulator ------------------------------------------------

  /** The bits of a byte string, each byte most significant bit first, then zeros for ever. */
  function BitOf(data: seq<byte>, i: nat): bool {
    i / 8 < |data| && BitsOf(data[i / 8], 8)[i % 8]
  }

  function ByteStream(data: seq<byte>): BitStream {
    (i: nat) => BitOf(data, i)
  }

  lemma WindowBits(data: seq<byte>, p: nat, n: nat)
    ensures forall i :: 0 <= i < n ==> Window(ByteStream(data), p, n)[i] == BitOf(data, p + i)
  {
  }

  /** A byte, widened to 64 bits and shifted so that it starts at bit `at` from the top. */
  function ByteAt(b: byte, at: nat): (w: seq<bool>)
    requires at <= 56
    ensures |w| == 64
  {
    BitsOf(b, 64)[56 - at..] + Zeros(56 - at)
  }

  lemma ByteAtBits(b: byte, at: nat, i: nat)
    requires at <= 56 && i < 64
    ensures ByteAt(b, at)[i] == (at <= i < at + 8 && BitsOf(b, 8)[i - at])
  {
    WidenByte(b, 56);
  }

  function Or64(a: seq<bool>, b: seq<bool>): (r: seq<bool>)
    requires |a| == 64 && |b| == 64
    ensures |r| == 64
  {
    seq(64, i requires 0 <= i < 64 => a[i] || b[i])
  }

  /** The top `n` bits of the accumulator are the bits of the data from `from` on, its other bits zero. */
  ghost predicate Held(data: seq<byte>, acc: seq<bool>, n: nat, from: nat) {
    && |acc| == 64
    && forall i :: 0 <= i < 64 ==> acc[i] == (i < n && BitOf(data, from + i))
  }

  lemma LoadsByte(data: seq<byte>, acc: seq<bool>, n: nat, from: nat, pos: nat)
    requires Held(data, acc, n, from) && n <= 56 && pos < |data| && from + n == 8 * pos
    ensures Held(data, Or64(acc, ByteAt(data[pos], n)), n + 8, from)
  {
    var next := Or64(acc, ByteAt(data[pos], n));
    forall i | 0 <= i < 64
      ensures next[i] == (i < n + 8 && BitOf(data, from + i))
    {
      ByteAtBits(data[pos], n, i);
      if n <= i < n + 8 {
        BitOfByte(data, pos, i - n);
      }
    }
  }

  lemma DropsBits(data: seq<byte>, acc: seq<bool>, n: nat, from: nat, k: nat)
    requires Held(data, acc, n, from) && k <= n <= 64
    ensures Held(data, acc[k..] + Zeros(k), n - k, from + k)
  {
    var next := acc[k..] + Zeros(k);
    forall i | 0 <= i < 64
      ensures next[i] == (i < n - k && BitOf(data, from + k + i))
    {
      assert i < 64 - k ==> next[i] == acc[k + i];
    }
  }

  lemma HeldWindow(data: seq<byte>, acc: seq<bool>, n: nat, from: nat, k: nat)
    requires Held(data, acc, n, from) && k <= n <= 64
    ensures acc[..k] == Window(ByteStream(data), from, k)
  {
    WindowBits(data, from, k);
  }

  /** The search after the lengths below `l`: still open with the bits read so far, or over with the last length. */
  ghost predicate Tried(t: JpegTable, w: seq<bool>, l: nat, code: nat, v: byte, found: bool)
    requires Sized(t) && |w| == 16 && 1 <= l <= 17
  {
    if found then l > 1 && Search(t, w, 1) == Match(v, l - 1)
    else v == 0 && code == Val(w[..l - 1]) && Search(t, w, 1) == Search(t, w, l)
  }

  lemma TriesLength(t: JpegTable, w: seq<bool>, l: nat, code: nat, b: nat)
    requires Sized(t) && |w| == 16 && 1 <= l <= 16 && b == if w[l - 1] then 1 else 0
    requires Tried(t, w, l, code, 0, false)
    ensures var next := 2 * code + b;
            if next <= t.maxCode[l] then Tried(t, w, l + 1, next, SymbolFor(t, l, next), true)
            else Tried(t, w, l + 1, next, 0, false)
  {
    OneMoreBit(w, l);
  }

  lemma SearchOver(t: JpegTable, w: seq<bool>, l: nat, code: nat, v: byte, found: bool)
    requires Sized(t) && |w| == 16 && 1 <= l <= 17 && Tried(t, w, l, code, v, found) && (found || l == 17)
    ensures v == ValueIn(Search(t, w, 1)) && l - 1 == LengthIn(Search(t, w, 1))
  {
    assert Search(t, w, 17) == NoMatch;
  }

  class BitAccumulator {
    const data: seq<byte>
    var pos: nat
    var acc: seq<bool>
    var n: nat

    /** Bits handed out so far. */
    ghost var taken: nat

    constructor (data: seq<byte>)
      ensures Valid() && this.data == data && taken == 0
    {
      this.data, pos, acc, n, taken := data, 0, Zeros(64), 0, 0;
    }

    /** `acc` holds the `n` bits of the data before `pos` that are not yet taken. */
    ghost predicate Valid()
      reads this
    {
      n <= 64 && pos <= |data| && taken + n == 8 * pos && Held(data, acc, n, taken)
    }

    method Fill()
      requires Valid()
      modifies `acc, `n, `pos
      ensures Valid() && (n > 56 || pos == |data|)
    {
      while n <= 56 && pos < |data|
        invariant Valid()
        decreases |data| - pos
      {
        FillByte();
      }
    }

    method FillByte()
      requires Valid() && n <= 56 && pos < |data|
      modifies `acc, `n, `pos
      ensures Valid() && pos == old(pos) + 1
    {
      LoadsByte(data, acc, n, taken, pos);
      acc := Or64(acc, ByteAt(data[pos], n));
      n := n + 8;
      pos := pos + 1;
    }

    /** The next `k` bits as a number; when fewer are left, 0, and nothing is taken. */
    method Get(k: nat) returns (v: nat)
      requires Valid() && k <= 32
      modifies `acc, `n, `pos, `taken
      ensures Valid()
      ensures if old(taken) + k <= 8 * |data| then taken == old(taken) + k && v == Val(Window(ByteStream(data), old(taken), k))
              else taken == old(taken) && v == 0
    {
      Fill();
      if n < k {
        return 0;
      }
      HeldWindow(data, acc, n, taken, k);
      v := Val(acc[..k]);
      Drop(k);
    }

    /** The shift after a read. */
    method Drop(k: nat)
      requires Valid() && k <= n
      modifies `acc, `n, `taken
      ensures Valid() && taken == old(taken) + k
    {
      DropsBits(data, acc, n, taken, k);
      acc := acc[k..] + Zeros(k);
      n := n - k;
      taken := taken + k;
    }

    /** Reads bits one at a time until a code is complete: the symbol the search finds in the bits that follow, zeros
    past the end, or 0 when there is none; it takes the bits of the code, or sixteen, as far as there are any. */
    method DecodeSymbol(t: JpegTable) returns (v: byte)
      requires Valid() && Sized(t)
      modifies `acc, `n, `pos, `taken
      ensures Valid()
      ensures var r := Search(t, Window(ByteStream(data), old(taken), 16), 1);
              v == ValueIn(r) && taken == Clip(old(taken) + LengthIn(r), 8 * |data|)
    {
      WindowBits(data, taken, 16);
      v := SearchBits(t, Window(ByteStream(data), taken, 16));
    }

    /** The loop over the code lengths, `w` being the bits that follow. */
    method SearchBits(t: JpegTable, ghost w: seq<bool>) returns (v: byte)
      requires Valid() && Sized(t) && |w| == 16 && forall i :: 0 <= i < 16 ==> w[i] == BitOf(data, taken + i)
      modifies `acc, `n, `pos, `taken
      ensures Valid() && v == ValueIn(Search(t, w, 1)) && taken == Clip(old(taken) + LengthIn(Search(t, w, 1)), 8 * |data|)
    {
      ghost var t0 := taken;
      var code: nat, l, found := 0, 1, false;
      v := 0;
      while l <= 16 && !found
        invariant 1 <= l <= 17 && Valid() && taken == Clip(t0 + (l - 1), 8 * |data|)
        invariant Tried(t, w, l, code, v, found)
      {
        code, v, found := TryLength(t, l, code, t0, w);
        l := l + 1;
      }
      SearchOver(t, w, l, code, v, found);
    }

    /** One more bit, and the test of the codes of that length. */
    method TryLength(t: JpegTable, l: nat, code: nat, ghost t0: nat, ghost w: seq<bool>) returns (code': nat, v: byte, found: bool)
      requires Valid() && Sized(t) && 1 <= l <= 16 && |w| == 16 && w[l - 1] == BitOf(data, t0 + (l - 1))
      requires taken == Clip(t0 + (l - 1), 8 * |data|) && Tried(t, w, l, code, 0, false)
      modifies `acc, `n, `pos, `taken
      ensures Valid() && taken == Clip(t0 + l, 8 * |data|) && Tried(t, w, l + 1, code', v, found)
    {
      var b := NextBit(t0 + (l - 1));
      TriesLength(t, w, l, code, b);
      code' := 2 * code + b;
      found := code' <= t.maxCode[l];
      v := if found then SymbolFor(t, l, code') else 0;
    }

    /** The bit at a position of the zero-extended stream that is next, or past the end. */
    method NextBit(ghost at: nat) returns (b: nat)
      requires Valid() && taken == Clip(at, 8 * |data|)
      modifies `acc, `n, `pos, `taken
      ensures Valid() && taken == Clip(at + 1, 8 * |data|)
      ensures b == if BitOf(data, at) then 1 else 0
    {
      b := Get(1);
      FirstBit(ByteStream(data), old(taken));
      WindowBits(data, old(taken), 1);
    }
  }

  lemma OneMoreBit(w: seq<bool>, l: nat)
    requires 1 <= l <= |w|
    ensures Val(w[..l]) == 2 * Val(w[..l - 1]) + (if w[l - 1] then 1 else 0)
  {
    assert w[..l][..l - 1] == w[..l - 1] && w[..l][l - 1] == w[l - 1];
  }

  lemma BitOfByte(data: seq<byte>, k: nat, i: nat)
    requires k < |data| && i < 8
    ensures BitOf(data, 8 * k + i) == BitsOf(data[k], 8)[i]
  {
    assert (8 * k + i) / 8 == k && (8 * k + i) % 8 == i;
  }

  /** At one length the older table accepts the codes up to the last one, and gives each its symbol. */
  lemma SameRange(j: JpegTable, bits: Histogram, values: seq<byte>, l: nat, code: nat)
    requires Ready(j, bits, values) && 1 <= l <= 16 && code >= First(bits, l)
    ensures code <= j.maxCode[l] <==> code < First(bits, l) + bits[l]
    ensures code <= j.maxCode[l] ==>
              var i := Offset(bits, l) + (code - First(bits, l));
              i < |values| && SymbolFor(j, l, code) == values[i]
  {
    assert Entry(bits, l, j.minCode[l], j.maxCode[l], j.valPtr[l]);
    if code < First(bits, l) + bits[l] {
      var i, total := Offset(bits, l) + (code - First(bits, l)), Total(bits);
      OffsetMonotone(bits, l + 1, 17);
      assert j.values[..total][i] == values[..total][i];
    }
  }

  /** Both tables find the same symbol with the same length: once no shorter code has matched, the bits read are
  never below the first code of the current length. */
  lemma {:induction false} SameSymbol(j: JpegTable, t: Table, bits: Histogram, values: seq<byte>, w: seq<bool>, l: nat)
    requires Ready(j, bits, values) && Built(t, bits, values) && WellSized(t)
    requires |w| == 16 && 1 <= l <= 17 && (l <= 16 ==> Val(w[..l]) >= First(bits, l))
    ensures Search(j, w, l) == LookupFrom(t, w, l)
    decreases 17 - l
  {
    if l <= 16 {
      var code := Val(w[..l]);
      RangeIsCode(t, bits, values, l, code);
      SameRange(j, bits, values, l, code);
      if !InRange(t, l, code) {
        if l < 16 {
          OneMoreBit(w, l + 1);
        }
        SameSymbol(j, t, bits, values, w, l + 1);
      }
    }
  }

  /** For every histogram, both decoders agree on every input. */
  lemma DecodersAgree(j: JpegTable, t: Table, bits: Histogram, values: seq<byte>, s: BitStream, p: nat)
    requires Ready(j, bits, values) && Built(t, bits, values) && WellSized(t)
    ensures Search(j, Window(s, p, 16), 1) == Lookup(t, s, p)
  {
    SameSymbol(j, t, bits, values, Window(s, p, 16), 1);
  }
}
