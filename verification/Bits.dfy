/** Machine words as bit sequences, and the infinite bit stream a packet body denotes.

A Go `uint32` is the sequence of its 32 bits, most significant first. Shifts and the
bitwise or are defined on those bits, so the width and the bits that fall off are explicit. */
module Bits {

  type byte = b: int | 0 <= b < 256

  type Word = w: seq<bool> | |w| == 32 witness seq(32, _ => false)

  function Pow2(n: nat): (r: nat)
    ensures r >= 1
  {
    if n == 0 then 1 else 2 * Pow2(n - 1)
  }

  lemma {:induction false} Pow2Add(a: nat, b: nat)
    ensures Pow2(a + b) == Pow2(a) * Pow2(b)
  {
    if b == 0 {
    } else {
      Pow2Add(a, b - 1);
      assert a + b - 1 == a + (b - 1);
    }
  }

  lemma {:induction false} Pow2Monotone(a: nat, b: nat)
    requires a <= b
    ensures Pow2(a) <= Pow2(b)
  {
    if a < b {
      Pow2Monotone(a, b - 1);
    }
  }

  function Zeros(n: nat): (r: seq<bool>)
    ensures |r| == n && forall i :: 0 <= i < n ==> !r[i]
  {
    seq(n, _ => false)
  }

  const ZERO: Word := Zeros(32)

  /** The unsigned number a bit sequence denotes, most significant bit first. */
  function Val(s: seq<bool>): nat {
    if |s| == 0 then 0 else 2 * Val(s[..|s| - 1]) + (if s[|s| - 1] then 1 else 0)
  }

  /** The `n`-bit binary form of `v`. */
  function BitsOf(v: nat, n: nat): (s: seq<bool>)
    ensures |s| == n
  {
    if n == 0 then [] else BitsOf(v / 2, n - 1) + [v % 2 == 1]
  }

  lemma {:induction false} ValBitsOf(v: nat, n: nat)
    requires v < Pow2(n)
    ensures Val(BitsOf(v, n)) == v
  {
    if n > 0 {
      ValBitsOf(v / 2, n - 1);
      assert BitsOf(v, n)[..n - 1] == BitsOf(v / 2, n - 1);
    }
  }

  lemma {:induction false} BitsOfVal(s: seq<bool>)
    ensures BitsOf(Val(s), |s|) == s
  {
    if |s| > 0 {
      var init := s[..|s| - 1];
      BitsOfVal(init);
      assert Val(s) / 2 == Val(init);
      assert s == init + [s[|s| - 1]];
    }
  }

  lemma BinaryForm(w: seq<bool>, v: nat)
    requires v < Pow2(|w|)
    ensures w == BitsOf(v, |w|) <==> Val(w) == v
  {
    ValBitsOf(v, |w|);
    BitsOfVal(w);
  }

  lemma {:induction false} ValBound(s: seq<bool>)
    ensures Val(s) < Pow2(|s|)
  {
    if |s| > 0 {
      ValBound(s[..|s| - 1]);
    }
  }

  lemma {:induction false} ValConcat(a: seq<bool>, b: seq<bool>)
    ensures Val(a + b) == Val(a) * Pow2(|b|) + Val(b)
  {
    if |b| == 0 {
      assert a + b == a;
    } else {
      var n := |b| - 1;
      var s, init, bit := a + b, b[..n], if b[n] then 1 else 0;
      ValConcat(a, init);
      assert |s| > 0 && s[|s| - 1] == b[n];
      assert s[..|s| - 1] == a + init;
      ShiftedSum(Val(a), Pow2(n), Val(init), bit);
    }
  }

  lemma ShiftedSum(x: int, p: int, y: int, bit: int)
    ensures 2 * (x * p + y) + bit == x * (2 * p) + (2 * y + bit)
  {
    Double(x, p);
  }

  lemma Double(x: int, y: int)
    ensures 2 * (x * y) == x * (2 * y)
  {
  }

  lemma {:induction false} ValZeros(n: nat)
    ensures Val(Zeros(n)) == 0
  {
    if n > 0 {
      ValZeros(n - 1);
      assert Zeros(n)[..n - 1] == Zeros(n - 1);
    }
  }

  function Shl(w: Word, n: nat): (r: Word) {
    if n >= 32 then ZERO else w[n..] + Zeros(n)
  }

  function Shr(w: Word, n: nat): (r: Word) {
    if n >= 32 then ZERO else Zeros(n) + w[..32 - n]
  }

  function Or(a: Word, b: Word): (r: Word) {
    seq(32, i requires 0 <= i < 32 => a[i] || b[i])
  }

  /** A right shift keeps the top bits: its value is that of the remaining prefix. */
  lemma ShrVal(w: Word, n: nat)
    requires n <= 32
    ensures Val(Shr(w, n)) == Val(w[..32 - n])
  {
    if n < 32 {
      ValConcat(Zeros(n), w[..32 - n]);
      ValZeros(n);
    } else {
      ValZeros(32);
    }
  }

  /** Masking a shifted word selects a field of its bits. */
  lemma FieldVal(w: Word, shift: nat, width: nat)
    requires shift + width <= 32
    ensures Val(Shr(w, shift)) % Pow2(width) == Val(w[32 - shift - width..32 - shift])
  {
    ShrVal(w, shift);
    var s := w[..32 - shift];
    LowBits(s, width);
    assert s[|s| - width..] == w[32 - shift - width..32 - shift];
  }

  lemma Halves(s: seq<bool>, k: nat)
    requires k <= |s|
    ensures s[..k] + s[k..] == s
  {
  }

  lemma LowBits(s: seq<bool>, width: nat)
    requires width <= |s|
    ensures Val(s) % Pow2(width) == Val(s[|s| - width..])
  {
    var hi, lo := s[..|s| - width], s[|s| - width..];
    Halves(s, |s| - width);
    LowPart(hi, lo);
  }

  lemma LowPart(hi: seq<bool>, lo: seq<bool>)
    ensures Val(hi + lo) % Pow2(|lo|) == Val(lo)
  {
    ValConcat(hi, lo);
    ValBound(lo);
    ModOfSum(Val(hi), Pow2(|lo|), Val(lo));
  }

  lemma ModOfSum(q: int, m: int, r: int)
    requires 0 <= r < m
    ensures (q * m + r) % m == r && (q * m + r) / m == q
  {
    var x := q * m + r;
    assert x == m * (x / m) + x % m;
    var d := x / m - q;
    assert m * d == r - x % m by {
      assert m * (x / m) - m * q == m * d;
    }
    assert d >= 1 ==> m * d >= m;
    assert d <= -1 ==> m * d <= -m;
  }

  // ---- the infinite stream ------------------------------------------------

  type BitStream = nat -> bool

  function Window(s: BitStream, p: nat, n: nat): (w: seq<bool>)
    ensures |w| == n
    ensures forall i {:trigger w[i]} :: 0 <= i < n ==> w[i] == s(p + i)
  {
    seq(n, (i: nat) => s(p + i))
  }

  lemma FirstBit(s: BitStream, p: nat)
    ensures Val(Window(s, p, 1)) == if s(p) then 1 else 0
  {
    assert Window(s, p, 1)[0] == s(p + 0);
    assert Val(Window(s, p, 1)[..0]) == 0;
  }

  lemma WindowSplit(s: BitStream, p: nat, a: nat, b: nat)
    ensures Window(s, p, a + b) == Window(s, p, a) + Window(s, p + a, b)
  {
  }

  lemma WindowPrefix(s: BitStream, p: nat, m: nat, n: nat)
    requires n <= m
    ensures Window(s, p, m)[..n] == Window(s, p, n)
  {
  }

  lemma SameWindow(s: BitStream, p: nat, w: seq<bool>)
    requires forall i :: 0 <= i < |w| ==> s(p + i) == w[i]
    ensures Window(s, p, |w|) == w
  {
  }

  /** The bits of a sequence of words, each most significant bit first, then zeros for ever. */
  function WordStream(ws: seq<Word>): BitStream {
    (i: nat) => i / 32 < |ws| && ws[i / 32][i % 32]
  }

  /** Word `k` of the zero-extended sequence. */
  function WordAt(ws: seq<Word>, k: nat): (w: Word) {
    if k < |ws| then ws[k] else ZERO
  }

  lemma BitOfWord(ws: seq<Word>, x: nat, k: nat, i: nat)
    requires x == 32 * k + i && i < 32
    ensures WordStream(ws)(x) == WordAt(ws, k)[i]
  {
    assert x / 32 == k;
    assert x % 32 == i;
  }

  lemma WordIsWindow(ws: seq<Word>, k: nat)
    ensures Window(WordStream(ws), 32 * k, 32) == WordAt(ws, k)
  {
    forall i | 0 <= i < 32
      ensures WordStream(ws)(32 * k + i) == WordAt(ws, k)[i]
    {
      BitOfWord(ws, 32 * k + i, k, i);
    }
    SameWindow(WordStream(ws), 32 * k, WordAt(ws, k));
  }

  /** Word `k` of a packet body: four bytes, least significant byte first. */
  function PackedWord(src: seq<byte>, k: nat): (w: Word)
    requires 4 * k + 4 <= |src|
  {
    BitsOf(src[4 * k + 3], 8) + BitsOf(src[4 * k + 2], 8) + BitsOf(src[4 * k + 1], 8) + BitsOf(src[4 * k], 8)
  }

  /** The whole words of a packet body. */
  function Words(src: seq<byte>): (ws: seq<Word>)
    ensures |ws| == |src| / 4
    ensures forall k :: 0 <= k < |ws| ==> ws[k] == PackedWord(src, k)
  {
    seq(|src| / 4, k requires 0 <= k < |src| / 4 => PackedWord(src, k))
  }

  /** The bits of a packet body: its whole words in order, each most significant bit first,
  then zeros for ever. */
  function Packed(src: seq<byte>): BitStream {
    WordStream(Words(src))
  }

  /** The value of a byte, widened to 32 bits and shifted into place. */
  lemma ByteInWord(b: byte, n: nat)
    requires n <= 24
    ensures Shl(BitsOf(b, 32), n) == Zeros(24 - n) + BitsOf(b, 8) + Zeros(n)
  {
    WidenByte(b, 24);
  }

  lemma {:induction false} WidenByte(v: nat, k: nat)
    requires v < 256
    ensures BitsOf(v, 8 + k) == Zeros(k) + BitsOf(v, 8)
  {
    ValConcat(Zeros(k), BitsOf(v, 8));
    ValZeros(k);
    ValBitsOf(v, 8);
    BitsOfVal(Zeros(k) + BitsOf(v, 8));
  }

  /** Four bytes at their places in a word, or-ed together, are their concatenation. */
  lemma OrBytes(a: seq<bool>, b: seq<bool>, c: seq<bool>, d: seq<bool>)
    requires |a| == 8 && |b| == 8 && |c| == 8 && |d| == 8
    ensures Or(Or(Or(Zeros(24) + a, Zeros(16) + b + Zeros(8)), Zeros(8) + c + Zeros(16)), d + Zeros(24)) == d + c + b + a
  {
  }

  /** The `readWord` expression: four bytes shifted into place and or-ed together. */
  lemma LittleEndianWord(b0: byte, b1: byte, b2: byte, b3: byte)
    ensures Or(Or(Or(BitsOf(b0, 32), Shl(BitsOf(b1, 32), 8)), Shl(BitsOf(b2, 32), 16)), Shl(BitsOf(b3, 32), 24))
         == BitsOf(b3, 8) + BitsOf(b2, 8) + BitsOf(b1, 8) + BitsOf(b0, 8)
  {
    WidenByte(b0, 24);
    ByteInWord(b1, 8);
    ByteInWord(b2, 16);
    ByteInWord(b3, 24);
    assert Zeros(0) + BitsOf(b3, 8) == BitsOf(b3, 8);
    OrBytes(BitsOf(b0, 8), BitsOf(b1, 8), BitsOf(b2, 8), BitsOf(b3, 8));
  }

  // ---- packing bits into a body -------------------------------------------

  function FirstBits(bits: seq<bool>): (w: Word) {
    if |bits| < 32 then bits + Zeros(32 - |bits|) else bits[..32]
  }

  function LaterBits(bits: seq<bool>): (rest: seq<bool>) {
    if |bits| < 32 then [] else bits[32..]
  }

  /** The words that carry `bits`, the last one padded with zeros. */
  function ToWords(bits: seq<bool>): (ws: seq<Word>)
    decreases |bits|
  {
    if |bits| == 0 then [] else [FirstBits(bits)] + ToWords(LaterBits(bits))
  }

  lemma {:induction false} ToWordsCarries(bits: seq<bool>, i: nat)
    ensures WordStream(ToWords(bits))(i) == (i < |bits| && bits[i])
    decreases |bits|
  {
    if |bits| > 0 {
      var w, rest := FirstBits(bits), LaterBits(bits);
      PrependWord(w, ToWords(rest), i);
      if i >= 32 {
        ToWordsCarries(rest, i - 32);
      }
    }
  }

  lemma PrependWord(w: Word, ws: seq<Word>, i: nat)
    ensures WordStream([w] + ws)(i) == if i < 32 then w[i] else WordStream(ws)(i - 32)
  {
    var k, r := i / 32, i % 32;
    BitOfWord([w] + ws, i, k, r);
    if i >= 32 {
      BitOfWord(ws, i - 32, k - 1, r);
    }
  }

  function PackWord(w: Word): (b: seq<byte>)
    ensures |b| == 4
  {
    ValBound(w[..8]); ValBound(w[8..16]); ValBound(w[16..24]); ValBound(w[24..]);
    assert Pow2(8) == 256;
    [Val(w[24..]), Val(w[16..24]), Val(w[8..16]), Val(w[..8])]
  }

  function ToBytes(ws: seq<Word>): (src: seq<byte>)
    ensures |src| == 4 * |ws|
  {
    if |ws| == 0 then [] else PackWord(ws[0]) + ToBytes(ws[1..])
  }

  lemma PackWordInverse(w: Word, rest: seq<byte>)
    ensures PackedWord(PackWord(w) + rest, 0) == w
  {
    var src := PackWord(w) + rest;
    ByteInverse(w[24..], src[0]);
    ByteInverse(w[16..24], src[1]);
    ByteInverse(w[8..16], src[2]);
    ByteInverse(w[..8], src[3]);
    FourBytes(w);
  }

  lemma FourBytes(w: Word)
    ensures w[..8] + w[8..16] + w[16..24] + w[24..] == w
  {
  }

  lemma ByteInverse(w: seq<bool>, b: byte)
    requires |w| == 8 && b == Val(w)
    ensures BitsOf(b, 8) == w
  {
    BitsOfVal(w);
  }

  lemma {:induction false} WordsOfBytes(ws: seq<Word>)
    ensures Words(ToBytes(ws)) == ws
  {
    if |ws| > 0 {
      var head, tail := PackWord(ws[0]), ToBytes(ws[1..]);
      WordsOfBytes(ws[1..]);
      PackWordInverse(ws[0], tail);
      ShiftWords(head, tail);
      assert ws == [ws[0]] + ws[1..];
    }
  }

  lemma ShiftWords(head: seq<byte>, tail: seq<byte>)
    requires |head| == 4
    ensures Words(head + tail) == [PackedWord(head + tail, 0)] + Words(tail)
  {
    var all := head + tail;
    assert |all| / 4 == |tail| / 4 + 1;
    forall k | 1 <= k < |all| / 4
      ensures PackedWord(all, k) == PackedWord(tail, k - 1)
    {
      assert all[4 * k] == tail[4 * (k - 1)] && all[4 * k + 1] == tail[4 * (k - 1) + 1];
      assert all[4 * k + 2] == tail[4 * (k - 1) + 2] && all[4 * k + 3] == tail[4 * (k - 1) + 3];
    }
  }

  /** The packet body that carries `bits`. */
  function Pack(bits: seq<bool>): (src: seq<byte>) {
    ToBytes(ToWords(bits))
  }

  lemma PackedBit(bits: seq<bool>, i: nat)
    ensures Packed(Pack(bits))(i) == (i < |bits| && bits[i])
  {
    WordsOfBytes(ToWords(bits));
    ToWordsCarries(bits, i);
  }

  /** Packing loses nothing: the stream of the packed body starts with the bits and is zero after. */
  lemma PackedPack(bits: seq<bool>)
    ensures Window(Packed(Pack(bits)), 0, |bits|) == bits
    ensures forall i: nat :: i >= |bits| ==> !Packed(Pack(bits))(i)
  {
    var s := Packed(Pack(bits));
    forall i: nat
      ensures s(i) == (i < |bits| && bits[i])
    {
      PackedBit(bits, i);
    }
    StartsWith(s, bits);
  }

  lemma StartsWith(s: BitStream, bits: seq<bool>)
    requires forall i: nat :: s(i) == (i < |bits| && bits[i])
    ensures Window(s, 0, |bits|) == bits
  {
  }

  /** As a number, a word of a packet body has its first byte lowest. */
  lemma PackedWordValue(src: seq<byte>, k: nat)
    requires 4 * k + 4 <= |src|
    ensures Val(PackedWord(src, k))
         == src[4 * k] as int + 0x100 * src[4 * k + 1] as int + 0x1_0000 * src[4 * k + 2] as int + 0x100_0000 * src[4 * k + 3] as int
  {
    var a, b, c, d := BitsOf(src[4 * k], 8), BitsOf(src[4 * k + 1], 8), BitsOf(src[4 * k + 2], 8), BitsOf(src[4 * k + 3], 8);
    assert Pow2(8) == 256;
    ValBitsOf(src[4 * k], 8);
    ValBitsOf(src[4 * k + 1], 8);
    ValBitsOf(src[4 * k + 2], 8);
    ValBitsOf(src[4 * k + 3], 8);
    ValConcat(d, c);
    ValConcat(d + c, b);
    ValConcat(d + c + b, a);
  }
}
