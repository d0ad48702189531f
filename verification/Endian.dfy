/** Fixed-width numbers in bytes, in both byte orders. */
module Endian {
  import opened Bits

  /** Little-endian: least significant byte first. */
  function Le(v: nat, n: nat): (b: seq<byte>)
    ensures |b| == n
    decreases n, v
  {
    if n == 0 then [] else [v % 256] + Le(v / 256, n - 1)
  }

  function UintLe(b: seq<byte>): nat {
    if |b| == 0 then 0 else b[0] as int + 256 * UintLe(b[1..])
  }

  /** Big-endian: most significant byte first. */
  function Be(v: nat, n: nat): (b: seq<byte>)
    ensures |b| == n
    decreases n, v
  {
    if n == 0 then [] else Be(v / 256, n - 1) + [v % 256]
  }

  function UintBe(b: seq<byte>): nat {
    if |b| == 0 then 0 else 256 * UintBe(b[..|b| - 1]) + b[|b| - 1] as int
  }

  function Range(n: nat): (r: nat)
    ensures r >= 1
  {
    if n == 0 then 1 else 256 * Range(n - 1)
  }

  lemma Widths()
    ensures Range(2) == 0x1_0000 && Range(4) == 0x1_0000_0000
  {
    assert Range(0) == 1 && Range(1) == 0x100 && Range(2) == 0x1_0000 && Range(3) == 0x100_0000;
  }

  lemma OneMoreByte(v: nat, r: nat)
    requires r >= 1
    ensures v % (256 * r) == 256 * (v / 256 % r) + v % 256
  {
    var q, m := v / 256 / r, v / 256 % r;
    assert v / 256 == q * r + m;
    assert v == q * (256 * r) + (256 * m + v % 256) by {
      assert q * (256 * r) == 256 * (q * r);
    }
    ModOfSum(q, 256 * r, 256 * m + v % 256);
  }

  /** What is read back is the number modulo the width it was written in. */
  lemma {:induction false} LeRoundTrip(v: nat, n: nat)
    ensures UintLe(Le(v, n)) == v % Range(n)
  {
    if n > 0 {
      LeRoundTrip(v / 256, n - 1);
      OneMoreByte(v, Range(n - 1));
    }
  }

  lemma {:induction false} BeRoundTrip(v: nat, n: nat)
    ensures UintBe(Be(v, n)) == v % Range(n)
  {
    if n > 0 {
      BeRoundTrip(v / 256, n - 1);
      OneMoreByte(v, Range(n - 1));
      assert Be(v, n)[..n - 1] == Be(v / 256, n - 1);
    }
  }

  lemma LeFits(v: nat, n: nat)
    requires v < Range(n)
    ensures UintLe(Le(v, n)) == v
  {
    LeRoundTrip(v, n);
    ModOfSum(0, Range(n), v);
  }

  /** A number that fits is read back itself. */
  lemma BeFits(v: nat, n: nat)
    requires v < Range(n)
    ensures UintBe(Be(v, n)) == v
  {
    BeRoundTrip(v, n);
    ModOfSum(0, Range(n), v);
  }

  /** What the two byte orders are, for two and for four bytes. */
  lemma LittleFirst(a: byte, b: byte, c: byte, d: byte)
    ensures UintLe([a, b]) == a as int + 0x100 * b as int
    ensures UintLe([a, b, c, d]) == a as int + 0x100 * b as int + 0x1_0000 * c as int + 0x100_0000 * d as int
  {
    assert [a, b][1..] == [b] && [b][1..] == [] && UintLe([b]) == b as int;
    assert [a, b, c, d][1..] == [b, c, d] && [b, c, d][1..] == [c, d] && [c, d][1..] == [d] && [d][1..] == [];
    assert UintLe([d]) == d as int && UintLe([c, d]) == c as int + 0x100 * d as int;
    assert UintLe([b, c, d]) == b as int + 0x100 * UintLe([c, d]);
  }

  lemma BigFirst(a: byte, b: byte, c: byte, d: byte)
    ensures UintBe([a, b]) == 0x100 * a as int + b as int
    ensures UintBe([a, b, c, d]) == 0x100_0000 * a as int + 0x1_0000 * b as int + 0x100 * c as int + d as int
  {
    assert [a, b][..1] == [a] && [a][..0] == [] && UintBe([a]) == a as int;
    assert [a, b, c, d][..3] == [a, b, c] && [a, b, c][..2] == [a, b];
    assert UintBe([a, b]) == 0x100 * UintBe([a]) + b as int;
    assert UintBe([a, b, c]) == 0x100 * UintBe([a, b]) + c as int;
  }

  /** The same inside a longer string. */
  lemma BigAt(s: seq<byte>, i: nat)
    requires i + 4 <= |s|
    ensures UintBe(s[i..i + 2]) == 0x100 * s[i] as int + s[i + 1] as int
    ensures UintBe(s[i..i + 4]) == 0x100_0000 * s[i] as int + 0x1_0000 * s[i + 1] as int + 0x100 * s[i + 2] as int + s[i + 3] as int
  {
    assert s[i..i + 2] == [s[i], s[i + 1]] && s[i..i + 4] == [s[i], s[i + 1], s[i + 2], s[i + 3]];
    BigFirst(s[i], s[i + 1], s[i + 2], s[i + 3]);
  }

  lemma LittleAt(s: seq<byte>, i: nat)
    requires i + 4 <= |s|
    ensures UintLe(s[i..i + 2]) == s[i] as int + 0x100 * s[i + 1] as int
    ensures UintLe(s[i..i + 4]) == s[i] as int + 0x100 * s[i + 1] as int + 0x1_0000 * s[i + 2] as int + 0x100_0000 * s[i + 3] as int
  {
    assert s[i..i + 2] == [s[i], s[i + 1]] && s[i..i + 4] == [s[i], s[i + 1], s[i + 2], s[i + 3]];
    LittleFirst(s[i], s[i + 1], s[i + 2], s[i + 3]);
  }
}
