/** The integer AAN inverse DCT in `int32` arithmetic, with dequantisation folded into its first pass.

The float product of a coefficient and its scaled quantiser, truncated to `int32`, is a parameter: any
function that keeps 0 at 0 and stays in `int32`. */
module InverseDct {
  import opened Coefficients

  const MAX_INT32: int := 0x7FFF_FFFF
  const MIN_INT32: int := -0x8000_0000

  /** Wrap-around of a Go `int32`. */
  function Wrap32(x: int): (r: int)
    ensures MIN_INT32 <= r <= MAX_INT32
  {
    if MIN_INT32 <= x <= MAX_INT32 then x else (x - MIN_INT32) % 0x1_0000_0000 + MIN_INT32
  }

  /** Dequantisation of the coefficient at a natural position. */
  type Dequant = f: (nat, int) -> int
    | (forall i: nat :: f(i, 0) == 0) && (forall i: nat, c: int :: MIN_INT32 <= f(i, c) <= MAX_INT32)
    ghost witness (i: nat, c: int) => 0

  type Octet = s: seq<int> | |s| == 8 witness [0, 0, 0, 0, 0, 0, 0, 0]

  /** The firmware's fixed-point multiply: (n * m) >> 8. */
  function AanMul(n: int, m: int): (r: int) {
    Wrap32(n * m) / 256
  }

  /** The even half of a 1-D pass: a17, a16, a15, a14. */
  function Even(s0: int, s2: int, s4: int, s6: int): (r: (int, int, int, int)) {
    var t13, t12, t11 := Wrap32(s0 + s4), Wrap32(s0 - s4), Wrap32(s2 + s6);
    var t10 := Wrap32(AanMul(Wrap32(s2 - s6), 362) - t11);
    (Wrap32(t13 + t11), Wrap32(t12 + t10), Wrap32(t12 - t10), Wrap32(t13 - t11))
  }

  /** The odd half: b6, b7, b8, b9. */
  function Odd(s1: int, s3: int, s5: int, s7: int): (r: (int, int, int, int)) {
    OddHead(Wrap32(s5 + s3), Wrap32(s5 - s3), Wrap32(s1 + s7), Wrap32(s1 - s7))
  }

  function OddHead(p5: int, p4: int, p3: int, p2: int): (r: (int, int, int, int)) {
    OddTail(Wrap32(p3 + p5), AanMul(Wrap32(p3 - p5), 362), AanMul(Wrap32(p4 + p2), 473), AanMul(p2, 277), AanMul(p4, -669))
  }

  /** What the odd half does with its products: b6, b12, bn, and the products of p2 and p4. */
  function OddTail(b6: int, b12: int, bn: int, m2: int, m4: int): (r: (int, int, int, int)) {
    var b13 := Wrap32(m2 - bn);
    var b10 := Wrap32(m4 + bn);
    var b7 := Wrap32(b10 - b6);
    var b8 := Wrap32(b12 - b7);
    (b6, b7, b8, Wrap32(b13 + b8))
  }

  function Join(a: (int, int, int, int), b: (int, int, int, int)): (r: Octet) {
    [Wrap32(a.0 + b.0), Wrap32(a.1 + b.1), Wrap32(a.2 + b.2), Wrap32(a.3 - b.3),
     Wrap32(a.3 + b.3), Wrap32(a.2 - b.2), Wrap32(a.1 - b.1), Wrap32(a.0 - b.0)]
  }

  /** One 1-D pass, every sum and difference wrapping in `int32`. */
  function Butterfly(s: Octet): (r: Octet) {
    Join(Even(s[0], s[2], s[4], s[6]),
         Odd(s[1], s[3], s[5], s[7]))
  }

  // ---- the same over the unbounded integers -------------------------------

  function ExactEven(s0: int, s2: int, s4: int, s6: int): (r: (int, int, int, int)) {
    var t11 := s2 + s6;
    var t10 := (s2 - s6) * 362 / 256 - t11;
    (s0 + s4 + t11, s0 - s4 + t10, s0 - s4 - t10, s0 + s4 - t11)
  }

  function ExactOdd(s1: int, s3: int, s5: int, s7: int): (r: (int, int, int, int)) {
    ExactOddHead(s5 + s3, s5 - s3, s1 + s7, s1 - s7)
  }

  function ExactOddHead(p5: int, p4: int, p3: int, p2: int): (r: (int, int, int, int)) {
    ExactOddTail(p3 + p5, (p3 - p5) * 362 / 256, (p4 + p2) * 473 / 256, p2 * 277 / 256, p4 * -669 / 256)
  }

  function ExactOddTail(b6: int, b12: int, bn: int, m2: int, m4: int): (r: (int, int, int, int)) {
    var b7 := m4 + bn - b6;
    var b8 := b12 - b7;
    (b6, b7, b8, m2 - bn + b8)
  }

  function ExactJoin(a: (int, int, int, int), b: (int, int, int, int)): (r: Octet) {
    [a.0 + b.0, a.1 + b.1, a.2 + b.2, a.3 - b.3, a.3 + b.3, a.2 - b.2, a.1 - b.1, a.0 - b.0]
  }

  function ExactButterfly(s: Octet): (r: Octet) {
    ExactJoin(ExactEven(s[0], s[2], s[4], s[6]), ExactOdd(s[1], s[3], s[5], s[7]))
  }

  // ---- no intermediate leaves int32 ---------------------------------------

  predicate Within(s: seq<int>, bound: int) {
    forall i :: 0 <= i < |s| ==> -bound <= s[i] <= bound
  }

  /** The largest dequantised coefficient, and the largest value that reaches the second pass. */
  const COEF_LIMIT: int := 31000
  const PASS_LIMIT: int := 1116006

  lemma EvenExact(s0: int, s2: int, s4: int, s6: int, b: int)
    requires b <= PASS_LIMIT
    requires -b <= s0 <= b && -b <= s2 <= b && -b <= s4 <= b && -b <= s6 <= b
    ensures Even(s0, s2, s4, s6) == ExactEven(s0, s2, s4, s6)
    ensures EvenBounded(ExactEven(s0, s2, s4, s6), b)
  {
  }

  predicate EvenBounded(r: (int, int, int, int), b: int) {
    && -4 * b <= r.0 <= 4 * b && -7 * b - 1 <= r.1 <= 7 * b + 1
    && -7 * b - 1 <= r.2 <= 7 * b + 1 && -4 * b <= r.3 <= 4 * b
  }

  predicate OddBounded(r: (int, int, int, int), b: int) {
    && -4 * b <= r.0 <= 4 * b && -17 * b - 2 <= r.1 <= 17 * b + 2
    && -23 * b - 3 <= r.2 <= 23 * b + 3 && -32 * b - 5 <= r.3 <= 32 * b + 5
  }

  lemma OddBound(s1: int, s3: int, s5: int, s7: int, b: int)
    requires -b <= s1 <= b && -b <= s3 <= b && -b <= s5 <= b && -b <= s7 <= b
    ensures OddBounded(ExactOdd(s1, s3, s5, s7), b)
  {
  }

  lemma OddExact(s1: int, s3: int, s5: int, s7: int, b: int)
    requires b <= PASS_LIMIT
    requires -b <= s1 <= b && -b <= s3 <= b && -b <= s5 <= b && -b <= s7 <= b
    ensures Odd(s1, s3, s5, s7) == ExactOdd(s1, s3, s5, s7)
  {
    HeadExact(s5 + s3, s5 - s3, s1 + s7, s1 - s7);
  }

  /** Magnitudes of the differences and products in the odd half. */
  predicate Small(x: int, limit: int) {
    -limit <= x <= limit
  }

  lemma HeadExact(p5: int, p4: int, p3: int, p2: int)
    requires Small(p5, 2 * PASS_LIMIT) && Small(p4, 2 * PASS_LIMIT) && Small(p3, 2 * PASS_LIMIT) && Small(p2, 2 * PASS_LIMIT)
    ensures OddHead(p5, p4, p3, p2) == ExactOddHead(p5, p4, p3, p2)
  {
    Mul362(p3 - p5);
    Mul473(p4 + p2);
    Mul277(p2);
    Mul669(p4);
    TailExact(p3 + p5, AanMul(p3 - p5, 362), AanMul(p4 + p2, 473), AanMul(p2, 277), AanMul(p4, -669));
  }

  lemma Mul362(n: int)
    requires Small(n, 4 * PASS_LIMIT)
    ensures AanMul(n, 362) == n * 362 / 256 && Small(n * 362 / 256, 10_000_000)
  {
  }

  lemma Mul473(n: int)
    requires Small(n, 4 * PASS_LIMIT)
    ensures AanMul(n, 473) == n * 473 / 256 && Small(n * 473 / 256, 10_000_000)
  {
  }

  lemma Mul277(n: int)
    requires Small(n, 2 * PASS_LIMIT)
    ensures AanMul(n, 277) == n * 277 / 256 && Small(n * 277 / 256, 10_000_000)
  {
  }

  lemma Mul669(n: int)
    requires Small(n, 2 * PASS_LIMIT)
    ensures AanMul(n, -669) == n * -669 / 256 && Small(n * -669 / 256, 10_000_000)
  {
  }

  lemma TailExact(b6: int, b12: int, bn: int, m2: int, m4: int)
    requires Small(b6, 10_000_000) && Small(b12, 10_000_000) && Small(bn, 10_000_000) && Small(m2, 10_000_000) && Small(m4, 10_000_000)
    ensures OddTail(b6, b12, bn, m2, m4) == ExactOddTail(b6, b12, bn, m2, m4)
  {
  }

  lemma JoinExact(a: (int, int, int, int), o: (int, int, int, int), b: int)
    requires 0 <= b <= PASS_LIMIT && EvenBounded(a, b) && OddBounded(o, b)
    ensures Join(a, o) == ExactJoin(a, o) && Within(ExactJoin(a, o), 36 * b + 6)
  {
  }

  predicate InInt32(steps: seq<int>) {
    forall i :: 0 <= i < |steps| ==> MIN_INT32 <= steps[i] <= MAX_INT32
  }

  /** Everything the even half computes, over the unbounded integers: sums, differences and the product before its
  shift. */
  function EvenSteps(s0: int, s2: int, s4: int, s6: int): seq<int> {
    var t11 := s2 + s6;
    var t10 := (s2 - s6) * 362 / 256 - t11;
    [s0 + s4, s0 - s4, t11, s2 - s6, (s2 - s6) * 362, t10, s0 + s4 + t11, s0 - s4 + t10, s0 - s4 - t10, s0 + s4 - t11]
  }

  /** Everything the odd half computes from its four sums and differences. */
  function OddSteps(p5: int, p4: int, p3: int, p2: int): seq<int> {
    var b6, b12, bn := p3 + p5, (p3 - p5) * 362 / 256, (p4 + p2) * 473 / 256;
    var b13, b10 := p2 * 277 / 256 - bn, p4 * -669 / 256 + bn;
    [p5, p4, p3, p2, b6, p3 - p5, (p3 - p5) * 362, p4 + p2, (p4 + p2) * 473, p2 * 277, p4 * -669]
    + [b13, b10, b10 - b6, b12 - (b10 - b6), b13 + (b12 - (b10 - b6))]
  }

  function PassSteps(s: Octet): seq<int> {
    EvenSteps(s[0], s[2], s[4], s[6]) + OddSteps(s[5] + s[3], s[5] - s[3], s[1] + s[7], s[1] - s[7]) + ExactButterfly(s)
  }

  lemma EvenStepsFit(s0: int, s2: int, s4: int, s6: int)
    requires Small(s0, PASS_LIMIT) && Small(s2, PASS_LIMIT) && Small(s4, PASS_LIMIT) && Small(s6, PASS_LIMIT)
    ensures InInt32(EvenSteps(s0, s2, s4, s6))
  {
  }

  lemma OddStepsFit(p5: int, p4: int, p3: int, p2: int)
    requires Small(p5, 2 * PASS_LIMIT) && Small(p4, 2 * PASS_LIMIT) && Small(p3, 2 * PASS_LIMIT) && Small(p2, 2 * PASS_LIMIT)
    ensures InInt32(OddSteps(p5, p4, p3, p2))
  {
    Mul362(p3 - p5);
    Mul473(p4 + p2);
    Mul277(p2);
    Mul669(p4);
  }

  /** One pass on bounded inputs: nothing it computes on the way leaves `int32`, so it is exact, and it grows its
  inputs at most 36-fold. */
  lemma PassExact(s: Octet, b: int)
    requires 0 <= b <= PASS_LIMIT && Within(s, b)
    ensures InInt32(PassSteps(s)) && Butterfly(s) == ExactButterfly(s)
    ensures Within(ExactButterfly(s), 36 * b + 6)
  {
    EvenExact(s[0], s[2], s[4], s[6], b);
    OddExact(s[1], s[3], s[5], s[7], b);
    OddBound(s[1], s[3], s[5], s[7], b);
    JoinExact(ExactEven(s[0], s[2], s[4], s[6]), ExactOdd(s[1], s[3], s[5], s[7]), b);
    EvenStepsFit(s[0], s[2], s[4], s[6]);
    OddStepsFit(s[5] + s[3], s[5] - s[3], s[1] + s[7], s[1] - s[7]);
  }

  // ---- what a pass means --------------------------------------------------

  /** The first entry is the mean: whatever the other seven, the outputs add up to eight times it. */
  lemma PassKeepsMean(s: Octet)
    ensures var r := ExactButterfly(s); r[0] + r[1] + r[2] + r[3] + r[4] + r[5] + r[6] + r[7] == 8 * s[0]
  {
    var a, o := ExactEven(s[0], s[2], s[4], s[6]), ExactOdd(s[1], s[3], s[5], s[7]);
    JoinSums(a, o);
    EvenSums(s[0], s[2], s[4], s[6]);
  }

  lemma JoinSums(a: (int, int, int, int), o: (int, int, int, int))
    ensures var r := ExactJoin(a, o);
            && r[0] + r[7] == 2 * a.0 && r[1] + r[6] == 2 * a.1 && r[2] + r[5] == 2 * a.2 && r[3] + r[4] == 2 * a.3
            && r[0] - r[7] == 2 * o.0 && r[1] - r[6] == 2 * o.1 && r[2] - r[5] == 2 * o.2 && r[4] - r[3] == 2 * o.3
  {
  }

  lemma EvenSums(s0: int, s2: int, s4: int, s6: int)
    ensures var a := ExactEven(s0, s2, s4, s6); a.0 + a.1 + a.2 + a.3 == 4 * s0
  {
  }

  /** Even entries make the symmetric part of the output and odd entries the antisymmetric part: inputs that agree
  on the even entries agree on the sums of mirrored outputs, inputs that agree on the odd entries on their
  differences. */
  lemma PassReflects(s: Octet, t: Octet, i: nat)
    requires i < 8
    ensures s[0] == t[0] && s[2] == t[2] && s[4] == t[4] && s[6] == t[6] ==>
              ExactButterfly(s)[i] + ExactButterfly(s)[7 - i] == ExactButterfly(t)[i] + ExactButterfly(t)[7 - i]
    ensures s[1] == t[1] && s[3] == t[3] && s[5] == t[5] && s[7] == t[7] ==>
              ExactButterfly(s)[i] - ExactButterfly(s)[7 - i] == ExactButterfly(t)[i] - ExactButterfly(t)[7 - i]
  {
    JoinReflects(ExactEven(s[0], s[2], s[4], s[6]), ExactOdd(s[1], s[3], s[5], s[7]),
                 ExactEven(t[0], t[2], t[4], t[6]), ExactOdd(t[1], t[3], t[5], t[7]), i);
  }

  lemma JoinReflects(a: (int, int, int, int), o: (int, int, int, int), a': (int, int, int, int), o': (int, int, int, int), i: nat)
    requires i < 8
    ensures var r, r' := ExactJoin(a, o), ExactJoin(a', o');
            && (a == a' ==> r[i] + r[7 - i] == r'[i] + r'[7 - i])
            && (o == o' ==> r[i] - r[7 - i] == r'[i] - r'[7 - i])
  {
    JoinSums(a, o);
    JoinSums(a', o');
  }

  // ---- the two passes -----------------------------------------------------

  /** Dequantised column `col` of a block. */
  function Column(q: Dequant, coef: Block, col: nat): (s: Octet)
    requires col < 8
  {
    [q(col, coef[col]), q(col + 8, coef[col + 8]), q(col + 16, coef[col + 16]), q(col + 24, coef[col + 24]),
     q(col + 32, coef[col + 32]), q(col + 40, coef[col + 40]), q(col + 48, coef[col + 48]), q(col + 56, coef[col + 56])]
  }

  function Columns(pass: Octet -> Octet, q: Dequant, coef: Block): (work: Block) {
    seq(64, n requires 0 <= n < 64 => pass(Column(q, coef, n % 8))[n / 8])
  }

  /** The row pass, descaled by >> 3. */
  function Rows(pass: Octet -> Octet, work: Block): (out: Block) {
    seq(64, n requires 0 <= n < 64 => pass(work[8 * (n / 8)..8 * (n / 8) + 8])[n % 8] / 8)
  }

  /** The inverse DCT of a block, with the general butterfly in every column and row. */
  function Idct(pass: Octet -> Octet, q: Dequant, coef: Block): (out: Block) {
    Rows(pass, Columns(pass, q, coef))
  }

  /** The pass the code computes, and the pass over the unbounded integers. */
  const CODE: Octet -> Octet := s => Butterfly(s)
  const EXACT: Octet -> Octet := s => ExactButterfly(s)

  /** Two passes that agree on bounded rows give the same transform of a bounded block. */
  lemma IdctAgrees(f: Octet -> Octet, g: Octet -> Octet, q: Dequant, coef: Block)
    requires forall i :: 0 <= i < 64 ==> -COEF_LIMIT <= q(i, coef[i]) <= COEF_LIMIT
    requires forall s: Octet :: Within(s, COEF_LIMIT) ==> f(s) == g(s) && Within(g(s), PASS_LIMIT)
    requires forall s: Octet :: Within(s, PASS_LIMIT) ==> f(s) == g(s)
    ensures Idct(f, q, coef) == Idct(g, q, coef)
    ensures forall col :: 0 <= col < 8 ==> Within(Column(q, coef, col), COEF_LIMIT)
    ensures forall n :: 0 <= n < 64 ==> -PASS_LIMIT <= Columns(g, q, coef)[n] <= PASS_LIMIT
  {
    ColumnsAgree(f, g, q, coef);
    RowsAgree(f, g, Columns(g, q, coef));
  }

  lemma ColumnsAgree(f: Octet -> Octet, g: Octet -> Octet, q: Dequant, coef: Block)
    requires forall i :: 0 <= i < 64 ==> -COEF_LIMIT <= q(i, coef[i]) <= COEF_LIMIT
    requires forall s: Octet :: Within(s, COEF_LIMIT) ==> f(s) == g(s) && Within(g(s), PASS_LIMIT)
    ensures forall col :: 0 <= col < 8 ==> Within(Column(q, coef, col), COEF_LIMIT)
    ensures Columns(f, q, coef) == Columns(g, q, coef)
    ensures forall n :: 0 <= n < 64 ==> -PASS_LIMIT <= Columns(g, q, coef)[n] <= PASS_LIMIT
  {
    forall n | 0 <= n < 64
      ensures Columns(f, q, coef)[n] == Columns(g, q, coef)[n]
      ensures -PASS_LIMIT <= Columns(g, q, coef)[n] <= PASS_LIMIT
    {
      assert Within(Column(q, coef, n % 8), COEF_LIMIT);
    }
  }

  lemma RowsAgree(f: Octet -> Octet, g: Octet -> Octet, work: Block)
    requires forall n :: 0 <= n < 64 ==> -PASS_LIMIT <= work[n] <= PASS_LIMIT
    requires forall s: Octet :: Within(s, PASS_LIMIT) ==> f(s) == g(s)
    ensures Rows(f, work) == Rows(g, work)
  {
    forall n | 0 <= n < 64
      ensures Rows(f, work)[n] == Rows(g, work)[n]
    {
      assert Within(work[8 * (n / 8)..8 * (n / 8) + 8], PASS_LIMIT);
    }
  }

  /** When no dequantised coefficient exceeds 31000 in magnitude, neither pass leaves `int32`: the code
  computes the integer transform exactly. */
  lemma IdctExact(q: Dequant, coef: Block)
    requires forall i :: 0 <= i < 64 ==> -COEF_LIMIT <= q(i, coef[i]) <= COEF_LIMIT
    ensures Idct(CODE, q, coef) == Idct(EXACT, q, coef)
    ensures forall col :: 0 <= col < 8 ==> InInt32(PassSteps(Column(q, coef, col)))
    ensures forall row :: 0 <= row < 8 ==> InInt32(PassSteps(Columns(EXACT, q, coef)[8 * row..8 * row + 8]))
  {
    forall s: Octet | Within(s, COEF_LIMIT)
      ensures CODE(s) == EXACT(s) && Within(EXACT(s), PASS_LIMIT)
    {
      PassExact(s, COEF_LIMIT);
    }
    forall s: Octet | Within(s, PASS_LIMIT)
      ensures CODE(s) == EXACT(s)
    {
      PassExact(s, PASS_LIMIT);
    }
    IdctAgrees(CODE, EXACT, q, coef);
    forall col | 0 <= col < 8
      ensures InInt32(PassSteps(Column(q, coef, col)))
    {
      PassExact(Column(q, coef, col), COEF_LIMIT);
    }
    RowStepsFit(Columns(EXACT, q, coef));
  }

  lemma RowStepsFit(work: Block)
    requires forall n :: 0 <= n < 64 ==> -PASS_LIMIT <= work[n] <= PASS_LIMIT
    ensures forall row :: 0 <= row < 8 ==> InInt32(PassSteps(work[8 * row..8 * row + 8]))
  {
    forall row | 0 <= row < 8
      ensures InInt32(PassSteps(work[8 * row..8 * row + 8]))
    {
      PassExact(work[8 * row..8 * row + 8], PASS_LIMIT);
    }
  }

  predicate FlatInput(s: Octet) {
    MIN_INT32 <= s[0] <= MAX_INT32 && forall i :: 1 <= i < 8 ==> s[i] == 0
  }

  predicate AllEqual(s: Octet, v: int) {
    forall i :: 0 <= i < 8 ==> s[i] == v
  }

  /** A column without AC terms: every output is its first entry. */
  lemma FlatColumn(s: Octet)
    requires FlatInput(s)
    ensures AllEqual(Butterfly(s), s[0])
  {
    OddZero();
    FlatJoin(s[0]);
    assert Butterfly(s) == Join(Even(s[0], 0, 0, 0), Odd(0, 0, 0, 0));
  }

  lemma OddZero()
    ensures Odd(0, 0, 0, 0) == (0, 0, 0, 0)
  {
    assert Wrap32(0) == 0;
    assert AanMul(0, 362) == 0 && AanMul(0, 473) == 0 && AanMul(0, 277) == 0 && AanMul(0, -669) == 0;
    assert OddTail(0, 0, 0, 0, 0) == (0, 0, 0, 0);
  }

  lemma FlatJoin(d: int)
    requires MIN_INT32 <= d <= MAX_INT32
    ensures Even(d, 0, 0, 0) == (d, d, d, d)
    ensures AllEqual(Join((d, d, d, d), (0, 0, 0, 0)), d)
  {
  }

  /** A block with only a DC coefficient is flat. */
  lemma FlatBlock(q: Dequant, dc: int)
    ensures forall n :: 0 <= n < 64 ==> Idct(CODE, q, DcBlock(dc))[n] == q(0, dc) / 8
  {
    CodeKeepsFlat();
    FlatIdct(CODE, q, dc);
  }

  lemma FlatIdct(pass: Octet -> Octet, q: Dequant, dc: int)
    requires KeepsFlat(pass)
    ensures forall n :: 0 <= n < 64 ==> Idct(pass, q, DcBlock(dc))[n] == q(0, dc) / 8
  {
    var work := Columns(pass, q, DcBlock(dc));
    FlatColumns(pass, q, dc);
    forall n | 0 <= n < 64
      ensures Rows(pass, work)[n] == q(0, dc) / 8
    {
      FlatRow(pass, work, q(0, dc), n / 8);
    }
  }

  /** Only the first entry of each row is left after the column pass. */
  predicate OnlyFirsts(work: Block, v: int) {
    forall n :: 0 <= n < 64 ==> work[n] == if n % 8 == 0 then v else 0
  }

  lemma FlatColumns(pass: Octet -> Octet, q: Dequant, dc: int)
    requires KeepsFlat(pass)
    ensures OnlyFirsts(Columns(pass, q, DcBlock(dc)), q(0, dc))
  {
    var coef := DcBlock(dc);
    var work := Columns(pass, q, coef);
    forall n | 0 <= n < 64
      ensures work[n] == if n % 8 == 0 then q(0, dc) else 0
    {
      FlatDequant(q, coef, n % 8);
      assert AllEqual(pass(Column(q, coef, n % 8)), Column(q, coef, n % 8)[0]);
    }
  }

  lemma FlatRow(pass: Octet -> Octet, work: Block, v: int, row: nat)
    requires KeepsFlat(pass) && row < 8 && MIN_INT32 <= v <= MAX_INT32 && OnlyFirsts(work, v)
    ensures AllEqual(pass(work[8 * row..8 * row + 8]), v)
  {
    var s: Octet := work[8 * row..8 * row + 8];
    forall i | 0 <= i < 8
      ensures s[i] == if i == 0 then v else 0
    {
      assert s[i] == work[8 * row + i] && (8 * row + i) % 8 == i;
    }
    assert FlatInput(s);
  }

  // ---- the code -----------------------------------------------------------

  method WriteColumn(work: array<int>, col: nat, v: Octet)
    requires work.Length == 64 && col < 8
    modifies work
    ensures forall n :: 0 <= n < 64 ==> work[n] == if n % 8 == col then v[n / 8] else old(work[n])
  {
    for i := 0 to 8
      invariant forall n :: 0 <= n < 64 ==> work[n] == if n % 8 == col && n / 8 < i then v[n / 8] else old(work[n])
    {
      work[col + 8 * i] := v[i];
    }
  }

  lemma FlatDequant(q: Dequant, coef: Block, col: nat)
    requires col < 8
    requires coef[col + 8] == 0 && coef[col + 16] == 0 && coef[col + 24] == 0 && coef[col + 32] == 0
    requires coef[col + 40] == 0 && coef[col + 48] == 0 && coef[col + 56] == 0
    ensures FlatInput(Column(q, coef, col))
  {
  }

  lemma SameOctet(a: Octet, b: Octet, v: int)
    requires AllEqual(a, v) && AllEqual(b, v)
    ensures a == b
  {
  }

  /** A pass that leaves a flat column flat. */
  ghost predicate KeepsFlat(pass: Octet -> Octet) {
    forall s :: FlatInput(s) ==> AllEqual(pass(s), s[0])
  }

  lemma CodeKeepsFlat()
    ensures KeepsFlat(CODE)
  {
    forall s | FlatInput(s)
      ensures AllEqual(CODE(s), s[0])
    {
      FlatColumn(s);
    }
  }

  /** One column, with the shortcut for a column without AC terms. */
  method ColumnPass(pass: Octet -> Octet, coef: Block, q: Dequant, col: nat) returns (v: Octet)
    requires col < 8 && KeepsFlat(pass)
    ensures v == pass(Column(q, coef, col))
  {
    if coef[col + 8] == 0 && coef[col + 16] == 0 && coef[col + 24] == 0 && coef[col + 32] == 0
      && coef[col + 40] == 0 && coef[col + 48] == 0 && coef[col + 56] == 0 {
      var dc := q(col, coef[col]);
      FlatDequant(q, coef, col);
      v := [dc, dc, dc, dc, dc, dc, dc, dc];
      SameOctet(pass(Column(q, coef, col)), v, dc);
    } else {
      v := pass(Column(q, coef, col));
    }
  }

  /** The column pass, then the row pass: the shortcut makes no difference. */
  method AvoIdctInt(coef: Block, q: Dequant) returns (out: Block)
    ensures out == Idct(CODE, q, coef)
  {
    CodeKeepsFlat();
    var work := ColumnPasses(CODE, coef, q);
    out := RowPasses(CODE, work);
  }

  method ColumnPasses(pass: Octet -> Octet, coef: Block, q: Dequant) returns (work: Block)
    requires KeepsFlat(pass)
    ensures work == Columns(pass, q, coef)
  {
    ghost var cols := Columns(pass, q, coef);
    var a := new int[64](_ => 0);
    for col := 0 to 8
      invariant forall n :: 0 <= n < 64 && n % 8 < col ==> a[n] == cols[n]
    {
      var v := ColumnPass(pass, coef, q, col);
      assert forall n :: 0 <= n < 64 && n % 8 == col ==> cols[n] == v[n / 8];
      WriteColumn(a, col, v);
    }
    work := a[..];
  }

  method RowPasses(pass: Octet -> Octet, work: Block) returns (out: Block)
    ensures out == Rows(pass, work)
  {
    var a := new int[64](_ => 0);
    ghost var rows := Rows(pass, work);
    for row := 0 to 8
      invariant forall n :: 0 <= n < 8 * row ==> a[n] == rows[n]
    {
      var r := pass(work[8 * row..8 * row + 8]);
      for i := 0 to 8
        invariant forall n :: 0 <= n < 8 * row + i ==> a[n] == rows[n]
      {
        assert (8 * row + i) / 8 == row && (8 * row + i) % 8 == i;
        a[8 * row + i] := r[i] / 8;
      }
    }
    out := a[..];
  }
}
