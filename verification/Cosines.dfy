/** The two passes of the integer transform against the cosines they stand for. */
module Cosines {
  import opened Coefficients
  import opened InverseDct

  /** Millionths of cos(j pi / 16) in the first quadrant. */
  function Quadrant(j: nat): (c: nat)
    ensures c == 0 <==> j >= 8
  {
    match j
    case 0 => 1_000_000
    case 1 => 980_785
    case 2 => 923_880
    case 3 => 831_470
    case 4 => 707_107
    case 5 => 555_570
    case 6 => 382_683
    case 7 => 195_090
    case _ => 0
  }

  /** The same for every angle. */
  function Cos(j: nat): int {
    var d := j % 32;
    if d <= 8 then Quadrant(d)
    else if d <= 16 then 0 - Quadrant(16 - d)
    else if d <= 24 then 0 - Quadrant(d - 16)
    else Quadrant(32 - d)
  }

  /** 2 cos(a)^2 = 1 + cos(2 a), up to rounding. */
  predicate HalfAngle(c: int, d: int) {
    -2_000_000 <= 2 * c * c - 1_000_000 * (1_000_000 + d) <= 2_000_000
  }

  /** These are cosines: positive down to 0 at the right angle, and fixed in between by the half angles. */
  lemma HalfAngles()
    ensures Cos(0) == 1_000_000 && Cos(8) == 0 && forall j :: 0 <= j < 8 ==> Cos(j) > 0
    ensures HalfAngle(Cos(0), Cos(0)) && HalfAngle(Cos(1), Cos(2)) && HalfAngle(Cos(2), Cos(4))
    ensures HalfAngle(Cos(3), Cos(6)) && HalfAngle(Cos(4), Cos(8)) && HalfAngle(Cos(5), Cos(10))
    ensures HalfAngle(Cos(6), Cos(12)) && HalfAngle(Cos(7), Cos(14)) && HalfAngle(Cos(8), Cos(16))
  {
  }

  /** The weights of the eight frequencies in sample `i`, in 256ths. */
  function Weights(i: nat): (w: Octet)
    requires i < 8
  {
    match i
    case 0 => [256, 256, 256, 256, 256, 256, 256, 256]
    case 1 => [256, 217, 106, -60, -256, -452, -618, -729]
    case 2 => [256, 145, -106, -302, -256, 90, 618, 1091]
    case 3 => [256, 51, -256, -171, 256, 383, -256, -1287]
    case 4 => [256, -51, -256, 171, 256, -383, -256, 1287]
    case 5 => [256, -145, -106, 302, -256, -90, 618, -1091]
    case 6 => [256, -217, 106, 60, -256, 452, -618, 729]
    case 7 => [256, -256, 256, -256, 256, -256, 256, -256]
  }

  /** `w` 256ths are the quotient of `d` and `c`, to the nearest one. */
  predicate Nearest(w: int, d: int, c: int) {
    c > 0 && -c < 2 * (w * c - 256 * d) < c
  }

  /** The weights of sample `i` are cos((2 i + 1) k pi / 16) over cos(k pi / 16), the factor that the quantisers are scaled
  with. */
  predicate Quotients(i: nat)
    requires i < 8
  {
    var w, a := Weights(i), 2 * i + 1;
    && Nearest(w[0], Cos(0), Cos(0)) && Nearest(w[1], Cos(a), Cos(1)) && Nearest(w[2], Cos(2 * a), Cos(2))
    && Nearest(w[3], Cos(3 * a), Cos(3)) && Nearest(w[4], Cos(4 * a), Cos(4)) && Nearest(w[5], Cos(5 * a), Cos(5))
    && Nearest(w[6], Cos(6 * a), Cos(6)) && Nearest(w[7], Cos(7 * a), Cos(7))
  }

  lemma Weights0()
    ensures Quotients(0)
  {
    assert Nearest(Weights(0)[0], Cos(0), Cos(0)) && Nearest(Weights(0)[1], Cos(1), Cos(1)) && Nearest(Weights(0)[2], Cos(2), Cos(2));
    assert Nearest(Weights(0)[3], Cos(3), Cos(3)) && Nearest(Weights(0)[4], Cos(4), Cos(4)) && Nearest(Weights(0)[5], Cos(5), Cos(5));
    assert Nearest(Weights(0)[6], Cos(6), Cos(6)) && Nearest(Weights(0)[7], Cos(7), Cos(7));
  }

  lemma Weights1()
    ensures Quotients(1)
  {
    assert Nearest(Weights(1)[0], Cos(0), Cos(0)) && Nearest(Weights(1)[1], Cos(3), Cos(1)) && Nearest(Weights(1)[2], Cos(6), Cos(2));
    assert Nearest(Weights(1)[3], Cos(9), Cos(3)) && Nearest(Weights(1)[4], Cos(12), Cos(4)) && Nearest(Weights(1)[5], Cos(15), Cos(5));
    assert Nearest(Weights(1)[6], Cos(18), Cos(6)) && Nearest(Weights(1)[7], Cos(21), Cos(7));
  }

  lemma Weights2()
    ensures Quotients(2)
  {
    assert Nearest(Weights(2)[0], Cos(0), Cos(0)) && Nearest(Weights(2)[1], Cos(5), Cos(1)) && Nearest(Weights(2)[2], Cos(10), Cos(2));
    assert Nearest(Weights(2)[3], Cos(15), Cos(3)) && Nearest(Weights(2)[4], Cos(20), Cos(4)) && Nearest(Weights(2)[5], Cos(25), Cos(5));
    assert Nearest(Weights(2)[6], Cos(30), Cos(6)) && Nearest(Weights(2)[7], Cos(35), Cos(7));
  }

  lemma Weights3()
    ensures Quotients(3)
  {
    assert Nearest(Weights(3)[0], Cos(0), Cos(0)) && Nearest(Weights(3)[1], Cos(7), Cos(1)) && Nearest(Weights(3)[2], Cos(14), Cos(2));
    assert Nearest(Weights(3)[3], Cos(21), Cos(3)) && Nearest(Weights(3)[4], Cos(28), Cos(4)) && Nearest(Weights(3)[5], Cos(35), Cos(5));
    assert Nearest(Weights(3)[6], Cos(42), Cos(6)) && Nearest(Weights(3)[7], Cos(49), Cos(7));
  }

  lemma Weights4()
    ensures Quotients(4)
  {
    assert Nearest(Weights(4)[0], Cos(0), Cos(0)) && Nearest(Weights(4)[1], Cos(9), Cos(1)) && Nearest(Weights(4)[2], Cos(18), Cos(2));
    assert Nearest(Weights(4)[3], Cos(27), Cos(3)) && Nearest(Weights(4)[4], Cos(36), Cos(4)) && Nearest(Weights(4)[5], Cos(45), Cos(5));
    assert Nearest(Weights(4)[6], Cos(54), Cos(6)) && Nearest(Weights(4)[7], Cos(63), Cos(7));
  }

  lemma Weights5()
    ensures Quotients(5)
  {
    assert Nearest(Weights(5)[0], Cos(0), Cos(0)) && Nearest(Weights(5)[1], Cos(11), Cos(1)) && Nearest(Weights(5)[2], Cos(22), Cos(2));
    assert Nearest(Weights(5)[3], Cos(33), Cos(3)) && Nearest(Weights(5)[4], Cos(44), Cos(4)) && Nearest(Weights(5)[5], Cos(55), Cos(5));
    assert Nearest(Weights(5)[6], Cos(66), Cos(6)) && Nearest(Weights(5)[7], Cos(77), Cos(7));
  }

  lemma Weights6()
    ensures Quotients(6)
  {
    assert Nearest(Weights(6)[0], Cos(0), Cos(0)) && Nearest(Weights(6)[1], Cos(13), Cos(1)) && Nearest(Weights(6)[2], Cos(26), Cos(2));
    assert Nearest(Weights(6)[3], Cos(39), Cos(3)) && Nearest(Weights(6)[4], Cos(52), Cos(4)) && Nearest(Weights(6)[5], Cos(65), Cos(5));
    assert Nearest(Weights(6)[6], Cos(78), Cos(6)) && Nearest(Weights(6)[7], Cos(91), Cos(7));
  }

  lemma Weights7()
    ensures Quotients(7)
  {
    assert Nearest(Weights(7)[0], Cos(0), Cos(0)) && Nearest(Weights(7)[1], Cos(15), Cos(1)) && Nearest(Weights(7)[2], Cos(30), Cos(2));
    assert Nearest(Weights(7)[3], Cos(45), Cos(3)) && Nearest(Weights(7)[4], Cos(60), Cos(4)) && Nearest(Weights(7)[5], Cos(75), Cos(5));
    assert Nearest(Weights(7)[6], Cos(90), Cos(6)) && Nearest(Weights(7)[7], Cos(105), Cos(7));
  }

  lemma WeightsAreQuotients(i: nat)
    requires i < 8
    ensures Quotients(i)
  {
    match i {
      case 0 => Weights0();
      case 1 => Weights1();
      case 2 => Weights2();
      case 3 => Weights3();
      case 4 => Weights4();
      case 5 => Weights5();
      case 6 => Weights6();
      case 7 => Weights7();
    }
  }

  function Partial(w: Octet, s: Octet, k: nat): int
    requires k <= 8
  {
    if k == 0 then 0 else Partial(w, s, k - 1) + w[k - 1] * s[k - 1]
  }

  function Dot(w: Octet, s: Octet): int {
    Partial(w, s, 8)
  }

  lemma DotIs(w: Octet, s: Octet)
    ensures Dot(w, s) == w[0] * s[0] + w[1] * s[1] + w[2] * s[2] + w[3] * s[3] + w[4] * s[4] + w[5] * s[5] + w[6] * s[6] + w[7] * s[7]
  {
    assert Partial(w, s, 0) == 0;
    assert Partial(w, s, 1) == w[0] * s[0];
    assert Partial(w, s, 2) == Partial(w, s, 1) + w[1] * s[1];
    assert Partial(w, s, 3) == Partial(w, s, 2) + w[2] * s[2];
    assert Partial(w, s, 4) == Partial(w, s, 3) + w[3] * s[3];
    assert Partial(w, s, 5) == Partial(w, s, 4) + w[4] * s[4];
    assert Partial(w, s, 6) == Partial(w, s, 5) + w[5] * s[5];
    assert Partial(w, s, 7) == Partial(w, s, 6) + w[6] * s[6];
  }

  // ---- one pass -----------------------------------------------------------

  /** What the truncated products cost a pass, in 256ths. */
  const SLACK: int := 765

  predicate Near(x: int, y: int, slack: int) {
    -slack <= x - y <= slack
  }

  lemma EvenCosines(s0: int, s2: int, s4: int, s6: int)
    ensures var a := ExactEven(s0, s2, s4, s6);
            && 256 * a.0 == 256 * s0 + 256 * s2 + 256 * s4 + 256 * s6
            && Near(256 * a.1, 256 * s0 + 106 * s2 - 256 * s4 - 618 * s6, 255)
            && Near(256 * a.2, 256 * s0 - 106 * s2 - 256 * s4 + 618 * s6, 255)
            && 256 * a.3 == 256 * s0 - 256 * s2 + 256 * s4 - 256 * s6
  {
  }

  lemma OddCosines(s1: int, s3: int, s5: int, s7: int)
    ensures var b := ExactOdd(s1, s3, s5, s7);
            && 256 * b.0 == 256 * s1 + 256 * s3 + 256 * s5 + 256 * s7
            && -510 <= 256 * b.1 - (217 * s1 - 60 * s3 - 452 * s5 - 729 * s7) <= 0
            && -255 <= 256 * b.2 - (145 * s1 - 302 * s3 + 90 * s5 + 1091 * s7) <= 510
            && -510 <= 256 * b.3 - (1287 * s7 - 51 * s1 + 171 * s3 - 383 * s5) <= 765
  {
  }

  /** Every output of a pass is the sum of its inputs, each with the cosine of its frequency there, to within 3. */
  lemma PassIsCosine(s: Octet, i: nat)
    requires i < 8
    ensures Near(256 * ExactButterfly(s)[i], Dot(Weights(i), s), SLACK)
  {
    EvenCosines(s[0], s[2], s[4], s[6]);
    OddCosines(s[1], s[3], s[5], s[7]);
    DotIs(Weights(i), s);
  }

  // ---- both passes --------------------------------------------------------

  /** The sum of all 64 dequantised coefficients, each with the cosines of its row and column frequency, at column `x` and
  row `y`, in 256ths of 256ths. */
  function Wave(q: Dequant, coef: Block, x: nat, y: nat): int
    requires x < 8 && y < 8
  {
    Dot(Weights(x), ColumnWaves(q, coef, y))
  }

  /** The same for each column on its own. */
  function ColumnWaves(q: Dequant, coef: Block, y: nat): (f: Octet)
    requires y < 8
  {
    seq(8, u requires 0 <= u < 8 => Dot(Weights(y), Column(q, coef, u)))
  }

  /** What both passes and the descaling cost, in the same unit: less than six grey levels. */
  const IDCT_SLACK: int := 2_885_332

  lemma TermNear(b: int, w: int, f: int, limit: nat)
    requires Near(256 * w, f, SLACK) && 0 - limit <= b <= limit
    ensures Near(256 * (b * w), b * f, SLACK * limit)
  {
    var e := 256 * w - f;
    assert 256 * (b * w) - b * f == b * e;
    if b >= 0 {
      Scaled(b, e, limit);
    } else {
      Scaled(-b, -e, limit);
      assert (-b) * (-e) == b * e;
    }
  }

  lemma Scaled(b: nat, e: int, limit: nat)
    requires b <= limit && -SLACK <= e <= SLACK
    ensures -(SLACK * limit) <= b * e <= SLACK * limit
  {
    NotNegative(b, SLACK - e);
    NotNegative(b, SLACK + e);
    NotNegative(limit - b, SLACK);
    assert b * (SLACK - e) == b * SLACK - b * e && b * (SLACK + e) == b * SLACK + b * e;
  }

  lemma NotNegative(a: int, b: int)
    requires a >= 0 && b >= 0
    ensures a * b >= 0
  {
  }

  function Size(b: int): nat {
    if b < 0 then -b else b
  }

  function Sizes(w: Octet, k: nat): nat
    requires k <= 8
  {
    if k == 0 then 0 else Sizes(w, k - 1) + Size(w[k - 1])
  }

  lemma {:induction false} DotNear(b: Octet, w: Octet, f: Octet, k: nat)
    requires k <= 8 && forall u :: 0 <= u < 8 ==> Near(256 * w[u], f[u], SLACK)
    ensures Near(256 * Partial(b, w, k), Partial(b, f, k), SLACK * Sizes(b, k))
  {
    if k > 0 {
      DotNear(b, w, f, k - 1);
      TermNear(b[k - 1], w[k - 1], f[k - 1], Size(b[k - 1]));
    }
  }

  lemma WeightSizes(i: nat)
    requires i < 8
    ensures Sizes(Weights(i), 8) <= 2916
  {
    var w := Weights(i);
    assert Sizes(w, 1) == Size(w[0]) && Sizes(w, 2) == Sizes(w, 1) + Size(w[1]);
    assert Sizes(w, 3) == Sizes(w, 2) + Size(w[2]) && Sizes(w, 4) == Sizes(w, 3) + Size(w[3]);
    assert Sizes(w, 5) == Sizes(w, 4) + Size(w[4]) && Sizes(w, 6) == Sizes(w, 5) + Size(w[5]);
    assert Sizes(w, 7) == Sizes(w, 6) + Size(w[6]);
  }

  /** The transform over the integers is the cosine sum, to within the slack. */
  lemma ExactIsCosine(q: Dequant, coef: Block, x: nat, y: nat)
    requires x < 8 && y < 8
    ensures Near(524_288 * Idct(EXACT, q, coef)[8 * y + x], Wave(q, coef, x, y), IDCT_SLACK)
  {
    var work := Columns(EXACT, q, coef);
    var row: Octet := work[8 * y..8 * y + 8];
    RowNear(q, coef, y);
    DotNear(Weights(x), row, ColumnWaves(q, coef, y), 8);
    WeightSizes(x);
    PassIsCosine(row, x);
    PixelAt(q, coef, x, y);
    Descaled(ExactButterfly(row)[x], Dot(Weights(x), row), Wave(q, coef, x, y), Sizes(Weights(x), 8));
  }

  lemma PixelAt(q: Dequant, coef: Block, x: nat, y: nat)
    requires x < 8 && y < 8
    ensures Idct(EXACT, q, coef)[8 * y + x] == ExactButterfly(Columns(EXACT, q, coef)[8 * y..8 * y + 8])[x] / 8
  {
    RowAt(Columns(EXACT, q, coef), x, y);
  }

  lemma RowAt(work: Block, x: nat, y: nat)
    requires x < 8 && y < 8
    ensures Rows(EXACT, work)[8 * y + x] == ExactButterfly(work[8 * y..8 * y + 8])[x] / 8
  {
    assert (8 * y + x) / 8 == y && (8 * y + x) % 8 == x;
  }

  lemma RowNear(q: Dequant, coef: Block, y: nat)
    requires y < 8
    ensures forall u :: 0 <= u < 8 ==> Near(256 * Columns(EXACT, q, coef)[8 * y..8 * y + 8][u], ColumnWaves(q, coef, y)[u], SLACK)
  {
    var work, f := Columns(EXACT, q, coef), ColumnWaves(q, coef, y);
    forall u | 0 <= u < 8
      ensures Near(256 * work[8 * y + u], f[u], SLACK)
    {
      ColumnNear(q, coef, y, u);
    }
    SliceNear(work, y, f);
  }

  lemma SliceNear(work: Block, y: nat, f: Octet)
    requires y < 8 && forall u :: 0 <= u < 8 ==> Near(256 * work[8 * y + u], f[u], SLACK)
    ensures forall u :: 0 <= u < 8 ==> Near(256 * work[8 * y..8 * y + 8][u], f[u], SLACK)
  {
  }

  lemma ColumnNear(q: Dequant, coef: Block, y: nat, u: nat)
    requires y < 8 && u < 8
    ensures Near(256 * Columns(EXACT, q, coef)[8 * y + u], ColumnWaves(q, coef, y)[u], SLACK)
  {
    ColumnAt(q, coef, y, u);
    PassIsCosine(Column(q, coef, u), y);
  }

  lemma ColumnAt(q: Dequant, coef: Block, y: nat, u: nat)
    requires y < 8 && u < 8
    ensures Columns(EXACT, q, coef)[8 * y + u] == ExactButterfly(Column(q, coef, u))[y]
  {
    assert (8 * y + u) / 8 == y && (8 * y + u) % 8 == u;
  }

  lemma Descaled(p: int, d: int, wave: int, sizes: nat)
    requires Near(256 * p, d, SLACK) && Near(256 * d, wave, SLACK * sizes) && sizes <= 2916
    ensures Near(524_288 * (p / 8), wave, IDCT_SLACK)
  {
  }

  /** So is what the code computes, for every block whose dequantised coefficients do not exceed 31000. */
  lemma IdctIsCosine(q: Dequant, coef: Block, x: nat, y: nat)
    requires x < 8 && y < 8 && forall i :: 0 <= i < 64 ==> -COEF_LIMIT <= q(i, coef[i]) <= COEF_LIMIT
    ensures Near(524_288 * Idct(CODE, q, coef)[8 * y + x], Wave(q, coef, x, y), IDCT_SLACK)
  {
    IdctExact(q, coef);
    ExactIsCosine(q, coef, x, y);
  }
}
