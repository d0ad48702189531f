/** The scan order of the codec: natural (raster) positions and their zigzag positions. */
module ZigZagOrder {

  /** A scan order visits each of the 64 natural positions once, starting at the DC coefficient. */
  ghost predicate IsScanOrder(inv: seq<nat>) {
    && |inv| == 64 && inv[0] == 0
    && (forall k :: 0 <= k < 64 ==> inv[k] < 64)
    && (forall j, k :: 0 <= j < k < 64 ==> inv[j] != inv[k])
    && (forall n :: 0 <= n < 64 ==> n in inv)
  }

  type ScanOrder = inv: seq<nat> | IsScanOrder(inv) ghost witness Raster()

  function Raster(): (inv: seq<nat>)
    ensures IsScanOrder(inv)
  {
    var inv: seq<nat> := seq(64, i => i);
    assert forall n {:trigger n in inv} :: 0 <= n < 64 ==> inv[n] in inv;
    inv
  }

  const ZIGZAG: seq<seq<nat>> := [
    [0, 1, 5, 6, 14, 15, 27, 28],
    [2, 4, 7, 13, 16, 26, 29, 42],
    [3, 8, 12, 17, 25, 30, 41, 43],
    [9, 11, 18, 24, 31, 40, 44, 53],
    [10, 19, 23, 32, 39, 45, 52, 54],
    [20, 22, 33, 38, 46, 51, 55, 60],
    [21, 34, 37, 47, 50, 56, 59, 61],
    [35, 36, 48, 49, 57, 58, 62, 63]]

  /** The order in which the zigzag scan visits the natural positions. */
  const SCAN: seq<seq<nat>> := [
    [0, 1, 8, 16, 9, 2, 3, 10],
    [17, 24, 32, 25, 18, 11, 4, 5],
    [12, 19, 26, 33, 40, 48, 41, 34],
    [27, 20, 13, 6, 7, 14, 21, 28],
    [35, 42, 49, 56, 57, 50, 43, 36],
    [29, 22, 15, 23, 30, 37, 44, 51],
    [58, 59, 52, 45, 38, 31, 39, 46],
    [53, 60, 61, 54, 47, 55, 62, 63]]

  /** The zigzag order of two natural positions: by antidiagonal, and along one with an even sum of row and column from
  its bottom row up, along an odd one from its top row down. */
  predicate Before(m: nat, n: nat) {
    var s, t := m / 8 + m % 8, n / 8 + n % 8;
    s < t || (s == t && if s % 2 == 0 then m / 8 > n / 8 else m / 8 < n / 8)
  }

  predicate Zigzags(inv: seq<nat>) {
    |inv| == 64 && forall j, k :: 0 <= j < k < 64 ==> Before(inv[j], inv[k])
  }

  lemma Shape()
    ensures |ZIGZAG| == 8 && forall i :: 0 <= i < 8 ==> |ZIGZAG[i]| == 8
    ensures |SCAN| == 8 && forall i :: 0 <= i < 8 ==> |SCAN[i]| == 8
  {
  }

  function ZigZag(natural: nat): (k: nat)
    requires natural < 64
  {
    Shape();
    ZIGZAG[natural / 8][natural % 8]
  }

  function InvZigZag(k: nat): (natural: nat)
    requires k < 64
  {
    Shape();
    SCAN[k / 8][k % 8]
  }

  predicate UndoesZigZag(inv: seq<nat>) {
    |inv| == 64 && forall n :: 0 <= n < 64 ==> ZigZag(n) < 64 && inv[ZigZag(n)] == n
  }

  /** The two tables are inverse permutations of the 64 positions. */
  lemma ZigZagThenBack(n: nat)
    requires n < 64
    ensures ZigZag(n) < 64 && InvZigZag(ZigZag(n)) == n
  {
    if n < 32 {
      UpperThenBack(n);
    } else {
      LowerThenBack(n);
    }
  }

  lemma UpperThenBack(n: nat)
    requires n < 32
    ensures ZigZag(n) < 64 && InvZigZag(ZigZag(n)) == n
  {
    Shape();
  }

  lemma LowerThenBack(n: nat)
    requires 32 <= n < 64
    ensures ZigZag(n) < 64 && InvZigZag(ZigZag(n)) == n
  {
    Shape();
  }

  lemma BackThenZigZag(k: nat)
    requires k < 64
    ensures InvZigZag(k) < 64 && ZigZag(InvZigZag(k)) == k
  {
    if k < 32 {
      BackThenUpper(k);
    } else {
      BackThenLower(k);
    }
  }

  lemma BackThenUpper(k: nat)
    requires k < 32
    ensures InvZigZag(k) < 64 && ZigZag(InvZigZag(k)) == k
  {
    Shape();
  }

  lemma BackThenLower(k: nat)
    requires 32 <= k < 64
    ensures InvZigZag(k) < 64 && ZigZag(InvZigZag(k)) == k
  {
    Shape();
  }

  lemma Row0(j: nat)
    requires j < 7
    ensures |SCAN| == 8 && |SCAN[0]| == 8 && Before(SCAN[0][j], SCAN[0][j + 1])
  {
  }

  lemma Row1(j: nat)
    requires j < 7
    ensures |SCAN| == 8 && |SCAN[1]| == 8 && Before(SCAN[1][j], SCAN[1][j + 1])
  {
  }

  lemma Row2(j: nat)
    requires j < 7
    ensures |SCAN| == 8 && |SCAN[2]| == 8 && Before(SCAN[2][j], SCAN[2][j + 1])
  {
  }

  lemma Row3(j: nat)
    requires j < 7
    ensures |SCAN| == 8 && |SCAN[3]| == 8 && Before(SCAN[3][j], SCAN[3][j + 1])
  {
  }

  lemma Row4(j: nat)
    requires j < 7
    ensures |SCAN| == 8 && |SCAN[4]| == 8 && Before(SCAN[4][j], SCAN[4][j + 1])
  {
  }

  lemma Row5(j: nat)
    requires j < 7
    ensures |SCAN| == 8 && |SCAN[5]| == 8 && Before(SCAN[5][j], SCAN[5][j + 1])
  {
  }

  lemma Row6(j: nat)
    requires j < 7
    ensures |SCAN| == 8 && |SCAN[6]| == 8 && Before(SCAN[6][j], SCAN[6][j + 1])
  {
  }

  lemma Row7(j: nat)
    requires j < 7
    ensures |SCAN| == 8 && |SCAN[7]| == 8 && Before(SCAN[7][j], SCAN[7][j + 1])
  {
  }

  lemma RowStep(i: nat, j: nat)
    requires i < 8 && j < 7
    ensures |SCAN| == 8 && |SCAN[i]| == 8 && Before(SCAN[i][j], SCAN[i][j + 1])
  {
    match i {
      case 0 => Row0(j);
      case 1 => Row1(j);
      case 2 => Row2(j);
      case 3 => Row3(j);
      case 4 => Row4(j);
      case 5 => Row5(j);
      case 6 => Row6(j);
      case 7 => Row7(j);
    }
  }

  lemma NextRows(i: nat)
    requires i < 7
    ensures Before(SCAN[i][7], SCAN[i + 1][0])
  {
    Shape();
  }

  lemma ScanStep(k: nat)
    requires k < 63
    ensures Before(InvZigZag(k), InvZigZag(k + 1))
  {
    var i, j := k / 8, k % 8;
    if j == 7 {
      assert (k + 1) / 8 == i + 1 && (k + 1) % 8 == 0;
      NextRows(i);
    } else {
      assert (k + 1) / 8 == i && (k + 1) % 8 == j + 1;
      RowStep(i, j);
    }
  }

  lemma {:induction false} Chain(inv: seq<nat>, j: nat, k: nat)
    requires j < k < |inv| && forall i :: 0 <= i < |inv| - 1 ==> Before(inv[i], inv[i + 1])
    ensures Before(inv[j], inv[k])
    decreases k
  {
    assert Before(inv[k - 1], inv[k - 1 + 1]);
    if j < k - 1 {
      Chain(inv, j, k - 1);
    }
  }

  /** The zigzag table numbers the natural positions along the antidiagonals. */
  lemma ZigZagLaw(m: nat, n: nat)
    requires m < 64 && n < 64
    ensures ZigZag(m) < ZigZag(n) <==> Before(m, n)
  {
    ZigZagThenBack(m);
    ZigZagThenBack(n);
    var inv: seq<nat> := seq(64, k requires 0 <= k < 64 => InvZigZag(k));
    forall i | 0 <= i < 63
      ensures Before(inv[i], inv[i + 1])
    {
      ScanStep(i);
    }
    InOrder(inv, ZigZag(m), ZigZag(n));
  }

  lemma InOrder(inv: seq<nat>, j: nat, k: nat)
    requires j < |inv| && k < |inv| && forall i :: 0 <= i < |inv| - 1 ==> Before(inv[i], inv[i + 1])
    ensures j < k <==> Before(inv[j], inv[k])
  {
    if j < k {
      Chain(inv, j, k);
    } else if k < j {
      Chain(inv, k, j);
    }
  }

  /** The `init` loop that inverts the zigzag table yields the scan order along the antidiagonals. */
  method BuildInvZigZag() returns (inv: seq<nat>)
    ensures IsScanOrder(inv) && Zigzags(inv) && UndoesZigZag(inv)
  {
    var a := new nat[64](_ => 0);
    for n := 0 to 64
      invariant forall k :: 0 <= k < 64 && InvZigZag(k) < n ==> a[k] == InvZigZag(k)
    {
      ZigZagThenBack(n);
      forall k | 0 <= k < 64 && InvZigZag(k) == n
        ensures k == ZigZag(n)
      {
        BackThenZigZag(k);
      }
      a[ZigZag(n)] := n;
    }
    inv := a[..];
    Scans(inv);
  }

  lemma Scans(inv: seq<nat>)
    requires |inv| == 64 && forall k :: 0 <= k < 64 && InvZigZag(k) < 64 ==> inv[k] == InvZigZag(k)
    ensures IsScanOrder(inv) && Zigzags(inv) && UndoesZigZag(inv)
  {
    assert InvZigZag(0) == 0;
    forall k | 0 <= k < 64
      ensures inv[k] == InvZigZag(k) < 64
    {
      BackThenZigZag(k);
    }
    forall k | 0 <= k < 63
      ensures Before(inv[k], inv[k + 1])
    {
      ScanStep(k);
    }
    forall j, k | 0 <= j < k < 64
      ensures inv[j] != inv[k] && Before(inv[j], inv[k])
    {
      Chain(inv, j, k);
    }
    forall n | 0 <= n < 64
      ensures ZigZag(n) < 64 && inv[ZigZag(n)] == n && n in inv
    {
      ZigZagThenBack(n);
    }
  }
}
