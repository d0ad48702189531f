/** The four Huffman tables baked into the codec, and what the decoder relies on about them:
their codes exist, they cover the symbols of a baseline block, and none of them stalls the AC loop. */
module StandardTables {
  import opened Bits
  import opened Huffman
  import opened CodeBooks

  const DC_LUMA_BITS: Histogram := [0, 0, 1, 5, 1, 1, 1, 1, 1, 1, 0, 0, 0, 0, 0, 0, 0]
  const DC_CHROMA_BITS: Histogram := [0, 0, 3, 1, 1, 1, 1, 1, 1, 1, 1, 1, 0, 0, 0, 0, 0]
  const DC_VALUES: seq<byte> := [0, 1, 2, 3, 4, 5, 6, 7, 8, 9, 10, 11]

  const AC_LUMA_BITS: Histogram := [0, 0, 2, 1, 3, 3, 2, 4, 3, 5, 5, 4, 4, 0, 0, 1, 125]
  const AC_CHROMA_BITS: Histogram := [0, 0, 2, 1, 2, 4, 4, 3, 4, 7, 5, 4, 4, 0, 1, 2, 119]

  const AC_LUMA_ROWS: seq<seq<byte>> := [
    [0x01, 0x02, 0x03, 0x00, 0x04, 0x11, 0x05, 0x12, 0x21, 0x31, 0x41, 0x06, 0x13, 0x51, 0x61, 0x07],
    [0x22, 0x71, 0x14, 0x32, 0x81, 0x91, 0xa1, 0x08, 0x23, 0x42, 0xb1, 0xc1, 0x15, 0x52, 0xd1, 0xf0],
    [0x24, 0x33, 0x62, 0x72, 0x82, 0x09, 0x0a, 0x16, 0x17, 0x18, 0x19, 0x1a, 0x25, 0x26, 0x27, 0x28],
    [0x29, 0x2a, 0x34, 0x35, 0x36, 0x37, 0x38, 0x39, 0x3a, 0x43, 0x44, 0x45, 0x46, 0x47, 0x48, 0x49],
    [0x4a, 0x53, 0x54, 0x55, 0x56, 0x57, 0x58, 0x59, 0x5a, 0x63, 0x64, 0x65, 0x66, 0x67, 0x68, 0x69],
    [0x6a, 0x73, 0x74, 0x75, 0x76, 0x77, 0x78, 0x79, 0x7a, 0x83, 0x84, 0x85, 0x86, 0x87, 0x88, 0x89],
    [0x8a, 0x92, 0x93, 0x94, 0x95, 0x96, 0x97, 0x98, 0x99, 0x9a, 0xa2, 0xa3, 0xa4, 0xa5, 0xa6, 0xa7],
    [0xa8, 0xa9, 0xaa, 0xb2, 0xb3, 0xb4, 0xb5, 0xb6, 0xb7, 0xb8, 0xb9, 0xba, 0xc2, 0xc3, 0xc4, 0xc5],
    [0xc6, 0xc7, 0xc8, 0xc9, 0xca, 0xd2, 0xd3, 0xd4, 0xd5, 0xd6, 0xd7, 0xd8, 0xd9, 0xda, 0xe1, 0xe2],
    [0xe3, 0xe4, 0xe5, 0xe6, 0xe7, 0xe8, 0xe9, 0xea, 0xf1, 0xf2, 0xf3, 0xf4, 0xf5, 0xf6, 0xf7, 0xf8],
    [0xf9, 0xfa]]

  /** Where the symbol of run `r` and size `s + 1` stands. */
  const LUMA_PLACES: seq<seq<(nat, nat)>> := [
    [(0, 0), (0, 1), (0, 2), (0, 4), (0, 6), (0, 11), (0, 15), (1, 7), (2, 5), (2, 6)],
    [(0, 5), (0, 7), (0, 12), (1, 2), (1, 12), (2, 7), (2, 8), (2, 9), (2, 10), (2, 11)],
    [(0, 8), (1, 0), (1, 8), (2, 0), (2, 12), (2, 13), (2, 14), (2, 15), (3, 0), (3, 1)],
    [(0, 9), (1, 3), (2, 1), (3, 2), (3, 3), (3, 4), (3, 5), (3, 6), (3, 7), (3, 8)],
    [(0, 10), (1, 9), (3, 9), (3, 10), (3, 11), (3, 12), (3, 13), (3, 14), (3, 15), (4, 0)],
    [(0, 13), (1, 13), (4, 1), (4, 2), (4, 3), (4, 4), (4, 5), (4, 6), (4, 7), (4, 8)],
    [(0, 14), (2, 2), (4, 9), (4, 10), (4, 11), (4, 12), (4, 13), (4, 14), (4, 15), (5, 0)],
    [(1, 1), (2, 3), (5, 1), (5, 2), (5, 3), (5, 4), (5, 5), (5, 6), (5, 7), (5, 8)],
    [(1, 4), (2, 4), (5, 9), (5, 10), (5, 11), (5, 12), (5, 13), (5, 14), (5, 15), (6, 0)],
    [(1, 5), (6, 1), (6, 2), (6, 3), (6, 4), (6, 5), (6, 6), (6, 7), (6, 8), (6, 9)],
    [(1, 6), (6, 10), (6, 11), (6, 12), (6, 13), (6, 14), (6, 15), (7, 0), (7, 1), (7, 2)],
    [(1, 10), (7, 3), (7, 4), (7, 5), (7, 6), (7, 7), (7, 8), (7, 9), (7, 10), (7, 11)],
    [(1, 11), (7, 12), (7, 13), (7, 14), (7, 15), (8, 0), (8, 1), (8, 2), (8, 3), (8, 4)],
    [(1, 14), (8, 5), (8, 6), (8, 7), (8, 8), (8, 9), (8, 10), (8, 11), (8, 12), (8, 13)],
    [(8, 14), (8, 15), (9, 0), (9, 1), (9, 2), (9, 3), (9, 4), (9, 5), (9, 6), (9, 7)],
    [(9, 8), (9, 9), (9, 10), (9, 11), (9, 12), (9, 13), (9, 14), (9, 15), (10, 0), (10, 1)]]

  const AC_CHROMA_ROWS: seq<seq<byte>> := [
    [0x00, 0x01, 0x02, 0x03, 0x11, 0x04, 0x05, 0x21, 0x31, 0x06, 0x12, 0x41, 0x51, 0x07, 0x61, 0x71],
    [0x13, 0x22, 0x32, 0x81, 0x08, 0x14, 0x42, 0x91, 0xa1, 0xb1, 0xc1, 0x09, 0x23, 0x33, 0x52, 0xf0],
    [0x15, 0x62, 0x72, 0xd1, 0x0a, 0x16, 0x24, 0x34, 0xe1, 0x25, 0xf1, 0x17, 0x18, 0x19, 0x1a, 0x26],
    [0x27, 0x28, 0x29, 0x2a, 0x35, 0x36, 0x37, 0x38, 0x39, 0x3a, 0x43, 0x44, 0x45, 0x46, 0x47, 0x48],
    [0x49, 0x4a, 0x53, 0x54, 0x55, 0x56, 0x57, 0x58, 0x59, 0x5a, 0x63, 0x64, 0x65, 0x66, 0x67, 0x68],
    [0x69, 0x6a, 0x73, 0x74, 0x75, 0x76, 0x77, 0x78, 0x79, 0x7a, 0x82, 0x83, 0x84, 0x85, 0x86, 0x87],
    [0x88, 0x89, 0x8a, 0x92, 0x93, 0x94, 0x95, 0x96, 0x97, 0x98, 0x99, 0x9a, 0xa2, 0xa3, 0xa4, 0xa5],
    [0xa6, 0xa7, 0xa8, 0xa9, 0xaa, 0xb2, 0xb3, 0xb4, 0xb5, 0xb6, 0xb7, 0xb8, 0xb9, 0xba, 0xc2, 0xc3],
    [0xc4, 0xc5, 0xc6, 0xc7, 0xc8, 0xc9, 0xca, 0xd2, 0xd3, 0xd4, 0xd5, 0xd6, 0xd7, 0xd8, 0xd9, 0xda],
    [0xe2, 0xe3, 0xe4, 0xe5, 0xe6, 0xe7, 0xe8, 0xe9, 0xea, 0xf2, 0xf3, 0xf4, 0xf5, 0xf6, 0xf7, 0xf8],
    [0xf9, 0xfa]]

  /** Where the symbol of run `r` and size `s + 1` stands. */
  const CHROMA_PLACES: seq<seq<(nat, nat)>> := [
    [(0, 1), (0, 2), (0, 3), (0, 5), (0, 6), (0, 9), (0, 13), (1, 4), (1, 11), (2, 4)],
    [(0, 4), (0, 10), (1, 0), (1, 5), (2, 0), (2, 5), (2, 11), (2, 12), (2, 13), (2, 14)],
    [(0, 7), (1, 1), (1, 12), (2, 6), (2, 9), (2, 15), (3, 0), (3, 1), (3, 2), (3, 3)],
    [(0, 8), (1, 2), (1, 13), (2, 7), (3, 4), (3, 5), (3, 6), (3, 7), (3, 8), (3, 9)],
    [(0, 11), (1, 6), (3, 10), (3, 11), (3, 12), (3, 13), (3, 14), (3, 15), (4, 0), (4, 1)],
    [(0, 12), (1, 14), (4, 2), (4, 3), (4, 4), (4, 5), (4, 6), (4, 7), (4, 8), (4, 9)],
    [(0, 14), (2, 1), (4, 10), (4, 11), (4, 12), (4, 13), (4, 14), (4, 15), (5, 0), (5, 1)],
    [(0, 15), (2, 2), (5, 2), (5, 3), (5, 4), (5, 5), (5, 6), (5, 7), (5, 8), (5, 9)],
    [(1, 3), (5, 10), (5, 11), (5, 12), (5, 13), (5, 14), (5, 15), (6, 0), (6, 1), (6, 2)],
    [(1, 7), (6, 3), (6, 4), (6, 5), (6, 6), (6, 7), (6, 8), (6, 9), (6, 10), (6, 11)],
    [(1, 8), (6, 12), (6, 13), (6, 14), (6, 15), (7, 0), (7, 1), (7, 2), (7, 3), (7, 4)],
    [(1, 9), (7, 5), (7, 6), (7, 7), (7, 8), (7, 9), (7, 10), (7, 11), (7, 12), (7, 13)],
    [(1, 10), (7, 14), (7, 15), (8, 0), (8, 1), (8, 2), (8, 3), (8, 4), (8, 5), (8, 6)],
    [(2, 3), (8, 7), (8, 8), (8, 9), (8, 10), (8, 11), (8, 12), (8, 13), (8, 14), (8, 15)],
    [(2, 8), (9, 0), (9, 1), (9, 2), (9, 3), (9, 4), (9, 5), (9, 6), (9, 7), (9, 8)],
    [(2, 10), (9, 9), (9, 10), (9, 11), (9, 12), (9, 13), (9, 14), (9, 15), (10, 0), (10, 1)]]

  function Flatten(rows: seq<seq<byte>>): (s: seq<byte>) {
    if |rows| == 0 then [] else rows[0] + Flatten(rows[1..])
  }

  lemma {:induction false} FlattenLength(rows: seq<seq<byte>>)
    requires forall i :: 0 <= i < |rows| - 1 ==> |rows[i]| == 16
    ensures rows == [] || |Flatten(rows)| == 16 * (|rows| - 1) + |rows[|rows| - 1]|
  {
    if |rows| > 1 {
      FlattenLength(rows[1..]);
    }
  }

  lemma {:induction false} FlattenHolds(rows: seq<seq<byte>>, i: nat, j: nat)
    requires i < |rows| && j < |rows[i]|
    ensures rows[i][j] in Flatten(rows)
  {
    if i > 0 {
      FlattenHolds(rows[1..], i - 1, j);
    }
  }

  lemma {:induction false} FlattenFrom(rows: seq<seq<byte>>, v: byte) returns (i: nat, j: nat)
    requires v in Flatten(rows)
    ensures i < |rows| && j < |rows[i]| && rows[i][j] == v
  {
    if v in rows[0] {
      i := 0;
      j :| j < |rows[0]| && rows[0][j] == v;
    } else {
      i, j := FlattenFrom(rows[1..], v);
      i := i + 1;
    }
  }

  /** The symbol of a run and a size stands in the rows where the places say. */
  ghost predicate Placed(rows: seq<seq<byte>>, places: seq<seq<(nat, nat)>>, run: nat, size: nat) {
    && run < |places| && 1 <= size <= |places[run]|
    && var at := places[run][size - 1];
    && at.0 < |rows| && at.1 < |rows[at.0]| && rows[at.0][at.1] == 16 * run + size
  }

  lemma InRows(rows: seq<seq<byte>>, places: seq<seq<(nat, nat)>>, run: nat, size: nat)
    requires run < 16 && size < 16 && Placed(rows, places, run, size)
    ensures RunSize(run, size) in Flatten(rows)
  {
    var at := places[run][size - 1];
    FlattenHolds(rows, at.0, at.1);
  }

  const AC_LUMA_VALUES: seq<byte> := Flatten(AC_LUMA_ROWS)
  const AC_CHROMA_VALUES: seq<byte> := Flatten(AC_CHROMA_ROWS)

  /** Checking a histogram against its list of first codes and offsets, one step at a time. */
  lemma {:induction false} CheckHistogram(bits: Histogram, firsts: seq<nat>, offsets: seq<nat>, l: nat)
    requires |firsts| == 17 && |offsets| == 17 && firsts[0] == 0 && offsets[0] == 0 && 1 <= l <= 17
    requires forall i :: 1 <= i < 17 ==> firsts[i] == 2 * (firsts[i - 1] + bits[i])
    requires forall i :: 1 <= i < 17 ==> offsets[i] == offsets[i - 1] + bits[i]
    ensures First(bits, l) == firsts[l - 1] && Offset(bits, l) == offsets[l - 1]
  {
    if l > 1 {
      CheckHistogram(bits, firsts, offsets, l - 1);
    }
  }

  lemma CheckBook(bits: Histogram, firsts: seq<nat>, offsets: seq<nat>)
    requires |firsts| == 17 && |offsets| == 17 && firsts[0] == 0 && offsets[0] == 0
    requires forall i :: 1 <= i < 17 ==> firsts[i] == 2 * (firsts[i - 1] + bits[i])
    requires forall i :: 1 <= i < 17 ==> offsets[i] == offsets[i - 1] + bits[i]
    requires firsts[16] <= 2 * 65536
    ensures Kraft(bits) && Total(bits) == offsets[16]
  {
    CheckHistogram(bits, firsts, offsets, 17);
    CheckHistogram(bits, firsts, offsets, 16);
    KraftSplit(bits, 16);
    assert KraftSum(bits, 17) == 0 && Pow2(0) == 1;
    Sixteen();
  }

  lemma Sixteen()
    ensures Pow2(16) == 65536
  {
    assert Pow2(8) == 256;
    Pow2Add(8, 8);
  }

  lemma DcLumaFits()
    ensures Kraft(DC_LUMA_BITS) && Total(DC_LUMA_BITS) == 12
  {
    CheckBook(DC_LUMA_BITS,
      [0, 0, 2, 14, 30, 62, 126, 254, 510, 1022, 2044, 4088, 8176, 16352, 32704, 65408, 130816],
      [0, 0, 1, 6, 7, 8, 9, 10, 11, 12, 12, 12, 12, 12, 12, 12, 12]);
  }

  lemma DcChromaFits()
    ensures Kraft(DC_CHROMA_BITS) && Total(DC_CHROMA_BITS) == 12
  {
    CheckBook(DC_CHROMA_BITS,
      [0, 0, 6, 14, 30, 62, 126, 254, 510, 1022, 2046, 4094, 8188, 16376, 32752, 65504, 131008],
      [0, 0, 3, 4, 5, 6, 7, 8, 9, 10, 11, 12, 12, 12, 12, 12, 12]);
  }

  lemma AcLumaFits()
    ensures Kraft(AC_LUMA_BITS) && Total(AC_LUMA_BITS) == 162
  {
    CheckBook(AC_LUMA_BITS,
      [0, 0, 4, 10, 26, 58, 120, 248, 502, 1014, 2038, 4084, 8176, 16352, 32704, 65410, 131070],
      [0, 0, 2, 3, 6, 9, 11, 15, 18, 23, 28, 32, 36, 36, 36, 37, 162]);
  }

  lemma AcChromaFits()
    ensures Kraft(AC_CHROMA_BITS) && Total(AC_CHROMA_BITS) == 162
  {
    CheckBook(AC_CHROMA_BITS,
      [0, 0, 4, 10, 24, 56, 120, 246, 500, 1014, 2038, 4084, 8176, 16352, 32706, 65416, 131070],
      [0, 0, 2, 3, 5, 9, 13, 16, 20, 27, 32, 36, 40, 40, 41, 43, 162]);
  }

  lemma LumaShape()
    ensures |AC_LUMA_ROWS| == 11 && |AC_LUMA_ROWS[10]| == 2 && forall i :: 0 <= i < 10 ==> |AC_LUMA_ROWS[i]| == 16
    ensures |LUMA_PLACES| == 16 && forall i :: 0 <= i < 16 ==> |LUMA_PLACES[i]| == 10
  {
  }

  lemma LumaNoStall(i: nat, j: nat)
    requires i < 11 && j < |AC_LUMA_ROWS[i]|
    ensures !Stalls(AC_LUMA_ROWS[i][j])
  {
    if i < 6 {
      LumaNoStall0to5(i, j);
    } else {
      LumaNoStall6to10(i, j);
    }
  }

  lemma LumaNoStall0to5(i: nat, j: nat)
    requires i < 6 && j < |AC_LUMA_ROWS[i]|
    ensures !Stalls(AC_LUMA_ROWS[i][j])
  {
    LumaShape();
  }

  lemma LumaNoStall6to10(i: nat, j: nat)
    requires 6 <= i < 11 && j < |AC_LUMA_ROWS[i]|
    ensures !Stalls(AC_LUMA_ROWS[i][j])
  {
    LumaShape();
  }

  lemma LumaPlaced0to1(run: nat, size: nat)
    requires 0 <= run <= 1 && 1 <= size <= 10
    ensures Placed(AC_LUMA_ROWS, LUMA_PLACES, run, size)
  {
    LumaShape();
    assert |LUMA_PLACES[run]| == 10;
  }

  lemma LumaPlaced2to3(run: nat, size: nat)
    requires 2 <= run <= 3 && 1 <= size <= 10
    ensures Placed(AC_LUMA_ROWS, LUMA_PLACES, run, size)
  {
    LumaShape();
    assert |LUMA_PLACES[run]| == 10;
  }

  lemma LumaPlaced4to5(run: nat, size: nat)
    requires 4 <= run <= 5 && 1 <= size <= 10
    ensures Placed(AC_LUMA_ROWS, LUMA_PLACES, run, size)
  {
    LumaShape();
    assert |LUMA_PLACES[run]| == 10;
  }

  lemma LumaPlaced6to7(run: nat, size: nat)
    requires 6 <= run <= 7 && 1 <= size <= 10
    ensures Placed(AC_LUMA_ROWS, LUMA_PLACES, run, size)
  {
    LumaShape();
    assert |LUMA_PLACES[run]| == 10;
  }

  lemma LumaPlaced8to9(run: nat, size: nat)
    requires 8 <= run <= 9 && 1 <= size <= 10
    ensures Placed(AC_LUMA_ROWS, LUMA_PLACES, run, size)
  {
    LumaShape();
    assert |LUMA_PLACES[run]| == 10;
  }

  lemma LumaPlaced10to11(run: nat, size: nat)
    requires 10 <= run <= 11 && 1 <= size <= 10
    ensures Placed(AC_LUMA_ROWS, LUMA_PLACES, run, size)
  {
    LumaShape();
    assert |LUMA_PLACES[run]| == 10;
  }

  lemma LumaPlaced12to13(run: nat, size: nat)
    requires 12 <= run <= 13 && 1 <= size <= 10
    ensures Placed(AC_LUMA_ROWS, LUMA_PLACES, run, size)
  {
    LumaShape();
    assert |LUMA_PLACES[run]| == 10;
  }

  lemma LumaPlaced14to15(run: nat, size: nat)
    requires 14 <= run <= 15 && 1 <= size <= 10
    ensures Placed(AC_LUMA_ROWS, LUMA_PLACES, run, size)
  {
    LumaShape();
    assert |LUMA_PLACES[run]| == 10;
  }

  lemma LumaPlacedLower(run: nat, size: nat)
    requires 0 <= run < 8 && 1 <= size <= 10
    ensures Placed(AC_LUMA_ROWS, LUMA_PLACES, run, size)
  {
    if run < 2 {
      LumaPlaced0to1(run, size);
    } else if run < 4 {
      LumaPlaced2to3(run, size);
    } else if run < 6 {
      LumaPlaced4to5(run, size);
    } else {
      LumaPlaced6to7(run, size);
    }
  }

  lemma LumaPlacedUpper(run: nat, size: nat)
    requires 8 <= run < 16 && 1 <= size <= 10
    ensures Placed(AC_LUMA_ROWS, LUMA_PLACES, run, size)
  {
    if run < 10 {
      LumaPlaced8to9(run, size);
    } else if run < 12 {
      LumaPlaced10to11(run, size);
    } else if run < 14 {
      LumaPlaced12to13(run, size);
    } else {
      LumaPlaced14to15(run, size);
    }
  }

  lemma LumaCovers(run: nat, size: nat)
    requires run < 16 && 1 <= size <= 10
    ensures RunSize(run, size) in AC_LUMA_VALUES
  {
    if run < 8 {
      LumaPlacedLower(run, size);
    } else {
      LumaPlacedUpper(run, size);
    }
    InRows(AC_LUMA_ROWS, LUMA_PLACES, run, size);
  }

  lemma ChromaShape()
    ensures |AC_CHROMA_ROWS| == 11 && |AC_CHROMA_ROWS[10]| == 2 && forall i :: 0 <= i < 10 ==> |AC_CHROMA_ROWS[i]| == 16
    ensures |CHROMA_PLACES| == 16 && forall i :: 0 <= i < 16 ==> |CHROMA_PLACES[i]| == 10
  {
  }

  lemma ChromaNoStall(i: nat, j: nat)
    requires i < 11 && j < |AC_CHROMA_ROWS[i]|
    ensures !Stalls(AC_CHROMA_ROWS[i][j])
  {
    if i < 6 {
      ChromaNoStall0to5(i, j);
    } else {
      ChromaNoStall6to10(i, j);
    }
  }

  lemma ChromaNoStall0to5(i: nat, j: nat)
    requires i < 6 && j < |AC_CHROMA_ROWS[i]|
    ensures !Stalls(AC_CHROMA_ROWS[i][j])
  {
    ChromaShape();
  }

  lemma ChromaNoStall6to10(i: nat, j: nat)
    requires 6 <= i < 11 && j < |AC_CHROMA_ROWS[i]|
    ensures !Stalls(AC_CHROMA_ROWS[i][j])
  {
    ChromaShape();
  }

  lemma ChromaPlaced0to1(run: nat, size: nat)
    requires 0 <= run <= 1 && 1 <= size <= 10
    ensures Placed(AC_CHROMA_ROWS, CHROMA_PLACES, run, size)
  {
    ChromaShape();
    assert |CHROMA_PLACES[run]| == 10;
  }

  lemma ChromaPlaced2to3(run: nat, size: nat)
    requires 2 <= run <= 3 && 1 <= size <= 10
    ensures Placed(AC_CHROMA_ROWS, CHROMA_PLACES, run, size)
  {
    ChromaShape();
    assert |CHROMA_PLACES[run]| == 10;
  }

  lemma ChromaPlaced4to5(run: nat, size: nat)
    requires 4 <= run <= 5 && 1 <= size <= 10
    ensures Placed(AC_CHROMA_ROWS, CHROMA_PLACES, run, size)
  {
    ChromaShape();
    assert |CHROMA_PLACES[run]| == 10;
  }

  lemma ChromaPlaced6to7(run: nat, size: nat)
    requires 6 <= run <= 7 && 1 <= size <= 10
    ensures Placed(AC_CHROMA_ROWS, CHROMA_PLACES, run, size)
  {
    ChromaShape();
    assert |CHROMA_PLACES[run]| == 10;
  }

  lemma ChromaPlaced8to9(run: nat, size: nat)
    requires 8 <= run <= 9 && 1 <= size <= 10
    ensures Placed(AC_CHROMA_ROWS, CHROMA_PLACES, run, size)
  {
    ChromaShape();
    assert |CHROMA_PLACES[run]| == 10;
  }

  lemma ChromaPlaced10to11(run: nat, size: nat)
    requires 10 <= run <= 11 && 1 <= size <= 10
    ensures Placed(AC_CHROMA_ROWS, CHROMA_PLACES, run, size)
  {
    ChromaShape();
    assert |CHROMA_PLACES[run]| == 10;
  }

  lemma ChromaPlaced12to13(run: nat, size: nat)
    requires 12 <= run <= 13 && 1 <= size <= 10
    ensures Placed(AC_CHROMA_ROWS, CHROMA_PLACES, run, size)
  {
    ChromaShape();
    assert |CHROMA_PLACES[run]| == 10;
  }

  lemma ChromaPlaced14to15(run: nat, size: nat)
    requires 14 <= run <= 15 && 1 <= size <= 10
    ensures Placed(AC_CHROMA_ROWS, CHROMA_PLACES, run, size)
  {
    ChromaShape();
    assert |CHROMA_PLACES[run]| == 10;
  }

  lemma ChromaPlacedLower(run: nat, size: nat)
    requires 0 <= run < 8 && 1 <= size <= 10
    ensures Placed(AC_CHROMA_ROWS, CHROMA_PLACES, run, size)
  {
    if run < 2 {
      ChromaPlaced0to1(run, size);
    } else if run < 4 {
      ChromaPlaced2to3(run, size);
    } else if run < 6 {
      ChromaPlaced4to5(run, size);
    } else {
      ChromaPlaced6to7(run, size);
    }
  }

  lemma ChromaPlacedUpper(run: nat, size: nat)
    requires 8 <= run < 16 && 1 <= size <= 10
    ensures Placed(AC_CHROMA_ROWS, CHROMA_PLACES, run, size)
  {
    if run < 10 {
      ChromaPlaced8to9(run, size);
    } else if run < 12 {
      ChromaPlaced10to11(run, size);
    } else if run < 14 {
      ChromaPlaced12to13(run, size);
    } else {
      ChromaPlaced14to15(run, size);
    }
  }

  lemma ChromaCovers(run: nat, size: nat)
    requires run < 16 && 1 <= size <= 10
    ensures RunSize(run, size) in AC_CHROMA_VALUES
  {
    if run < 8 {
      ChromaPlacedLower(run, size);
    } else {
      ChromaPlacedUpper(run, size);
    }
    InRows(AC_CHROMA_ROWS, CHROMA_PLACES, run, size);
  }

  /** A DC book that covers the categories up to 11 and no other symbol. */
  ghost predicate CoversDc(b: Book) {
    b.Good() && DcComplete(b, 11) && forall v :: v in b.values ==> v <= 11
  }

  /** An AC book that covers the runs and the categories up to 10, and never stalls. */
  ghost predicate CoversAc(b: Book) {
    b.Good() && AcComplete(b, 10) && forall v :: v in b.values ==> !Stalls(v)
  }

  /** The books of the codec's own histograms and symbols, each in its own place. */
  ghost predicate Standard(dcLuma: Book, dcChroma: Book, acLuma: Book, acChroma: Book) {
    && dcLuma.bits == DC_LUMA_BITS && dcChroma.bits == DC_CHROMA_BITS && dcLuma.values == dcChroma.values == DC_VALUES
    && acLuma.bits == AC_LUMA_BITS && acLuma.values == AC_LUMA_VALUES
    && acChroma.bits == AC_CHROMA_BITS && acChroma.values == AC_CHROMA_VALUES
  }

  /** The `init` step: the four tables, each a complete code book for baseline blocks (DC categories up to 11,
  AC categories up to 10) that never stalls the AC loop. */
  method BuildTables() returns (dcLuma: Book, dcChroma: Book, acLuma: Book, acChroma: Book)
    ensures CoversDc(dcLuma) && CoversDc(dcChroma) && CoversAc(acLuma) && CoversAc(acChroma)
    ensures Standard(dcLuma, dcChroma, acLuma, acChroma)
  {
    DcLumaFits();
    dcLuma := BuildDC(DC_LUMA_BITS);
    DcChromaFits();
    dcChroma := BuildDC(DC_CHROMA_BITS);
    acLuma := BuildAcLuma();
    acChroma := BuildAcChroma();
  }

  /** How the luma and the chroma books differ: one or three DC codes of two bits, three or two AC codes of four. */
  ghost predicate OfLuma(dc: Book, ac: Book) {
    dc.bits[2] == 1 && ac.bits[4] == 3
  }

  ghost predicate OfChroma(dc: Book, ac: Book) {
    dc.bits[2] == 3 && ac.bits[4] == 2
  }

  /** The same books, told apart by their histograms. */
  method BuildBooks() returns (dcLuma: Book, dcChroma: Book, acLuma: Book, acChroma: Book)
    ensures CoversDc(dcLuma) && CoversDc(dcChroma) && CoversAc(acLuma) && CoversAc(acChroma)
    ensures OfLuma(dcLuma, acLuma) && OfChroma(dcChroma, acChroma)
  {
    dcLuma, dcChroma, acLuma, acChroma := BuildTables();
    TellApart(dcLuma, dcChroma, acLuma, acChroma);
  }

  lemma TellApart(dcLuma: Book, dcChroma: Book, acLuma: Book, acChroma: Book)
    requires dcLuma.bits == DC_LUMA_BITS && dcChroma.bits == DC_CHROMA_BITS
    requires acLuma.bits == AC_LUMA_BITS && acChroma.bits == AC_CHROMA_BITS
    ensures OfLuma(dcLuma, acLuma) && OfChroma(dcChroma, acChroma)
  {
  }

  method BuildDC(bits: Histogram) returns (b: Book)
    requires Kraft(bits) && Total(bits) == 12
    ensures CoversDc(b) && b.bits == bits && b.values == DC_VALUES
  {
    var t := NewAvoHuff(bits, DC_VALUES);
    BuiltBook(bits, DC_VALUES, t);
    b := Book(bits, DC_VALUES, t);
    forall size: nat | size <= 11
      ensures size in DC_VALUES
    {
      assert DC_VALUES[size] == size;
    }
  }

  method BuildAcLuma() returns (b: Book)
    ensures CoversAc(b) && b.bits == AC_LUMA_BITS && b.values == AC_LUMA_VALUES
  {
    AcLumaFits();
    LumaFacts();
    var t := NewAvoHuff(AC_LUMA_BITS, AC_LUMA_VALUES);
    BuiltBook(AC_LUMA_BITS, AC_LUMA_VALUES, t);
    b := Book(AC_LUMA_BITS, AC_LUMA_VALUES, t);
  }

  method BuildAcChroma() returns (b: Book)
    ensures CoversAc(b) && b.bits == AC_CHROMA_BITS && b.values == AC_CHROMA_VALUES
  {
    AcChromaFits();
    ChromaFacts();
    var t := NewAvoHuff(AC_CHROMA_BITS, AC_CHROMA_VALUES);
    BuiltBook(AC_CHROMA_BITS, AC_CHROMA_VALUES, t);
    b := Book(AC_CHROMA_BITS, AC_CHROMA_VALUES, t);
  }

  lemma LumaFacts()
    ensures |AC_LUMA_VALUES| == 162 && EOB in AC_LUMA_VALUES && ZRL in AC_LUMA_VALUES
    ensures forall run: nat, size: nat :: run < 16 && 1 <= size <= 10 ==> RunSize(run, size) in AC_LUMA_VALUES
    ensures forall v :: v in AC_LUMA_VALUES ==> !Stalls(v)
  {
    LumaShape();
    LumaMarkers();
    FlattenLength(AC_LUMA_ROWS);
    FlattenHolds(AC_LUMA_ROWS, 0, 3);
    FlattenHolds(AC_LUMA_ROWS, 1, 15);
    forall run: nat, size: nat | run < 16 && 1 <= size <= 10
      ensures RunSize(run, size) in AC_LUMA_VALUES
    {
      LumaCovers(run, size);
    }
    LumaNeverStalls();
  }

  lemma LumaMarkers()
    ensures |AC_LUMA_ROWS| == 11 && |AC_LUMA_ROWS[0]| == 16 && |AC_LUMA_ROWS[1]| == 16
    ensures AC_LUMA_ROWS[0][3] == EOB && AC_LUMA_ROWS[1][15] == ZRL
  {
    LumaShape();
  }

  lemma LumaNeverStalls()
    ensures forall v :: v in AC_LUMA_VALUES ==> !Stalls(v)
  {
    LumaShape();
    forall v | v in AC_LUMA_VALUES
      ensures !Stalls(v)
    {
      var i, j := FlattenFrom(AC_LUMA_ROWS, v);
      LumaNoStall(i, j);
    }
  }

  lemma ChromaFacts()
    ensures |AC_CHROMA_VALUES| == 162 && EOB in AC_CHROMA_VALUES && ZRL in AC_CHROMA_VALUES
    ensures forall run: nat, size: nat :: run < 16 && 1 <= size <= 10 ==> RunSize(run, size) in AC_CHROMA_VALUES
    ensures forall v :: v in AC_CHROMA_VALUES ==> !Stalls(v)
  {
    ChromaShape();
    ChromaMarkers();
    FlattenLength(AC_CHROMA_ROWS);
    FlattenHolds(AC_CHROMA_ROWS, 0, 0);
    FlattenHolds(AC_CHROMA_ROWS, 1, 15);
    forall run: nat, size: nat | run < 16 && 1 <= size <= 10
      ensures RunSize(run, size) in AC_CHROMA_VALUES
    {
      ChromaCovers(run, size);
    }
    ChromaNeverStalls();
  }

  lemma ChromaMarkers()
    ensures |AC_CHROMA_ROWS| == 11 && |AC_CHROMA_ROWS[0]| == 16 && |AC_CHROMA_ROWS[1]| == 16
    ensures AC_CHROMA_ROWS[0][0] == EOB && AC_CHROMA_ROWS[1][15] == ZRL
  {
    ChromaShape();
  }

  lemma ChromaNeverStalls()
    ensures forall v :: v in AC_CHROMA_VALUES ==> !Stalls(v)
  {
    ChromaShape();
    forall v | v in AC_CHROMA_VALUES
      ensures !Stalls(v)
    {
      var i, j := FlattenFrom(AC_CHROMA_ROWS, v);
      ChromaNoStall(i, j);
    }
  }
}
