/** Small notions that several modules share. */
module Basics {

  function Min(a: int, b: int): int {
    if a < b then a else b
  }

  /** A position, cut down to the length of what it points into. */
  function Clip(i: nat, n: nat): (r: nat)
    ensures r <= n && r <= i
  {
    if i <= n then i else n
  }

  function Copies<T>(x: T, n: nat): (r: seq<T>)
    ensures |r| == n && forall i :: 0 <= i < n ==> r[i] == x
  {
    seq(n, _ => x)
  }

  lemma Regroup<T>(x: seq<T>, y: seq<T>, z: seq<T>)
    ensures (x + y) + z == x + (y + z)
  {
  }

  /** Two adjacent slices join to one. */
  lemma JoinSlices<T>(s: seq<T>, x: int, y: int, z: int)
    requires 0 <= x <= y <= z <= |s|
    ensures s[x..y] + s[y..z] == s[x..z]
  {
  }

  lemma SplitTail<T>(s: seq<T>, x: int, y: int)
    requires 0 <= x <= y <= |s|
    ensures s[x..] == s[x..y] + s[y..]
  {
  }

  /** A slice of the part of a sequence before a joint is a slice of that part. */
  lemma SliceLeft<T>(a: seq<T>, b: seq<T>, x: int, y: int)
    requires 0 <= x <= y <= |a|
    ensures (a + b)[x..y] == a[x..y]
  {
  }

  lemma SubSlice<T>(s: seq<T>, a: int, b: int, x: int, y: int)
    requires 0 <= a <= b <= |s| && 0 <= x <= y <= b - a
    ensures s[a..b][x..y] == s[a + x..a + y]
  {
    var l, r := s[a..b][x..y], s[a + x..a + y];
    assert |l| == |r| && forall i :: 0 <= i < |l| ==> l[i] == r[i];
  }

  lemma Middle<T>(a: seq<T>, m: seq<T>, b: seq<T>)
    ensures (a + m + b)[|a|..|a| + |m|] == m
  {
    SliceLeft(a + m, b, |a|, |a| + |m|);
    assert (a + m)[|a|..|a| + |m|] == m;
  }

  lemma SliceHead<T>(s: seq<T>, a: int, b: int, x: T, rest: seq<T>)
    requires 0 <= a <= b <= |s| && s[a..b] == [x] + rest
    ensures a < b && s[a] == x && s[a + 1..b] == rest
  {
    var part := s[a..b];
    assert part[0] == x && part[1..] == rest;
    SubSlice(s, a, b, 1, b - a);
  }

  lemma TailSplits<T>(s: seq<T>, a: int, c: seq<T>, rest: seq<T>)
    requires 0 <= a <= |s| && s[a..] == c + rest
    ensures a + |c| <= |s| && s[a..a + |c|] == c && s[a + |c|..] == rest
  {
    var part := s[a..];
    assert part[..|c|] == c && part[|c|..] == rest;
    assert part[..|c|] == s[a..a + |c|] && part[|c|..] == s[a + |c|..];
  }
}
