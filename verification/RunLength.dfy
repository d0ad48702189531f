/** The two-escape run-length expander. */
module RunLength {
  import opened Basics
  import opened Bits

  datatype Error = Truncated | Overflow | SameEscapes
  datatype Result = Ok(out: seq<byte>) | Err(error: Error)

  /** The size a buffer has once `need` bytes must fit: unchanged, or doubled, or as much as is needed. */
  function Grown(cap: nat, need: nat): (c: nat)
    ensures c >= need && c >= cap
  {
    if need <= cap then cap else if 2 * cap < need then need else 2 * cap
  }

  /** Expanding from position `i` of the first `u` bytes of `s`, with `out` written so far into a buffer of `cap`
  bytes. Escape `b` triples the next byte; escape `a` stands for itself, for `b`, or for a run, and only a run
  makes the buffer grow. A run at the end reads past `u`, into whatever `s` holds there. */
  function Expand(s: seq<byte>, u: nat, a: byte, b: byte, i: nat, out: seq<byte>, cap: nat): (r: Result)
    requires u <= |s|
    decreases u - i
  {
    if i >= u then Ok(out)
    else
      match OneCode(s, u, a, b, i, out, cap)
      case Stop(e) => Err(e)
      case More(i', out', cap') => Expand(s, u, a, b, i', out', cap')
  }

  /** One code: where the next one starts, the text with what this one adds, and the size of the buffer. */
  datatype Progress = Stop(e: Error) | More(i: nat, out: seq<byte>, cap: nat)

  function OneCode(s: seq<byte>, u: nat, a: byte, b: byte, i: nat, out: seq<byte>, cap: nat): (r: Progress)
    requires i < u <= |s|
    ensures r.More? ==> r.i > i
  {
    if s[i] == b then
      if i + 1 >= u then Stop(Truncated)
      else if |out| + 3 > cap then Stop(Overflow)
      else More(i + 2, out + Copies(s[i + 1], 3), cap)
    else if s[i] == a then
      if i + 1 >= |s| then Stop(Truncated)
      else
        var n := s[i + 1] as int + 1;
        var v := if i + 2 < |s| then s[i + 2] else 0;
        if n <= 2 then
          if |out| + 1 > cap then Stop(Overflow) else More(i + 2, out + [if n == 1 then a else b], cap)
        else More(i + 3, out + Copies(v, n), Grown(cap, |out| + n))
    else if |out| + 1 > cap then Stop(Overflow)
    else More(i + 1, out + [s[i]], cap)
  }

  class Expander {
    var S: seq<byte>
    var U: nat
    var X: array<byte>
    var W: nat
    const A: byte
    const B: byte

    constructor (S: seq<byte>, U: nat, A: byte, B: byte)
      ensures this.S == S && this.U == U && this.A == A && this.B == B && fresh(X) && X.Length == 0
    {
      this.S, this.U, this.A, this.B, W := S, U, A, B, 0;
      X := new byte[0];
    }

    /** The capacity the expansion starts with. */
    ghost function Capacity(): nat
      reads this
    {
      if X.Length < 8 * U then (if 8 * U < 1024 then 1024 else 8 * U) else X.Length
    }

    method RleExpand() returns (err: bool, ghost r: Result)
      requires U <= |S|
      modifies this, X
      ensures S == old(S) && U == old(U) && err == r.Err?
      ensures r == (if A == 0 && B == 0 then Ok(S[..U]) else if A == B then Err(SameEscapes)
                    else Expand(S, U, A, B, 0, [], old(Capacity())))
      ensures !err ==> W <= X.Length && X[..W] == r.out
    {
      if X.Length < 8 * U {
        var grow := 8 * U;
        if grow < 1024 {
          grow := 1024;
        }
        X := new byte[grow](_ => 0);
      }
      if A == 0 && B == 0 {
        CopyThrough();
        return false, Ok(S[..U]);
      }
      if A == B {
        return true, Err(SameEscapes);
      }
      err := ExpandAll();
      r := Expand(S, U, A, B, 0, [], old(Capacity()));
    }

    method CopyThrough()
      requires U <= |S| && U <= X.Length
      modifies X, `W
      ensures W == U && X[..W] == S[..U]
    {
      for i := 0 to U
        modifies X
        invariant X[..i] == S[..i]
      {
        X[i] := S[i];
      }
      W := U;
    }

    /** Writes `n` copies of a byte at `o`. */
    method Put(o: nat, v: byte, n: nat)
      requires o + n <= X.Length
      modifies X
      ensures X[..o + n] == old(X[..o]) + Copies(v, n)
    {
      for k := 0 to n
        invariant X[..o + k] == old(X[..o]) + Copies(v, k)
      {
        X[o + k] := v;
        assert Copies(v, k + 1) == Copies(v, k) + [v];
      }
    }

    /** The larger buffer of a run that does not fit, with what is written so far. */
    method Regrow(o: nat, n: nat)
      requires o <= X.Length
      modifies `X
      ensures X.Length == Grown(old(X.Length), o + n) && X[..o] == old(X[..o])
      ensures X == old(X) || fresh(X)
    {
      if o + n > X.Length {
        var grow := 2 * X.Length;
        if grow < o + n {
          grow := o + n;
        }
        var kept := X[..o];
        X := new byte[grow](i => if 0 <= i < |kept| then kept[i] else 0);
      }
    }

    /** The loop over the compressed bytes. */
    method ExpandAll() returns (err: bool)
      requires U <= |S|
      modifies `X, `W, X
      ensures var r := Expand(S, U, A, B, 0, [], old(X.Length));
              err == r.Err? && (r.Ok? ==> W <= X.Length && X[..W] == r.out)
    {
      var i, o := 0, 0;
      err := false;
      ghost var out: seq<byte> := [];
      ghost var goal := Expand(S, U, A, B, 0, [], X.Length);
      while i < U
        invariant o == |out| <= X.Length && X[..o] == out && (X == old(X) || fresh(X))
        invariant !err && goal == Expand(S, U, A, B, i, out, X.Length)
        decreases U - i
      {
        err, i, o, out := ExpandOne(i, o, out);
        if err {
          return;
        }
      }
      W := o;
    }

    /** One code. */
    method ExpandOne(i: nat, o: nat, ghost out: seq<byte>) returns (err: bool, i': nat, o': nat, ghost out': seq<byte>)
      requires i < U <= |S| && o == |out| <= X.Length && X[..o] == out
      modifies `X, X
      ensures X == old(X) || fresh(X)
      ensures err ==> OneCode(S, U, A, B, i, out, old(X.Length)).Stop?
      ensures !err ==> o' == |out'| <= X.Length && X[..o'] == out'
      ensures !err ==> OneCode(S, U, A, B, i, out, old(X.Length)) == More(i', out', X.Length)
    {
      err, i', o', out' := true, i, o, out;
      var b := S[i];
      if b == B {
        if i + 1 >= U || o + 3 > X.Length {
          return;
        }
        Put(o, S[i + 1], 3);
        return false, i + 2, o + 3, out + Copies(S[i + 1], 3);
      }
      if b == A {
        if i + 1 >= |S| {
          return;
        }
        var n := S[i + 1] as int + 1;
        var v := if i + 2 < |S| then S[i + 2] else 0;
        if n <= 2 {
          if o + 1 > X.Length {
            return;
          }
          X[o] := if n == 1 then A else B;
          return false, i + 2, o + 1, out + [if n == 1 then A else B];
        }
        Regrow(o, n);
        Put(o, v, n);
        return false, i + 3, o + n, out + Copies(v, n);
      }
      if o + 1 > X.Length {
        return;
      }
      X[o] := b;
      return false, i + 1, o + 1, out + [b];
    }
  }

  // ---- the codes and what they stand for ----------------------------------

  /** A literal, an escaped escape, a tripled byte, or a run of 3 to 256. */
  datatype Token = Literal(v: byte) | EscapeA | EscapeB | Triple(v: byte) | Run(v: byte, n: nat)

  predicate Proper(t: Token, a: byte, b: byte) {
    (t.Literal? ==> t.v != a && t.v != b) && (t.Run? ==> 3 <= t.n <= 256)
  }

  function Code(t: Token, a: byte, b: byte): (c: seq<byte>)
    requires Proper(t, a, b)
    ensures 1 <= |c| <= 3
  {
    match t
    case Literal(v) => [v]
    case EscapeA => [a, 0]
    case EscapeB => [a, 1]
    case Triple(v) => [b, v]
    case Run(v, n) => [a, n - 1, v]
  }

  function Text(t: Token, a: byte, b: byte): seq<byte> {
    match t
    case Literal(v) => [v]
    case EscapeA => [a]
    case EscapeB => [b]
    case Triple(v) => Copies(v, 3)
    case Run(v, n) => Copies(v, n)
  }

  ghost predicate AllProper(ts: seq<Token>, a: byte, b: byte) {
    forall k :: 0 <= k < |ts| ==> Proper(ts[k], a, b)
  }

  function CodeAll(ts: seq<Token>, a: byte, b: byte): seq<byte>
    requires AllProper(ts, a, b)
  {
    if |ts| == 0 then [] else Code(ts[0], a, b) + CodeAll(ts[1..], a, b)
  }

  function TextAll(ts: seq<Token>, a: byte, b: byte): seq<byte> {
    if |ts| == 0 then [] else Text(ts[0], a, b) + TextAll(ts[1..], a, b)
  }

  /** From `o` bytes written, every code but a run ends within the buffer, which grows only for runs. */
  predicate Fits(ts: seq<Token>, o: nat, cap: nat) {
    if |ts| == 0 then true
    else if ts[0].Run? then Fits(ts[1..], o + ts[0].n, Grown(cap, o + ts[0].n))
    else var n := if ts[0].Triple? then 3 else 1; o + n <= cap && Fits(ts[1..], o + n, cap)
  }

  /** The codes lie in the buffer from position `i` to the end of the data. */
  ghost predicate At(s: seq<byte>, u: nat, i: nat, code: seq<byte>) {
    u <= |s| && i + |code| == u && s[i..u] == code
  }

  lemma AtSplit(s: seq<byte>, u: nat, i: nat, c: seq<byte>, rest: seq<byte>)
    requires At(s, u, i, c + rest)
    ensures At(s, u, i + |c|, rest) && s[i..i + |c|] == c
  {
    assert s[i..u][..|c|] == c && s[i..u][|c|..] == rest;
  }

  lemma FirstCode(s: seq<byte>, u: nat, a: byte, b: byte, i: nat, ts: seq<Token>)
    requires |ts| > 0 && AllProper(ts, a, b) && At(s, u, i, CodeAll(ts, a, b))
    ensures var c := Code(ts[0], a, b); At(s, u, i + |c|, CodeAll(ts[1..], a, b)) && s[i..i + |c|] == c
  {
    AtSplit(s, u, i, Code(ts[0], a, b), CodeAll(ts[1..], a, b));
  }

  /** What expanding tokens must give. */
  function Expansion(ts: seq<Token>, a: byte, b: byte, out: seq<byte>, cap: nat): Result {
    if Fits(ts, |out|, cap) then Ok(out + TextAll(ts, a, b)) else Err(Overflow)
  }

  /** Expanding coded tokens gives their text exactly if the buffer suffices, and otherwise reports an overflow. */
  lemma {:induction false} ExpandRoundTrip(s: seq<byte>, u: nat, a: byte, b: byte, i: nat, out: seq<byte>, cap: nat, ts: seq<Token>)
    requires a != b && AllProper(ts, a, b) && At(s, u, i, CodeAll(ts, a, b))
    ensures Expand(s, u, a, b, i, out, cap) == Expansion(ts, a, b, out, cap)
    decreases |ts|
  {
    if |ts| == 0 {
      NoTokens(s, u, a, b, i, out, cap);
    } else {
      var rest, r := ts[1..], OneCode(s, u, a, b, i, out, cap);
      FirstCode(s, u, a, b, i, ts);
      OneToken(s, u, a, b, i, out, cap, ts[0]);
      ExpansionStep(ts, a, b, out, cap);
      if r.More? {
        ExpandRoundTrip(s, u, a, b, r.i, r.out, r.cap, rest);
      }
    }
  }

  lemma NoTokens(s: seq<byte>, u: nat, a: byte, b: byte, i: nat, out: seq<byte>, cap: nat)
    requires At(s, u, i, [])
    ensures Expand(s, u, a, b, i, out, cap) == Expansion([], a, b, out, cap)
  {
    assert out + [] == out;
  }

  lemma ExpansionStep(ts: seq<Token>, a: byte, b: byte, out: seq<byte>, cap: nat)
    requires |ts| > 0
    ensures Expansion(ts, a, b, out, cap)
         == if Room(ts[0], |out|, cap) then Expansion(ts[1..], a, b, out + Text(ts[0], a, b), NextCap(ts[0], |out|, cap))
            else Err(Overflow)
  {
    FitsStep(ts, |out|, cap, a, b);
    Regroup(out, Text(ts[0], a, b), TextAll(ts[1..], a, b));
  }

  predicate Room(t: Token, o: nat, cap: nat) {
    t.Run? || o + (if t.Triple? then 3 else 1) <= cap
  }

  function NextCap(t: Token, o: nat, cap: nat): nat {
    if t.Run? then Grown(cap, o + t.n) else cap
  }

  lemma FitsStep(ts: seq<Token>, o: nat, cap: nat, a: byte, b: byte)
    requires |ts| > 0
    ensures Fits(ts, o, cap)
       <==> Room(ts[0], o, cap) && Fits(ts[1..], o + |Text(ts[0], a, b)|, NextCap(ts[0], o, cap))
  {
  }

  lemma OneToken(s: seq<byte>, u: nat, a: byte, b: byte, i: nat, out: seq<byte>, cap: nat, t: Token)
    requires a != b && Proper(t, a, b) && i + |Code(t, a, b)| <= u <= |s| && s[i..i + |Code(t, a, b)|] == Code(t, a, b)
    ensures OneCode(s, u, a, b, i, out, cap)
         == if Room(t, |out|, cap) then More(i + |Code(t, a, b)|, out + Text(t, a, b), NextCap(t, |out|, cap)) else Stop(Overflow)
  {
    var c := Code(t, a, b);
    assert s[i] == c[0];
    if |c| > 1 {
      assert s[i + 1] == c[1];
    }
    if |c| > 2 {
      assert s[i + 2] == c[2];
    }
  }

  /** A text no longer than the initial buffer always fits. */
  lemma {:induction false} ShortTextFits(ts: seq<Token>, a: byte, b: byte, o: nat, cap: nat)
    requires o + |TextAll(ts, a, b)| <= cap
    ensures Fits(ts, o, cap)
    decreases |ts|
  {
    if |ts| > 0 {
      ShortTextFits(ts[1..], a, b, o + |Text(ts[0], a, b)|, cap);
    }
  }

  /** Without runs a text is at most three bytes for each coded byte, so it always fits. */
  lemma {:induction false} WithoutRunsShort(ts: seq<Token>, a: byte, b: byte)
    requires AllProper(ts, a, b) && forall k :: 0 <= k < |ts| ==> !ts[k].Run?
    ensures |TextAll(ts, a, b)| <= 3 * |CodeAll(ts, a, b)|
    decreases |ts|
  {
    if |ts| > 0 {
      WithoutRunsShort(ts[1..], a, b);
    }
  }

  /** Streams without runs are always restored. */
  lemma WithoutRunsRestored(s: seq<byte>, u: nat, a: byte, b: byte, cap: nat, ts: seq<Token>)
    requires a != b && AllProper(ts, a, b) && At(s, u, 0, CodeAll(ts, a, b)) && cap >= 8 * u
    requires forall k :: 0 <= k < |ts| ==> !ts[k].Run?
    ensures Expand(s, u, a, b, 0, [], cap) == Ok(TextAll(ts, a, b))
  {
    WithoutRunsShort(ts, a, b);
    ShortTextFits(ts, a, b, 0, cap);
    ExpandRoundTrip(s, u, a, b, 0, [], cap, ts);
    assert [] + TextAll(ts, a, b) == TextAll(ts, a, b);
  }

  /** Four full runs fill the smallest buffer, and a literal after them overflows it: 13 bytes that fail to expand. */
  lemma FullRunsOverflow(a: byte, b: byte, v: byte, w: byte)
    requires a != b && w != a && w != b
    ensures Expand([a, 255, v, a, 255, v, a, 255, v, a, 255, v, w], 13, a, b, 0, [], 1024) == Err(Overflow)
  {
    var r := Run(v, 256);
    var ts := [r, r, r, r, Literal(w)];
    RunsThenLiteral(v, w);
    FullRunsCode(a, b, v, w);
    ExpandRoundTrip(CodeAll(ts, a, b), 13, a, b, 0, [], 1024, ts);
  }

  lemma FullRunsCode(a: byte, b: byte, v: byte, w: byte)
    requires a != b && w != a && w != b
    ensures var ts := [Run(v, 256), Run(v, 256), Run(v, 256), Run(v, 256), Literal(w)];
            AllProper(ts, a, b) && CodeAll(ts, a, b) == [a, 255, v, a, 255, v, a, 255, v, a, 255, v, w]
  {
    var r, l := Run(v, 256), Literal(w);
    Tails(r, l);
    assert CodeAll([l], a, b) == [w];
    assert CodeAll([r, l], a, b) == [a, 255, v, w];
    assert CodeAll([r, r, l], a, b) == [a, 255, v, a, 255, v, w];
    assert CodeAll([r, r, r, l], a, b) == [a, 255, v, a, 255, v, a, 255, v, w];
  }

  lemma Tails(r: Token, l: Token)
    ensures [r, r, r, r, l][1..] == [r, r, r, l] && [r, r, r, l][1..] == [r, r, l]
    ensures [r, r, l][1..] == [r, l] && [r, l][1..] == [l] && [l][1..] == []
  {
  }

  lemma RunsThenLiteral(v: byte, w: byte)
    ensures !Fits([Run(v, 256), Run(v, 256), Run(v, 256), Run(v, 256), Literal(w)], 0, 1024)
  {
    var r, l := Run(v, 256), Literal(w);
    Tails(r, l);
    assert !Fits([l], 1024, 1024);
    assert !Fits([r, l], 768, 1024);
    assert !Fits([r, r, l], 512, 1024);
    assert !Fits([r, r, r, l], 256, 1024);
  }
}
