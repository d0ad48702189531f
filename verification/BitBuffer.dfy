/** The two-word bit buffer of the packet-134 decoder. */
module BitBuffer {
  import opened Bits

  /** The `n` bits from `p` on at the top of a word, and zeros below. */
  function Topped(s: BitStream, p: nat, n: nat): (w: Word)
    requires n <= 32
  {
    Window(s, p, n) + Zeros(32 - n)
  }

  /** `nb` holds the next 32 bits from `p` on; the top `ob` bits of `mb` are the bits after those, its other
  bits are zero. */
  ghost predicate Holds32(s: BitStream, p: nat, nb: Word, mb: Word, ob: int) {
    && 0 <= ob <= 32
    && nb == Window(s, p, 32)
    && mb == Topped(s, p + 32, ob)
  }

  lemma ShiftIn(s: BitStream, p: nat, cur: Word, next: Word, n: nat)
    requires 0 < n < 32
    requires cur == Window(s, p, 32) && next[..n] == Window(s, p + 32, n)
    ensures Or(Shl(cur, n), Shr(next, 32 - n)) == Window(s, p + n, 32)
  {
    Spliced(cur, next, n);
    assert cur[n..] == Window(s, p + n, 32 - n);
    WindowSplit(s, p + n, 32 - n, n);
  }

  lemma Spliced(cur: Word, next: Word, n: nat)
    requires 0 < n < 32
    ensures Or(Shl(cur, n), Shr(next, 32 - n)) == cur[n..] + next[..n]
  {
    var hi, lo := Shl(cur, n), Shr(next, 32 - n);
    assert hi == cur[n..] + Zeros(n);
    assert lo == Zeros(32 - n) + next[..n];
  }

  lemma ShiftOut(s: BitStream, p: nat, w: Word, valid: nat, n: nat)
    requires n <= valid <= 32
    requires w == Topped(s, p, valid)
    ensures Shl(w, n) == Topped(s, p + n, valid - n)
  {
  }

  /** The rest of `mb` filled up with a fresh word gives the next 32 bits. */
  lemma Mix(s: BitStream, p: nat, top: Word, ob: nat, next: Word)
    requires ob <= 32
    requires top == Topped(s, p, ob)
    requires next == Window(s, p + ob, 32)
    ensures (if ob == 0 then next else Or(top, Shr(next, ob))) == Window(s, p, 32)
  {
    if ob > 0 {
      var r := Or(top, Shr(next, ob));
      assert r[..ob] == Window(s, p, ob);
      assert r[ob..] == next[..32 - ob] == Window(s, p + ob, 32 - ob);
      WindowSplit(s, p, ob, 32 - ob);
      assert r == r[..ob] + r[ob..];
    }
  }

  lemma Remainder(s: BitStream, p: nat, ob: nat, next: Word, n: nat)
    requires ob <= n <= 32
    requires next == Window(s, p + 32 + ob, 32)
    ensures Shl(next, n - ob) == Topped(s, p + n + 32, 32 + ob - n)
  {
    if n - ob < 32 {
      assert next[n - ob..] == Window(s, p + n + 32, 32 + ob - n);
    }
  }

  /** A step of 32 bits over a fresh word. */
  lemma WholeHolds(s: BitStream, p: nat, ob: nat, next: Word, mixed: Word, rest: Word)
    requires ob <= 32 && mixed == Window(s, p + 32, 32) && next == Window(s, p + 32 + ob, 32)
    requires rest == Shl(next, 32 - ob)
    ensures Holds32(s, p + 32, mixed, rest, ob)
  {
    Remainder(s, p, ob, next, 32);
  }

  /** A shorter step that uses up the look-ahead. */
  lemma PartHolds(s: BitStream, p: nat, nb: Word, ob: nat, next: Word, n: nat, mixed: Word, head: Word, rest: Word)
    requires nb == Window(s, p, 32) && mixed == Window(s, p + 32, 32) && next == Window(s, p + 32 + ob, 32)
    requires ob <= n < 32 && n > 0 && head == Or(Shl(nb, n), Shr(mixed, 32 - n)) && rest == Shl(next, n - ob)
    ensures Holds32(s, p + n, head, rest, 32 + ob - n)
  {
    WindowPrefix(s, p + 32, 32, n);
    ShiftIn(s, p, nb, mixed, n);
    Remainder(s, p, ob, next, n);
  }

  lemma ShiftHolds(s: BitStream, p: nat, nb: Word, mb: Word, ob: int, n: nat)
    requires Holds32(s, p, nb, mb, ob) && 0 < n < ob
    ensures Holds32(s, p + n, Or(Shl(nb, n), Shr(mb, 32 - n)), Shl(mb, n), ob - n)
  {
    ShiftIn(s, p, nb, mb, n);
    ShiftOut(s, p + 32, mb, ob, n);
  }

  /** The stream is the words of `src`, zero-extended. */
  ghost predicate Carries(s: BitStream, src: seq<byte>) {
    forall k: nat {:trigger WordAt(Words(src), k)} :: WordAt(Words(src), k) == Window(s, 32 * k, 32)
  }

  lemma PackedCarries(src: seq<byte>)
    ensures Carries(Packed(src), src)
  {
    forall k: nat
      ensures WordAt(Words(src), k) == Window(Packed(src), 32 * k, 32)
    {
      WordIsWindow(Words(src), k);
    }
  }

  /** The buffer after its first word, and after its second. */
  lemma FirstHeld(s: BitStream, src: seq<byte>)
    requires Carries(s, src)
    ensures Holds32(s, 0, WordAt(Words(src), 0), ZERO, 0)
  {
    assert WordAt(Words(src), 0) == Window(s, 32 * 0, 32);
    assert Topped(s, 32, 0) == ZERO;
  }

  lemma SecondHeld(s: BitStream, src: seq<byte>)
    requires Carries(s, src)
    ensures Holds32(s, 0, WordAt(Words(src), 0), WordAt(Words(src), 1), 32)
  {
    assert WordAt(Words(src), 0) == Window(s, 32 * 0, 32);
    assert WordAt(Words(src), 1) == Window(s, 32 * 1, 32);
    assert Topped(s, 32, 32) == Window(s, 32, 32);
  }

  function ClipWord(src: seq<byte>, k: nat): nat {
    if k <= |src| / 4 then k else |src| / 4
  }

  /** The bit buffer: `nb`/`mb`/`ob` over a packet body. */
  class BitReader {
    var nb: Word
    var mb: Word
    var ob: int
    var src: seq<byte>
    var pos: int
    var consumedB: nat

    /** The stream being read, and the number of words taken or due from it. */
    ghost var bits: BitStream
    ghost var loaded: nat

    constructor ()
      ensures nb == ZERO && mb == ZERO && ob == 0 && src == [] && pos == 0 && consumedB == 0
    {
      nb, mb, ob, src, pos, consumedB := ZERO, ZERO, 0, [], 0, 0;
      bits, loaded := (_: nat) => false, 0;
    }

    ghost predicate Buffered()
      reads this
    {
      && Holds32(bits, consumedB, nb, mb, ob)
      && consumedB + 32 + ob == 32 * loaded
      && pos == 4 * ClipWord(src, loaded)
      && Carries(bits, src)
    }

    /** The position never passes the whole words of the body, and stands behind them once all its bits are consumed. */
    lemma WordsTaken()
      requires Buffered()
      ensures 0 <= pos <= |src| && (consumedB >= 8 * |src| ==> pos == 4 * (|src| / 4))
    {
    }

    /** Starts reading a packet body. */
    method Open(payload: seq<byte>)
      modifies this
      ensures Buffered() && consumedB == 0 && src == payload && bits == Packed(payload)
    {
      PackedCarries(payload);
      src, pos, nb, mb, ob, consumedB := payload, 0, ZERO, ZERO, 0, 0;
      bits := Packed(payload);
      Fill();
    }

    method Fill()
      requires Carries(bits, src)
      requires pos == 0 && ob == 0 && nb == ZERO && mb == ZERO && consumedB == 0
      modifies `nb, `mb, `ob, `pos, `loaded
      ensures Buffered()
    {
      loaded := 1;
      if ob == 0 && pos + 4 <= |src| {
        nb := ReadWord();
        FillSecond();
      } else {
        assert nb == WordAt(Words(src), 0);
        FirstHeld(bits, src);
      }
    }

    method FillSecond()
      requires Carries(bits, src) && nb == WordAt(Words(src), 0) && pos == 4 <= |src| && loaded == 1
      requires ob == 0 && mb == ZERO && consumedB == 0
      modifies `mb, `ob, `pos, `loaded
      ensures Buffered()
    {
      if pos + 4 <= |src| {
        SecondHeld(bits, src);
        mb := ReadWord();
        ob := 32;
        loaded := 2;
      } else {
        FirstHeld(bits, src);
      }
    }

    method ReadWord() returns (w: Word)
      requires 0 <= pos && pos % 4 == 0 && pos + 4 <= |src|
      modifies `pos
      ensures pos == old(pos) + 4
      ensures w == WordAt(Words(src), old(pos) / 4)
    {
      LittleEndianWord(src[pos], src[pos + 1], src[pos + 2], src[pos + 3]);
      w := Or(Or(Or(BitsOf(src[pos], 32), Shl(BitsOf(src[pos + 1], 32), 8)),
                 Shl(BitsOf(src[pos + 2], 32), 16)), Shl(BitsOf(src[pos + 3], 32), 24));
      pos := pos + 4;
    }

    /** The refill step of `consume`: the next word of the body, or zero past its end. */
    method NextWord() returns (n6: Word)
      requires pos == 4 * ClipWord(src, loaded) && Carries(bits, src)
      modifies `pos, `loaded
      ensures n6 == Window(bits, 32 * old(loaded), 32)
      ensures loaded == old(loaded) + 1 && pos == 4 * ClipWord(src, loaded)
    {
      assert WordAt(Words(src), loaded) == Window(bits, 32 * loaded, 32);
      n6 := ZERO;
      if pos + 4 <= |src| {
        n6 := ReadWord();
      }
      loaded := loaded + 1;
    }

    /** Advances the stream by `n` bits, for any `n`. */
    method Consume(n: int)
      requires Buffered()
      modifies `nb, `mb, `ob, `pos, `consumedB, `loaded
      ensures Buffered()
      ensures consumedB == old(consumedB) + (if n <= 0 then 0 else n)
      decreases n
    {
      if n <= 0 {
        return;
      }
      if n > 32 {
        Consume(32);
        Consume(n - 32);
        return;
      }
      if ob - n > 0 {
        Shift(n);
      } else {
        Refill(n);
      }
    }

    /** The look-ahead outlasts the step: bits move from it into `nb`, and the body is not touched. */
    method Shift(n: nat)
      requires Buffered() && 0 < n < ob
      modifies `nb, `mb, `ob, `consumedB
      ensures Buffered()
      ensures consumedB == old(consumedB) + n
    {
      ShiftHolds(bits, consumedB, nb, mb, ob, n);
      Advance(n, Or(Shl(nb, n), Shr(mb, 32 - n)), Shl(mb, n), ob - n);
    }

    /** The look-ahead is used up by the step: the next word of the body is taken. */
    method Refill(n: nat)
      requires Buffered() && ob <= n <= 32 && n > 0
      modifies `nb, `mb, `ob, `pos, `consumedB, `loaded
      ensures Buffered()
      ensures consumedB == old(consumedB) + n
    {
      assert 32 * loaded == consumedB + 32 + ob;
      var n6 := NextWord();
      var mixed := if ob == 0 then n6 else Or(mb, Shr(n6, ob));
      Mix(bits, consumedB + 32, mb, ob, n6);
      if n == 32 {
        RefillWhole(n6, mixed);
      } else {
        RefillPart(n, n6, mixed);
      }
    }

    method RefillWhole(n6: Word, mixed: Word)
      requires Holds32(bits, consumedB, nb, mb, ob) && n6 == Window(bits, consumedB + 32 + ob, 32)
      requires mixed == Window(bits, consumedB + 32, 32)
      requires consumedB + 64 + ob == 32 * loaded && pos == 4 * ClipWord(src, loaded) && Carries(bits, src)
      modifies `nb, `mb, `ob, `consumedB
      ensures Buffered() && consumedB == old(consumedB) + 32
    {
      var rest := if ob == 0 then ZERO else Shl(n6, 32 - ob);
      assert rest == Shl(n6, 32 - ob);
      WholeHolds(bits, consumedB, ob, n6, mixed, rest);
      Advance(32, mixed, rest, ob);
    }

    method RefillPart(n: nat, n6: Word, mixed: Word)
      requires Holds32(bits, consumedB, nb, mb, ob) && n6 == Window(bits, consumedB + 32 + ob, 32)
      requires mixed == Window(bits, consumedB + 32, 32) && ob <= n < 32 && n > 0
      requires consumedB + 64 + ob == 32 * loaded && pos == 4 * ClipWord(src, loaded) && Carries(bits, src)
      modifies `nb, `mb, `ob, `consumedB
      ensures Buffered() && consumedB == old(consumedB) + n
    {
      var head, rest := Or(Shl(nb, n), Shr(mixed, 32 - n)), Shl(n6, n - ob);
      PartHolds(bits, consumedB, nb, ob, n6, n, mixed, head, rest);
      Advance(n, head, rest, 32 + ob - n);
    }

    /** The new buffer, `n` bits further on. */
    method Advance(n: nat, head: Word, rest: Word, valid: int)
      requires Holds32(bits, consumedB + n, head, rest, valid) && consumedB + n + 32 + valid == 32 * loaded
      requires pos == 4 * ClipWord(src, loaded) && Carries(bits, src)
      modifies `nb, `mb, `ob, `consumedB
      ensures Buffered() && consumedB == old(consumedB) + n
    {
      nb, mb, ob, consumedB := head, rest, valid, consumedB + n;
    }

    /** The next `n` bits as a number, without consuming them. */
    method PeekBits(n: nat) returns (v: nat)
      requires Buffered() && n <= 32
      ensures v == Val(Window(bits, consumedB, n))
    {
      if n == 0 {
        return 0;
      }
      ShrVal(nb, 32 - n);
      assert nb[..n] == Window(bits, consumedB, n);
      v := Val(Shr(nb, 32 - n));
    }

    method GetBits(n: nat) returns (v: nat)
      requires Buffered() && n <= 32
      modifies `nb, `mb, `ob, `pos, `consumedB, `loaded
      ensures Buffered() && consumedB == old(consumedB) + n
      ensures v == Val(Window(bits, old(consumedB), n))
    {
      v := PeekBits(n);
      Consume(n);
    }

    /** The field of `width` bits that starts `skip` bits ahead: `(nb >> (32 - skip - width)) & mask`. */
    method PeekField(skip: nat, width: nat) returns (v: nat)
      requires Buffered() && skip + width <= 32
      ensures v == Val(Window(bits, consumedB + skip, width))
    {
      FieldVal(nb, 32 - skip - width, width);
      assert nb[skip..skip + width] == Window(bits, consumedB + skip, width);
      v := Val(Shr(nb, 32 - skip - width)) % Pow2(width);
    }
  }
}
