/** The cursor-opcode tile decoder: opcodes that move a linear cursor and write pixels at it. */
module CursorDecoder {
  import opened Basics
  import opened Bits
  import opened Framebuffers

  /** Pixels and the cursor, which may stand just past the last one. */
  datatype Screen = Screen(pix: seq<nat>, cur: nat) {
    predicate Valid() {
      cur <= |pix|
    }
  }

  const BLACK: nat := 0xFF00_0000

  // ---- run lengths --------------------------------------------------------

  /** The leading bytes of the tail that continue a run of this family: at most `n`. */
  function Continued(family: byte, tail: seq<byte>, n: nat): (k: nat)
    ensures k <= n && k <= |tail|
  {
    if n == 0 || |tail| == 0 || tail[0] / 32 * 32 != family then 0 else 1 + Continued(family, tail[1..], n - 1)
  }

  /** The number whose base-32 digits, least significant first, are the low five bits of the bytes. */
  function Digits(b: seq<byte>): nat {
    if |b| == 0 then 0 else b[0] as int % 32 + 32 * Digits(b[1..])
  }

  function Power32(n: nat): (r: nat)
    ensures r >= 1
  {
    if n == 0 then 1 else 32 * Power32(n - 1)
  }

  lemma {:induction false} DigitsAppend(b: seq<byte>, x: byte)
    ensures Digits(b + [x]) == Digits(b) + Power32(|b|) * (x as int % 32)
    ensures Digits(b) < Power32(|b|)
  {
    if |b| == 0 {
      assert b + [x] == [x];
      assert Digits([x][1..]) == 0;
    } else {
      DigitsAppend(b[1..], x);
      assert (b + [x])[1..] == b[1..] + [x];
      assert 32 * (Power32(|b| - 1) * (x as int % 32)) == Power32(|b|) * (x as int % 32);
    }
  }

  /** A run length in `k` bytes of a family. */
  function RunBytes(family: byte, n: nat, k: nat): (b: seq<byte>)
    requires family % 32 == 0
    ensures |b| == k && forall i :: 0 <= i < k ==> b[i] / 32 * 32 == family
  {
    if k == 0 then [] else [family + n % 32] + RunBytes(family, n / 32, k - 1)
  }

  /** It stands for that run length, if it has enough bytes for it. */
  lemma {:induction false} RunRoundTrip(family: byte, n: nat, k: nat)
    requires family % 32 == 0 && n < Power32(k)
    ensures Digits(RunBytes(family, n, k)) == n
  {
    if k > 0 {
      RunRoundTrip(family, n / 32, k - 1);
    }
  }

  /** A run length: five bits from the opcode and five from each of up to four continuation bytes. */
  method ReadRunLength(op: byte, family: byte, tail: seq<byte>) returns (run: nat, consumed: nat)
    ensures consumed == Continued(family, tail, 4)
    ensures run == Digits([op] + tail[..consumed])
  {
    run, consumed := op % 32, 0;
    var weight := 32;
    assert [op] + tail[..0] == [op] && Digits([op][1..]) == 0;
    while consumed < 4 && consumed < |tail|
      invariant 0 <= consumed <= 4 && consumed <= |tail|
      invariant run == Digits([op] + tail[..consumed]) && weight == Power32(consumed + 1)
      invariant Continued(family, tail, 4) == consumed + Continued(family, tail[consumed..], 4 - consumed)
    {
      var b := tail[consumed];
      if b / 32 * 32 != family {
        break;
      }
      DigitsAppend([op] + tail[..consumed], b);
      assert [op] + tail[..consumed] + [b] == [op] + tail[..consumed + 1];
      assert tail[consumed..][1..] == tail[consumed + 1..];
      run := run + weight * (b as int % 32);
      weight := weight * 32;
      consumed := consumed + 1;
    }
  }

  // ---- copying the line above ---------------------------------------------

  /** Copying pixel by pixel from `w` before, so that a long run reads what it has written. */
  function CopyFrom(pix: seq<nat>, w: nat, i: nat, end: nat): (r: seq<nat>)
    requires w <= i && end <= |pix|
    ensures |r| == |pix|
    decreases end - i
  {
    if i >= end then pix else CopyFrom(pix[i := pix[i - w]], w, i + 1, end)
  }

  lemma {:induction false} CopyFrame(pix: seq<nat>, w: nat, i: nat, end: nat, k: nat)
    requires w <= i && end <= |pix| && k < |pix| && (k < i || k >= end)
    ensures CopyFrom(pix, w, i, end)[k] == pix[k]
    decreases end - i
  {
    if i < end {
      CopyFrame(pix[i := pix[i - w]], w, i + 1, end, k);
    }
  }

  /** Every pixel of a copied run equals the one `w` before it, in the finished picture, even when the run is
  longer than `w`. */
  lemma {:induction false} CopyEqualsAbove(pix: seq<nat>, w: nat, i: nat, end: nat, k: nat)
    requires 1 <= w <= i <= k < end <= |pix|
    ensures CopyFrom(pix, w, i, end)[k] == CopyFrom(pix, w, i, end)[k - w]
    decreases end - i
  {
    var next := pix[i := pix[i - w]];
    if k > i {
      CopyEqualsAbove(next, w, i + 1, end, k);
    } else {
      CopyFrame(next, w, i + 1, end, i);
      CopyFrame(next, w, i + 1, end, i - w);
    }
  }

  function Phase(x: nat, w: nat): (r: nat)
    requires w >= 1
    ensures r < w
  {
    x % w
  }

  /** So a copied run repeats the `w` pixels before it with period `w`. */
  lemma {:induction false} CopyIsPeriodic(pix: seq<nat>, w: nat, i: nat, end: nat, k: nat)
    requires 1 <= w <= i <= k < end <= |pix|
    ensures CopyFrom(pix, w, i, end)[k] == pix[i - w + Phase(k - i, w)]
    decreases k
  {
    CopyEqualsAbove(pix, w, i, end, k);
    SamePhase(k - i, w);
    if k - w >= i {
      CopyIsPeriodic(pix, w, i, end, k - w);
      assert k - w - i == k - i - w;
    } else {
      CopyFrame(pix, w, i, end, k - w);
    }
  }

  lemma SamePhase(x: nat, w: nat)
    requires 1 <= w
    ensures Phase(x, w) == if x >= w then Phase(x - w, w) else x
  {
    if x >= w {
      var q, r := (x - w) / w, (x - w) % w;
      assert x - w == q * w + r;
      assert x == (q + 1) * w + r by { assert (q + 1) * w == q * w + w; }
      ModOfSum(q + 1, w, r);
    } else {
      ModOfSum(0, w, x);
    }
  }

  // ---- the operations, on values ------------------------------------------

  function Skip(s: Screen, n: nat): Screen {
    s.(cur := Min(s.cur + n, |s.pix|))
  }

  function Copy(s: Screen, w: nat, n: nat): Screen
    requires s.Valid()
  {
    if n == 0 || s.cur < w then s
    else var end := Min(s.cur + n, |s.pix|); Screen(CopyFrom(s.pix, w, s.cur, end), end)
  }

  function Overwrite(s: Screen, px: seq<nat>): Screen
    requires s.Valid()
  {
    var end := Min(s.cur + |px|, |s.pix|);
    Screen(s.pix[..s.cur] + px[..end - s.cur] + s.pix[end..], end)
  }

  function Repeat(s: Screen, c: nat, n: nat): Screen
    requires s.Valid()
  {
    if n == 0 then s else Overwrite(s, seq(n, _ => c))
  }

  /** A single pixel; at the end of the screen it goes to the start. */
  function Put(s: Screen, c: nat): Screen
    requires s.Valid() && |s.pix| > 0
  {
    var at := if s.cur >= |s.pix| then 0 else s.cur;
    Screen(s.pix[at := c], at + 1)
  }

  function Pixel(s: Screen, i: int): nat {
    if 0 <= i < |s.pix| then s.pix[i] else BLACK
  }

  /** The nearest pixel at or before `k` and not before `low` that differs from `last`; `last` if there is none. */
  function Other(s: Screen, k: int, low: int, last: nat): nat
    decreases k + 1
  {
    if k < 0 || k < low then last else if Pixel(s, k) != last then Pixel(s, k) else Other(s, k - 1, low, last)
  }

  function OtherColour(s: Screen, w: nat): nat {
    var limit := if s.cur - 1 > w then w else s.cur - 1;
    Other(s, s.cur - 1, s.cur - 1 - limit, Pixel(s, s.cur - 1))
  }

  // ---- opcodes ------------------------------------------------------------

  /** How a bit depth codes a colour: by an opcode byte and `extra` bytes after it. */
  datatype Depth = Depth(extra: nat, colour: (byte, seq<byte>) -> nat)

  predicate Bit(b: byte, i: nat) {
    b / Pow2(i) % 2 == 1
  }

  /** The low `n` bits, highest first, each picking one of two colours. */
  function Picks(b: byte, n: nat, on: nat, off: nat): (px: seq<nat>)
    ensures |px| == n
  {
    seq(n, i requires 0 <= i < n => if Bit(b, n - 1 - i) then on else off)
  }

  /** Pattern bytes go on while bit 4 of the byte before is set. */
  function PatternRest(s: Screen, data: seq<byte>, pos: nat, op: byte, other: nat, last: nat): (r: (Screen, nat))
    requires s.Valid() && pos <= |data|
    ensures r.0.Valid() && |r.0.pix| == |s.pix| && pos <= r.1 <= |data|
    decreases |data| - pos
  {
    if !Bit(op, 4) || pos >= |data| then (s, pos)
    else PatternRest(Overwrite(s, Picks(data[pos], 7, other, last)), data, pos + 1, data[pos], other, last)
  }

  /** How decoding ends: at the end of the stream, at a colour that is cut short, or with a panic, when a colour is to
  be written to a screen without pixels. */
  datatype Status = Fine | CutShort | Panic

  datatype Outcome = Outcome(screen: Screen, pos: nat, status: Status)

  /** One opcode: 0 skips, 1 repeats the last pixel, 2 copies the line above, 3 is a pattern, 4 to 7 a colour. */
  function Step(d: Depth, w: nat, data: seq<byte>, pos: nat, s: Screen): (r: Outcome)
    requires s.Valid() && pos < |data|
    ensures r.screen.Valid() && |r.screen.pix| == |s.pix| && pos < r.pos <= |data|
    ensures r.status == CutShort <==> data[pos] >= 0x80 && |data| - pos - 1 < d.extra
    ensures r.status == CutShort ==> r.pos == pos + 1
    ensures r.status == Panic <==> |s.pix| == 0 && data[pos] >= 0x80 && |data| - pos - 1 >= d.extra
  {
    var op, tail := data[pos], data[pos + 1..];
    if op >= 0x80 then
      if |tail| < d.extra then Outcome(s, pos + 1, CutShort)
      else if |s.pix| == 0 then Outcome(s, pos + 1 + d.extra, Panic)
      else Outcome(Put(s, d.colour(op, tail[..d.extra])), pos + 1 + d.extra, Fine)
    else if op >= 0x60 then
      var other, last := OtherColour(s, w), Pixel(s, s.cur - 1);
      var r := PatternRest(Overwrite(s, Picks(op, 4, other, last)), data, pos + 1, op, other, last);
      Outcome(r.0, r.1, Fine)
    else
      var family := op / 32 * 32;
      var k := Continued(family, tail, 4);
      var run := Digits([op] + tail[..k]);
      Outcome(if family == 0x00 then Skip(s, run) else if family == 0x40 then Copy(s, w, run) else Repeat(s, Pixel(s, s.cur - 1), run),
              pos + 1 + k, Fine)
  }

  /** A whole tile stream. It is consumed to its end unless its last colour is cut short; no other error exists, and on
  a screen with pixels no panic. */
  function Interpret(d: Depth, w: nat, data: seq<byte>, pos: nat, s: Screen): (r: Outcome)
    requires s.Valid() && pos <= |data|
    ensures r.screen.Valid() && |r.screen.pix| == |s.pix|
    ensures r.status == Fine ==> r.pos == |data|
    ensures r.status == CutShort ==> 1 <= r.pos <= |data| && data[r.pos - 1] >= 0x80 && |data| - r.pos < d.extra
    ensures r.status == Panic ==> |s.pix| == 0
    decreases |data| - pos
  {
    if pos >= |data| then Outcome(s, pos, Fine)
    else
      var r := Step(d, w, data, pos, s);
      if r.status == Fine then Interpret(d, w, data, r.pos, r.screen) else r
  }

  // ---- the framebuffer ----------------------------------------------------

  ghost predicate Ready(fb: Framebuffer)
    reads fb
  {
    0 <= fb.Cur <= fb.Pixels.Length
  }

  ghost function View(fb: Framebuffer): (s: Screen)
    requires Ready(fb)
    reads fb, fb.Pixels
    ensures s.Valid() && |s.pix| == fb.Pixels.Length
  {
    Screen(fb.Pixels[..], fb.Cur)
  }

  method PutPixel(fb: Framebuffer, c: nat)
    requires Ready(fb) && fb.Pixels.Length > 0
    modifies fb.Pixels, fb`Cur, fb`Dirty
    ensures Ready(fb) && View(fb) == Put(old(View(fb)), c)
  {
    if fb.Cur < 0 || fb.Cur >= fb.Pixels.Length {
      fb.Cur := 0;
    }
    fb.Pixels[fb.Cur] := c;
    fb.Cur := fb.Cur + 1;
    fb.Dirty := true;
  }

  method CopyFromPrev(fb: Framebuffer, n: nat)
    requires Ready(fb)
    modifies fb.Pixels, fb`Cur, fb`Dirty
    ensures Ready(fb) && View(fb) == Copy(old(View(fb)), fb.W, n)
  {
    var src := fb.Cur - fb.W;
    if n <= 0 || src < 0 {
      return;
    }
    var end := fb.Cur + n;
    if end > fb.Pixels.Length {
      end := fb.Pixels.Length;
    }
    var i := fb.Cur;
    ghost var goal := CopyFrom(fb.Pixels[..], fb.W, i, end);
    while i < end && src < fb.Pixels.Length
      invariant fb.Cur <= i <= end && src == i - fb.W
      invariant goal == CopyFrom(fb.Pixels[..], fb.W, i, end)
    {
      ghost var pix := fb.Pixels[..];
      fb.Pixels[i] := fb.Pixels[src];
      assert fb.Pixels[..] == pix[i := pix[i - fb.W]];
      i, src := i + 1, src + 1;
    }
    fb.Cur := end;
    fb.Dirty := true;
  }

  method WritePixels(fb: Framebuffer, src: seq<nat>)
    requires Ready(fb)
    modifies fb.Pixels, fb`Cur, fb`Dirty
    ensures Ready(fb) && View(fb) == Overwrite(old(View(fb)), src)
  {
    var cur, n, end := fb.Cur, |src|, fb.Cur + |src|;
    if end > fb.Pixels.Length {
      end := fb.Pixels.Length;
      n := end - cur;
    }
    ghost var pix := fb.Pixels[..];
    Store(fb.Pixels, cur, src[..n]);
    fb.Cur := end;
    fb.Dirty := true;
  }

  /** The element-wise copy into the buffer. */
  method Store(a: array<nat>, at: nat, px: seq<nat>)
    requires at + |px| <= a.Length
    modifies a
    ensures a[..] == old(a[..])[..at] + px + old(a[..])[at + |px|..]
  {
    for k := 0 to |px|
      invariant forall j :: 0 <= j < k ==> a[at + j] == px[j]
      invariant forall j :: 0 <= j < a.Length && !(at <= j < at + k) ==> a[j] == old(a[j])
    {
      a[at + k] := px[k];
    }
    assert forall j :: at <= j < at + |px| ==> a[j] == px[j - at] by {
      forall j | at <= j < at + |px| ensures a[j] == px[j - at] { assert a[at + (j - at)] == px[j - at]; }
    }
  }

  method RepeatColor(fb: Framebuffer, c: nat, n: nat)
    requires Ready(fb)
    modifies fb.Pixels, fb`Cur, fb`Dirty
    ensures Ready(fb) && View(fb) == Repeat(old(View(fb)), c, n)
  {
    if n <= 0 {
      return;
    }
    var cur, end := fb.Cur, fb.Cur + n;
    if end > fb.Pixels.Length {
      end := fb.Pixels.Length;
    }
    for i := cur to end
      modifies fb.Pixels
      invariant forall j :: cur <= j < i ==> fb.Pixels[j] == c
      invariant forall j :: 0 <= j < fb.Pixels.Length && !(cur <= j < i) ==> fb.Pixels[j] == old(fb.Pixels[j])
    {
      fb.Pixels[i] := c;
    }
    assert seq(n, _ => c)[..end - cur] == seq(end - cur, _ => c);
    fb.Cur := end;
    fb.Dirty := true;
  }

  /** The search of a pattern opcode for the most recent colour that differs from the last pixel. */
  method FindOther(fb: Framebuffer, last: nat) returns (other: nat)
    requires Ready(fb) && last == Pixel(View(fb), fb.Cur - 1)
    ensures other == OtherColour(View(fb), fb.W)
  {
    var limit := fb.Cur - 1;
    if limit > fb.W {
      limit := fb.W;
    }
    var k, low := fb.Cur - 1, fb.Cur - 1 - limit;
    while k >= 0 && k >= low
      invariant -1 <= k < fb.Cur
      invariant OtherColour(View(fb), fb.W) == Other(View(fb), k, low, last)
    {
      if fb.Pixels[k] != last {
        return fb.Pixels[k];
      }
      k := k - 1;
    }
    return last;
  }

  /** The pattern opcode. */
  method DrawPattern(fb: Framebuffer, data: seq<byte>, start: nat, first: byte) returns (pos: nat)
    requires Ready(fb) && start <= |data|
    modifies fb.Pixels, fb`Cur, fb`Dirty
    ensures Ready(fb)
    ensures var s := old(View(fb));
            var other, last := OtherColour(s, fb.W), Pixel(s, s.cur - 1);
            (View(fb), pos) == PatternRest(Overwrite(s, Picks(first, 4, other, last)), data, start, first, other, last)
  {
    var last := if fb.Cur == 0 then BLACK else fb.Pixels[fb.Cur - 1];
    var other := FindOther(fb, last);
    WritePixels(fb, Picks(first, 4, other, last));
    pos := DrawMore(fb, data, start, first, other, last);
  }

  /** The continuation bytes of a pattern. */
  method DrawMore(fb: Framebuffer, data: seq<byte>, start: nat, first: byte, other: nat, last: nat) returns (pos: nat)
    requires Ready(fb) && start <= |data|
    modifies fb.Pixels, fb`Cur, fb`Dirty
    ensures Ready(fb) && (View(fb), pos) == PatternRest(old(View(fb)), data, start, first, other, last)
  {
    var op := first;
    pos := start;
    ghost var goal := PatternRest(View(fb), data, pos, op, other, last);
    while Bit(op, 4) && pos < |data|
      invariant Ready(fb) && pos <= |data|
      invariant goal == PatternRest(View(fb), data, pos, op, other, last)
      decreases |data| - pos
    {
      op := data[pos];
      pos := pos + 1;
      WritePixels(fb, Picks(op, 7, other, last));
    }
  }

  /** Skip, copy or repeat: the opcodes with a run length. */
  method DrawRun(fb: Framebuffer, data: seq<byte>, start: nat) returns (pos: nat)
    requires Ready(fb) && start < |data| && data[start] < 0x60
    modifies fb.Pixels, fb`Cur, fb`Dirty
    ensures Ready(fb)
    ensures forall d :: Outcome(View(fb), pos, Fine) == Step(d, fb.W, data, start, old(View(fb)))
  {
    var op := data[start];
    var family := op / 32 * 32;
    var run, consumed := ReadRunLength(op, family, data[start + 1..]);
    pos := start + 1 + consumed;
    if family == 0x00 {
      fb.Cur := fb.Cur + run;
      if fb.Cur > fb.Pixels.Length {
        fb.Cur := fb.Pixels.Length;
      }
      fb.Dirty := true;
    } else if family == 0x40 {
      CopyFromPrev(fb, run);
    } else {
      var c := if fb.Cur == 0 then BLACK else fb.Pixels[fb.Cur - 1];
      RepeatColor(fb, c, run);
    }
  }

  /** One opcode. */
  method DrawOne(fb: Framebuffer, d: Depth, data: seq<byte>, start: nat) returns (pos: nat, status: Status)
    requires Ready(fb) && start < |data|
    modifies fb.Pixels, fb`Cur, fb`Dirty
    ensures Ready(fb) && Outcome(View(fb), pos, status) == Step(d, fb.W, data, start, old(View(fb)))
  {
    var op := data[start];
    if op >= 0x80 {
      if |data| - start - 1 < d.extra {
        return start + 1, CutShort;
      }
      pos := start + 1 + d.extra;
      if fb.Pixels.Length == 0 {
        return pos, Panic;
      }
      PutPixel(fb, d.colour(op, data[start + 1..][..d.extra]));
      return pos, Fine;
    }
    status := Fine;
    if op >= 0x60 {
      pos := DrawPattern(fb, data, start + 1, op);
    } else {
      pos := DrawRun(fb, data, start);
    }
  }

  /** Decodes a tile stream: it is the interpreter, so the cursor stays on or just past the screen, and the whole
  stream is consumed unless a colour is cut short. */
  method Decode(fb: Framebuffer, d: Depth, data: seq<byte>) returns (pos: nat, status: Status)
    requires Ready(fb)
    modifies fb.Pixels, fb`Cur, fb`Dirty
    ensures Ready(fb) && Outcome(View(fb), pos, status) == Interpret(d, fb.W, data, 0, old(View(fb)))
  {
    pos, status := 0, Fine;
    ghost var goal := Interpret(d, fb.W, data, 0, View(fb));
    while pos < |data|
      invariant Ready(fb) && pos <= |data| && status == Fine
      invariant goal == Interpret(d, fb.W, data, pos, View(fb))
      decreases |data| - pos
    {
      pos, status := DrawOne(fb, d, data, pos);
      if status != Fine {
        return;
      }
    }
  }
}
