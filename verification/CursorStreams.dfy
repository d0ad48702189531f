/** Cursor streams from the writer's side: what each opcode's bytes do to the screen, pixel by pixel, and that a written
stream is read as it was written. */
module CursorStreams {
  import opened Basics
  import opened Bits
  import opened CursorDecoder

  /** What a writer can say: a run of one of three kinds in `k` bytes, a pattern of four choices and groups of seven more,
  or a colour in its own bytes. */
  datatype Item =
    | RunItem(kind: RunKind, n: nat, k: nat)
    | PatternItem(first: seq<bool>, groups: seq<seq<bool>>)
    | ColourItem(code: seq<byte>)

  datatype RunKind = Leave | RepeatLast | CopyAbove

  function Family(kind: RunKind): (f: byte)
    ensures f % 32 == 0 && f < 0x60
  {
    match kind
    case Leave => 0x00
    case RepeatLast => 0x20
    case CopyAbove => 0x40
  }

  function Digit(b: bool): nat {
    if b then 1 else 0
  }

  /** The opcode byte of a pattern: its first four choices from 0x08 down, and whether groups follow. */
  function PatternByte(c: seq<bool>, more: bool): byte
    requires |c| == 4
  {
    0x60 + 0x10 * Digit(more) + 8 * Digit(c[0]) + 4 * Digit(c[1]) + 2 * Digit(c[2]) + Digit(c[3])
  }

  /** A group of seven choices from 0x40 down. Its third choice, 0x10, also says whether another group follows. */
  function GroupByte(g: seq<bool>): byte
    requires |g| == 7
  {
    64 * Digit(g[0]) + 32 * Digit(g[1]) + 16 * Digit(g[2]) + 8 * Digit(g[3]) + 4 * Digit(g[4]) + 2 * Digit(g[5]) + Digit(g[6])
  }

  /** Groups whose third choices say that another one follows, but for the last. */
  predicate Chained(groups: seq<seq<bool>>) {
    && (forall j :: 0 <= j < |groups| ==> |groups[j]| == 7)
    && (forall j :: 0 <= j < |groups| - 1 ==> groups[j][2])
  }

  predicate Writable(i: Item, d: Depth) {
    match i
    case RunItem(_, n, k) => 1 <= k <= 5 && n < Power32(k)
    case PatternItem(first, groups) => |first| == 4 && Chained(groups)
    case ColourItem(code) => |code| == 1 + d.extra && code[0] >= 0x80
  }

  function GroupBytes(groups: seq<seq<bool>>): (b: seq<byte>)
    requires Chained(groups)
    ensures |b| == |groups|
  {
    if |groups| == 0 then [] else [GroupByte(groups[0])] + GroupBytes(groups[1..])
  }

  function Code(i: Item, d: Depth): (b: seq<byte>)
    requires Writable(i, d)
    ensures |b| >= 1
  {
    match i
    case RunItem(kind, n, k) => RunBytes(Family(kind), n, k)
    case PatternItem(first, groups) => [PatternByte(first, |groups| > 0)] + GroupBytes(groups)
    case ColourItem(code) => code
  }

  /** What may follow: not a byte that would be taken for more of the item. */
  predicate CanFollow(i: Item, rest: seq<byte>) {
    |rest| == 0
    || match i
       case RunItem(kind, _, k) => k == 5 || rest[0] / 32 * 32 != Family(kind)
       case PatternItem(_, groups) => |groups| == 0 || (|groups[|groups| - 1]| == 7 && !groups[|groups| - 1][2])
       case ColourItem(_) => true
  }

  // ---- what the items mean ------------------------------------------------

  /** From the cursor on, as far as there are pixels, the screen holds `px`, and nothing else has changed. */
  predicate Written(s: Screen, t: Screen, px: seq<nat>) {
    && |t.pix| == |s.pix| && t.cur == Min(s.cur + |px|, |s.pix|)
    && forall k :: 0 <= k < |s.pix| ==> t.pix[k] == if s.cur <= k < t.cur then px[k - s.cur] else s.pix[k]
  }

  /** Every pixel of the run equals the one `w` before it, and nothing else has changed. */
  predicate Copied(s: Screen, t: Screen, w: nat, n: nat) {
    && |t.pix| == |s.pix| && t.cur == Min(s.cur + n, |s.pix|)
    && forall k :: 0 <= k < |s.pix| ==>
         if s.cur <= k < t.cur then k >= w && t.pix[k] == t.pix[k - w] && (w == 0 ==> t.pix[k] == s.pix[k])
         else t.pix[k] == s.pix[k]
  }

  /** The pixel before the cursor; black at the start. */
  function LastPixel(s: Screen): nat
    requires s.Valid()
  {
    if s.cur == 0 then BLACK else s.pix[s.cur - 1]
  }

  /** The second colour of a pattern: of the pixels up to one line before the last, the nearest that differs from the
  last; or the last. */
  predicate IsOther(s: Screen, w: nat, other: nat) {
    && s.Valid()
    && var last := LastPixel(s);
       || (exists k :: 0 <= k < s.cur && s.cur - 1 - k <= w && s.pix[k] == other && other != last
             && forall j :: k < j < s.cur ==> s.pix[j] == last)
       || (other == last && forall j :: 0 <= j < s.cur && s.cur - 1 - j <= w ==> s.pix[j] == last)
  }

  /** Two colours, chosen by bits. */
  function Chosen(bits: seq<bool>, on: nat, off: nat): (px: seq<nat>)
    ensures |px| == |bits|
  {
    seq(|bits|, i requires 0 <= i < |bits| => if bits[i] then on else off)
  }

  function Joined(groups: seq<seq<bool>>): seq<bool> {
    if |groups| == 0 then [] else groups[0] + Joined(groups[1..])
  }

  /** The screen after an item. */
  ghost predicate Does(i: Item, d: Depth, w: nat, s: Screen, t: Screen)
    requires Writable(i, d) && s.Valid()
  {
    match i
    case RunItem(kind, n, _) =>
      (match kind
       case Leave => t == Screen(s.pix, Min(s.cur + n, |s.pix|))
       case RepeatLast => Written(s, t, Copies(LastPixel(s), n))
       case CopyAbove => if s.cur < w || n == 0 then t == s else Copied(s, t, w, n))
    case PatternItem(first, groups) =>
      exists other :: IsOther(s, w, other) && Written(s, t, Chosen(first + Joined(groups), other, LastPixel(s)))
    case ColourItem(code) =>
      |s.pix| > 0 && var at := if s.cur == |s.pix| then 0 else s.cur; t == Screen(s.pix[at := d.colour(code[0], code[1..])], at + 1)
  }

  // ---- patterns -----------------------------------------------------------

  lemma BitIs(v: byte, i: nat, hi: nat, x: bool, lo: nat)
    requires lo < Pow2(i) && v == (2 * hi + Digit(x)) * Pow2(i) + lo
    ensures Bit(v, i) == x
  {
    ModOfSum(2 * hi + Digit(x), Pow2(i), lo);
  }

  lemma Powers()
    ensures Pow2(0) == 1 && Pow2(1) == 2 && Pow2(2) == 4 && Pow2(3) == 8 && Pow2(4) == 16 && Pow2(5) == 32 && Pow2(6) == 64
  {
  }

  /** The low four bits of a byte, and the one above them. */
  lemma LowBits(v: byte, hi: nat, x: bool, c: seq<bool>)
    requires |c| == 4 && v == (2 * hi + Digit(x)) * 16 + (8 * Digit(c[0]) + 4 * Digit(c[1]) + 2 * Digit(c[2]) + Digit(c[3]))
    ensures Bit(v, 4) == x && Bit(v, 3) == c[0] && Bit(v, 2) == c[1] && Bit(v, 1) == c[2] && Bit(v, 0) == c[3]
  {
    Powers();
    var h, c0, c1, c2, c3 := 2 * hi + Digit(x), Digit(c[0]), Digit(c[1]), Digit(c[2]), Digit(c[3]);
    BitIs(v, 4, hi, x, 8 * c0 + 4 * c1 + 2 * c2 + c3);
    BitIs(v, 3, h, c[0], 4 * c1 + 2 * c2 + c3);
    BitIs(v, 2, 2 * h + c0, c[1], 2 * c2 + c3);
    BitIs(v, 1, 4 * h + 2 * c0 + c1, c[2], c3);
    BitIs(v, 0, 8 * h + 4 * c0 + 2 * c1 + c2, c[3], 0);
  }

  lemma FirstPicks(c: seq<bool>, more: bool, on: nat, off: nat)
    requires |c| == 4
    ensures Picks(PatternByte(c, more), 4, on, off) == Chosen(c, on, off)
    ensures Bit(PatternByte(c, more), 4) == more && 0x60 <= PatternByte(c, more) < 0x80
  {
    LowBits(PatternByte(c, more), 3, more, c);
  }

  lemma GroupPicks(g: seq<bool>, on: nat, off: nat)
    requires |g| == 7
    ensures Picks(GroupByte(g), 7, on, off) == Chosen(g, on, off) && Bit(GroupByte(g), 4) == g[2]
  {
    var v, low := GroupByte(g), g[3..];
    Powers();
    LowBits(v, 2 * Digit(g[0]) + Digit(g[1]), g[2], low);
    BitIs(v, 5, Digit(g[0]), g[1], 16 * Digit(g[2]) + 8 * Digit(g[3]) + 4 * Digit(g[4]) + 2 * Digit(g[5]) + Digit(g[6]));
    BitIs(v, 6, 0, g[0], v as int - 64 * Digit(g[0]));
    PicksAre(v, g, on, off);
  }

  lemma PicksAre(v: byte, g: seq<bool>, on: nat, off: nat)
    requires |g| == 7 && Bit(v, 6) == g[0] && Bit(v, 5) == g[1] && Bit(v, 4) == g[2] && Bit(v, 3) == g[3]
    requires Bit(v, 2) == g[4] && Bit(v, 1) == g[5] && Bit(v, 0) == g[6]
    ensures Picks(v, 7, on, off) == Chosen(g, on, off)
  {
    var p, c := Picks(v, 7, on, off), Chosen(g, on, off);
    assert p[0] == c[0] && p[1] == c[1] && p[2] == c[2] && p[3] == c[3] && p[4] == c[4] && p[5] == c[5] && p[6] == c[6];
  }

  lemma OverwriteTwice(s: Screen, a: seq<nat>, b: seq<nat>)
    requires s.Valid()
    ensures Overwrite(Overwrite(s, a), b) == Overwrite(s, a + b)
  {
  }

  lemma OverwriteWrites(s: Screen, px: seq<nat>)
    requires s.Valid()
    ensures Written(s, Overwrite(s, px), px)
  {
  }

  lemma ChosenJoin(a: seq<bool>, b: seq<bool>, on: nat, off: nat)
    ensures Chosen(a + b, on, off) == Chosen(a, on, off) + Chosen(b, on, off)
  {
  }

  /** The continuation bytes of a pattern write their groups, one after the other, and no more bytes are taken. */
  lemma {:induction false} GroupsRead(s: Screen, data: seq<byte>, pos: nat, op: byte, groups: seq<seq<bool>>, on: nat, off: nat)
    requires s.Valid() && Chained(groups) && pos + |groups| <= |data| && data[pos..pos + |groups|] == GroupBytes(groups)
    requires if |groups| == 0 then pos == |data| || !Bit(op, 4)
             else Bit(op, 4) && (pos + |groups| == |data| || !groups[|groups| - 1][2])
    ensures PatternRest(s, data, pos, op, on, off) == (Overwrite(s, Chosen(Joined(groups), on, off)), pos + |groups|)
    decreases |groups|
  {
    if |groups| == 0 {
      assert Overwrite(s, []) == s;
    } else {
      var g, rest := groups[0], groups[1..];
      SliceHead(data, pos, pos + |groups|, GroupByte(g), GroupBytes(rest));
      GroupPicks(g, on, off);
      GroupsRead(Overwrite(s, Chosen(g, on, off)), data, pos + 1, data[pos], rest, on, off);
      ChosenJoin(g, Joined(rest), on, off);
      OverwriteTwice(s, Chosen(g, on, off), Chosen(Joined(rest), on, off));
      assert Chosen(Joined(groups), on, off) == Chosen(g, on, off) + Chosen(Joined(rest), on, off);
    }
  }

  lemma {:induction false} OtherFrom(s: Screen, k: int, low: int, last: nat)
    requires -1 <= k < |s.pix| && low >= 0
    ensures var x := Other(s, k, low, last);
            || (exists j :: low <= j <= k && s.pix[j] == x && x != last && forall i :: j < i <= k ==> s.pix[i] == last)
            || (x == last && forall i :: low <= i <= k ==> s.pix[i] == last)
    decreases k + 1
  {
    if k >= low {
      if s.pix[k] != last {
        assert low <= k <= k && s.pix[k] == Other(s, k, low, last);
      } else {
        OtherFrom(s, k - 1, low, last);
      }
    }
  }

  lemma OtherIsNearest(s: Screen, w: nat)
    requires s.Valid()
    ensures IsOther(s, w, OtherColour(s, w))
  {
    if s.cur > 0 {
      var limit := if s.cur - 1 > w then w else s.cur - 1;
      OtherFrom(s, s.cur - 1, s.cur - 1 - limit, LastPixel(s));
    }
  }

  // ---- runs ---------------------------------------------------------------

  lemma {:induction false} RunBytesEnd(family: byte, b: seq<byte>, rest: seq<byte>, n: nat)
    requires |b| <= n && forall i :: 0 <= i < |b| ==> b[i] / 32 * 32 == family
    requires |b| == n || |rest| == 0 || rest[0] / 32 * 32 != family
    ensures Continued(family, b + rest, n) == |b|
    decreases n
  {
    if |b| > 0 {
      RunBytesEnd(family, b[1..], rest, n - 1);
      assert (b + rest)[1..] == b[1..] + rest && (b + rest)[0] == b[0];
    } else {
      assert b + rest == rest;
    }
  }

  lemma CopyMeans(s: Screen, w: nat, n: nat)
    requires s.Valid() && s.cur >= w && n > 0
    ensures Copied(s, Copy(s, w, n), w, n)
  {
    var end := Min(s.cur + n, |s.pix|);
    forall k | 0 <= k < |s.pix|
      ensures var r := CopyFrom(s.pix, w, s.cur, end);
              if s.cur <= k < end then r[k] == r[k - w] && (w == 0 ==> r[k] == s.pix[k]) else r[k] == s.pix[k]
    {
      if w == 0 {
        CopyNothing(s.pix, s.cur, end);
      } else if s.cur <= k < end {
        CopyEqualsAbove(s.pix, w, s.cur, end, k);
      } else {
        CopyFrame(s.pix, w, s.cur, end, k);
      }
    }
  }

  lemma {:induction false} CopyNothing(pix: seq<nat>, i: nat, end: nat)
    requires end <= |pix|
    ensures CopyFrom(pix, 0, i, end) == pix
    decreases end - i
  {
    if i < end {
      assert pix[i := pix[i]] == pix;
      CopyNothing(pix, i + 1, end);
    }
  }

  // ---- one item -----------------------------------------------------------

  /** The bytes of an item stand at a position, and what follows may. */
  ghost predicate Stands(data: seq<byte>, pos: nat, i: Item, d: Depth)
    requires Writable(i, d)
  {
    var c := Code(i, d);
    pos + |c| <= |data| && data[pos..pos + |c|] == c && CanFollow(i, data[pos + |c|..])
  }

  /** A step on the bytes of an item does what the item means and takes exactly its bytes. */
  lemma ItemReads(i: Item, d: Depth, w: nat, data: seq<byte>, pos: nat, s: Screen)
    requires s.Valid() && Writable(i, d) && Stands(data, pos, i, d) && (i.ColourItem? ==> |s.pix| > 0)
    ensures var r := Step(d, w, data, pos, s);
            r.status == Fine && r.pos == pos + |Code(i, d)| && Does(i, d, w, s, r.screen)
  {
    match i {
      case RunItem(kind, n, k) => RunReads(kind, n, k, d, w, data, pos, s);
      case PatternItem(first, groups) =>
        SliceHead(data, pos, pos + 1 + |groups|, PatternByte(first, |groups| > 0), GroupBytes(groups));
        PatternReads(first, groups, d, w, data, pos, s);
      case ColourItem(code) =>
        assert data[pos] == code[0] && data[pos + 1..][..d.extra] == code[1..];
    }
  }

  lemma PatternStep(d: Depth, w: nat, data: seq<byte>, pos: nat, s: Screen)
    requires s.Valid() && pos < |data| && 0x60 <= data[pos] < 0x80
    ensures var on, off := OtherColour(s, w), LastPixel(s);
            var r := PatternRest(Overwrite(s, Picks(data[pos], 4, on, off)), data, pos + 1, data[pos], on, off);
            Step(d, w, data, pos, s) == Outcome(r.0, r.1, Fine)
  {
  }

  lemma RunStep(kind: RunKind, n: nat, d: Depth, w: nat, data: seq<byte>, pos: nat, s: Screen, k: nat)
    requires s.Valid() && pos < |data| && data[pos] / 32 * 32 == Family(kind)
    requires Continued(Family(kind), data[pos + 1..], 4) == k && Digits([data[pos]] + data[pos + 1..][..k]) == n
    ensures Step(d, w, data, pos, s)
         == Outcome(match kind
                    case Leave => Skip(s, n)
                    case RepeatLast => Repeat(s, LastPixel(s), n)
                    case CopyAbove => Copy(s, w, n), pos + 1 + k, Fine)
  {
  }

  lemma PatternReads(first: seq<bool>, groups: seq<seq<bool>>, d: Depth, w: nat, data: seq<byte>, pos: nat, s: Screen)
    requires s.Valid() && |first| == 4 && Chained(groups) && pos + 1 + |groups| <= |data|
    requires data[pos] == PatternByte(first, |groups| > 0) && data[pos + 1..pos + 1 + |groups|] == GroupBytes(groups)
    requires CanFollow(PatternItem(first, groups), data[pos + 1 + |groups|..])
    ensures var r := Step(d, w, data, pos, s);
            && r.status == Fine && r.pos == pos + 1 + |groups|
            && Written(s, r.screen, Chosen(first + Joined(groups), OtherColour(s, w), LastPixel(s)))
            && IsOther(s, w, OtherColour(s, w))
  {
    FirstPicks(first, |groups| > 0, 0, 0);
    PatternStep(d, w, data, pos, s);
    PatternScreen(first, groups, w, data, pos, s);
  }

  lemma PatternScreen(first: seq<bool>, groups: seq<seq<bool>>, w: nat, data: seq<byte>, pos: nat, s: Screen)
    requires s.Valid() && |first| == 4 && Chained(groups) && pos + 1 + |groups| <= |data|
    requires data[pos] == PatternByte(first, |groups| > 0) && data[pos + 1..pos + 1 + |groups|] == GroupBytes(groups)
    requires CanFollow(PatternItem(first, groups), data[pos + 1 + |groups|..])
    ensures var on, off := OtherColour(s, w), LastPixel(s);
            var r := PatternRest(Overwrite(s, Picks(data[pos], 4, on, off)), data, pos + 1, data[pos], on, off);
            && r.1 == pos + 1 + |groups| && IsOther(s, w, on) && Written(s, r.0, Chosen(first + Joined(groups), on, off))
  {
    var on, off := OtherColour(s, w), LastPixel(s);
    PatternDone(first, groups, data, pos, s, on, off);
    OverwriteWrites(s, Chosen(first + Joined(groups), on, off));
    OtherIsNearest(s, w);
  }

  lemma PatternDone(first: seq<bool>, groups: seq<seq<bool>>, data: seq<byte>, pos: nat, s: Screen, on: nat, off: nat)
    requires s.Valid() && |first| == 4 && Chained(groups) && pos + 1 + |groups| <= |data|
    requires data[pos + 1..pos + 1 + |groups|] == GroupBytes(groups)
    requires CanFollow(PatternItem(first, groups), data[pos + 1 + |groups|..])
    ensures var op := PatternByte(first, |groups| > 0);
            PatternRest(Overwrite(s, Picks(op, 4, on, off)), data, pos + 1, op, on, off) ==
            (Overwrite(s, Chosen(first + Joined(groups), on, off)), pos + 1 + |groups|)
  {
    FirstPicks(first, |groups| > 0, on, off);
    GroupsRead(Overwrite(s, Chosen(first, on, off)), data, pos + 1, PatternByte(first, |groups| > 0), groups, on, off);
    ChosenJoin(first, Joined(groups), on, off);
    OverwriteTwice(s, Chosen(first, on, off), Chosen(Joined(groups), on, off));
  }

  lemma RunReads(kind: RunKind, n: nat, k: nat, d: Depth, w: nat, data: seq<byte>, pos: nat, s: Screen)
    requires s.Valid() && 1 <= k <= 5 && n < Power32(k) && Stands(data, pos, RunItem(kind, n, k), d)
    ensures var r := Step(d, w, data, pos, s);
            r.status == Fine && r.pos == pos + k && Does(RunItem(kind, n, k), d, w, s, r.screen)
  {
    RunTaken(Family(kind), n, k, data, pos);
    RunStep(kind, n, d, w, data, pos, s, k - 1);
    RunMeans(kind, n, k, d, w, s);
  }

  lemma RunMeans(kind: RunKind, n: nat, k: nat, d: Depth, w: nat, s: Screen)
    requires s.Valid() && 1 <= k <= 5 && n < Power32(k)
    ensures Does(RunItem(kind, n, k), d, w, s,
                 match kind
                 case Leave => Skip(s, n)
                 case RepeatLast => Repeat(s, LastPixel(s), n)
                 case CopyAbove => Copy(s, w, n))
  {
    match kind {
      case Leave =>
      case RepeatLast =>
        assert Copies(LastPixel(s), n) == seq(n, _ => LastPixel(s));
        OverwriteWrites(s, Copies(LastPixel(s), n));
        assert n == 0 ==> Overwrite(s, Copies(LastPixel(s), n)) == s;
      case CopyAbove =>
        if s.cur >= w && n > 0 {
          CopyMeans(s, w, n);
        }
    }
  }

  /** The opcode and the bytes that continue it are the run length. */
  lemma RunTaken(family: byte, n: nat, k: nat, data: seq<byte>, pos: nat)
    requires family % 32 == 0 && 1 <= k <= 5 && n < Power32(k)
    requires pos + k <= |data| && data[pos..pos + k] == RunBytes(family, n, k)
    requires k == 5 || pos + k == |data| || data[pos + k] / 32 * 32 != family
    ensures data[pos] / 32 * 32 == family && Continued(family, data[pos + 1..], 4) == k - 1
    ensures Digits([data[pos]] + data[pos + 1..][..k - 1]) == n
  {
    var b := RunBytes(family, n, k);
    var tail := b[1..];
    assert data[pos] == b[0] && data[pos + 1..] == tail + data[pos + k..];
    RunBytesEnd(family, tail, data[pos + k..], 4);
    assert [data[pos]] + data[pos + 1..][..k - 1] == b;
    RunRoundTrip(family, n, k);
  }

  // ---- whole streams ------------------------------------------------------

  predicate AllWritable(items: seq<Item>, d: Depth) {
    |items| == 0 || (Writable(items[0], d) && AllWritable(items[1..], d))
  }

  function CodeAll(items: seq<Item>, d: Depth): (b: seq<byte>)
    requires AllWritable(items, d)
  {
    if |items| == 0 then [] else Code(items[0], d) + CodeAll(items[1..], d)
  }

  /** Items that can follow one another. */
  predicate Sequence(items: seq<Item>, d: Depth)
    requires AllWritable(items, d)
  {
    |items| == 0 || (CanFollow(items[0], CodeAll(items[1..], d)) && Sequence(items[1..], d))
  }

  /** The screens of a run, each made from the one before by its item. */
  ghost predicate Screens(items: seq<Item>, d: Depth, w: nat, ss: seq<Screen>) {
    && |ss| == |items| + 1
    && forall j :: 0 <= j < |items| ==> ss[j].Valid() && Writable(items[j], d) && Does(items[j], d, w, ss[j], ss[j + 1])
  }

  /** Steps in a row, up to the end of the data: where each starts and the screen it finds. */
  ghost predicate Steps(d: Depth, w: nat, data: seq<byte>, ps: seq<nat>, ss: seq<Screen>) {
    && |ps| == |ss| > 0 && ps[|ps| - 1] == |data|
    && forall j :: 0 <= j < |ps| - 1 ==> StepTo(d, w, data, ps[j], ss[j], ps[j + 1], ss[j + 1])
  }

  ghost predicate StepTo(d: Depth, w: nat, data: seq<byte>, pos: nat, s: Screen, pos': nat, s': Screen) {
    s.Valid() && pos < |data| && Step(d, w, data, pos, s) == Outcome(s', pos', Fine)
  }

  lemma {:induction false} StepsInterpret(d: Depth, w: nat, data: seq<byte>, ps: seq<nat>, ss: seq<Screen>, j: nat)
    requires Steps(d, w, data, ps, ss) && j < |ps| && ss[j].Valid()
    ensures ps[j] <= |data| && Interpret(d, w, data, ps[j], ss[j]) == Outcome(ss[|ss| - 1], |data|, Fine)
    decreases |ps| - j
  {
    if j < |ps| - 1 {
      assert StepTo(d, w, data, ps[j], ss[j], ps[j + 1], ss[j + 1]);
      StepsInterpret(d, w, data, ps, ss, j + 1);
    }
  }

  lemma {:induction false} StepsAppend(d: Depth, w: nat, data: seq<byte>, pos: nat, s: Screen, ps: seq<nat>, ss: seq<Screen>)
    requires Steps(d, w, data, ps, ss) && StepTo(d, w, data, pos, s, ps[0], ss[0])
    ensures Steps(d, w, data, [pos] + ps, [s] + ss)
  {
    var qs, ts := [pos] + ps, [s] + ss;
    forall j | 0 <= j < |qs| - 1
      ensures StepTo(d, w, data, qs[j], ts[j], qs[j + 1], ts[j + 1])
    {
      if j > 0 {
        assert StepTo(d, w, data, ps[j - 1], ss[j - 1], ps[j - 1 + 1], ss[j - 1 + 1]);
      }
    }
  }

  lemma OneItem(i: Item, d: Depth, w: nat, data: seq<byte>, pos: nat, s: Screen) returns (next: Screen)
    requires s.Valid() && |s.pix| > 0 && Writable(i, d) && Stands(data, pos, i, d)
    ensures next.Valid() && |next.pix| == |s.pix| && Does(i, d, w, s, next)
    ensures StepTo(d, w, data, pos, s, pos + |Code(i, d)|, next)
  {
    ItemReads(i, d, w, data, pos, s);
    next := Step(d, w, data, pos, s).screen;
  }

  /** A written stream is read whole, item by item. */
  lemma StreamReads(items: seq<Item>, d: Depth, w: nat, data: seq<byte>, s: Screen) returns (ss: seq<Screen>)
    requires s.Valid() && |s.pix| > 0 && AllWritable(items, d) && Sequence(items, d) && data == CodeAll(items, d)
    ensures Screens(items, d, w, ss) && ss[0] == s
    ensures Interpret(d, w, data, 0, s) == Outcome(ss[|items|], |data|, Fine)
  {
    assert data[0..] == data;
    var ps: seq<nat>;
    ps, ss := RestReads(items, d, w, data, 0, s);
    StepsInterpret(d, w, data, ps, ss, 0);
  }

  lemma {:induction false} RestReads(items: seq<Item>, d: Depth, w: nat, data: seq<byte>, pos: nat, s: Screen)
    returns (ps: seq<nat>, ss: seq<Screen>)
    requires s.Valid() && |s.pix| > 0 && AllWritable(items, d)
    requires Sequence(items, d) && pos <= |data| && data[pos..] == CodeAll(items, d)
    ensures Screens(items, d, w, ss) && Steps(d, w, data, ps, ss) && ss[0] == s && ps[0] == pos
    decreases |items|
  {
    if |items| == 0 {
      ps, ss := [pos], [s];
    } else {
      var i, rest := items[0], items[1..];
      FirstStands(items, d, data, pos);
      var next := OneItem(i, d, w, data, pos, s);
      var later, after := RestReads(rest, d, w, data, pos + |Code(i, d)|, next);
      ps, ss := [pos] + later, [s] + after;
      FirstScreen(i, rest, d, w, s, after);
      StepsAppend(d, w, data, pos, s, later, after);
      assert items == [i] + rest;
    }
  }

  lemma FirstStands(items: seq<Item>, d: Depth, data: seq<byte>, pos: nat)
    requires |items| > 0 && AllWritable(items, d) && Sequence(items, d)
    requires pos <= |data| && data[pos..] == CodeAll(items, d)
    ensures Stands(data, pos, items[0], d) && data[pos + |Code(items[0], d)|..] == CodeAll(items[1..], d)
  {
    TailSplits(data, pos, Code(items[0], d), CodeAll(items[1..], d));
  }

  lemma FirstScreen(i: Item, rest: seq<Item>, d: Depth, w: nat, s: Screen, later: seq<Screen>)
    requires s.Valid() && Writable(i, d) && Screens(rest, d, w, later) && Does(i, d, w, s, later[0])
    ensures Screens([i] + rest, d, w, [s] + later)
  {
    var items, ss := [i] + rest, [s] + later;
    forall j | 0 <= j < |items|
      ensures ss[j].Valid() && Writable(items[j], d) && Does(items[j], d, w, ss[j], ss[j + 1])
    {
      if j > 0 {
        assert Does(rest[j - 1], d, w, later[j - 1], later[j - 1 + 1]);
      }
    }
  }
}
