/** Palette blocks: an encoder for blocks of one, two or four cached colours, and the proof that the interpreter paints
those blocks. */
module PaletteTiles {
  import opened Bits
  import opened Coefficients
  import opened TileMachine
  import opened Raster

  /** What a slot of a palette block says: show a colour the cache still has under a number, or put a 24-bit [Y Cb Cr]
  colour there first. */
  datatype Slot = Recall(num: nat) | Refill(num: nat, colour: nat)

  /** A block that refreshes one, two or four slots, or none, and which of them each of its 64 samples shows. */
  datatype Swatch = Swatch(slots: seq<Slot>, picks: seq<nat>) {
    predicate Valid() {
      && |picks| == 64 && (|slots| == 0 || |slots| == 1 || |slots| == 2 || |slots| == 4)
      && (forall i :: 0 <= i < |slots| ==> slots[i].num < 4 && (slots[i].Refill? ==> slots[i].colour < 0x100_0000))
    }
  }

  type Patch = u: Swatch | u.Valid() witness Swatch([], seq(64, _ => 0))

  /** A cached colour is opaque. */
  function Opaque(v: nat): nat {
    0xFF00_0000 + v
  }

  /** The bits each sample takes to tell the colours apart: a block that refreshes no slot shows as many as the one before. */
  function PickWidth(u: Patch, vb: Palette): (e: nat)
    ensures e <= 2
  {
    if |u.slots| == 0 then vb.entropy else if |u.slots| == 1 then 0 else if |u.slots| == 2 then 1 else 2
  }

  /** How many colours there are to pick from. */
  predicate CanPick(u: Patch, vb: Palette) {
    forall i :: 0 <= i < 64 ==> u.picks[i] < if PickWidth(u, vb) == 0 then 1 else if PickWidth(u, vb) == 1 then 2 else 4
  }

  /** The cache after slot `i` has been set. */
  function WithSlot(vb: Palette, i: nat, slot: Slot): (r: Palette)
    requires i < 4 && slot.num < 4
  {
    match slot
    case Recall(num) => vb.(index := vb.index[i := num])
    case Refill(num, colour) => vb.(index := vb.index[i := num], colors := vb.colors[num := Opaque(colour)])
  }

  /** The cache once slots `i` and up are set. */
  function Refreshed(vb: Palette, u: Patch, i: nat): (r: Palette)
    requires i <= |u.slots|
    ensures r.entropy == vb.entropy
    decreases u, |u.slots| - i
  {
    if i == |u.slots| then vb else Refreshed(WithSlot(vb, i, u.slots[i]), u, i + 1)
  }

  /** The cache after a block. */
  function CacheAfter(vb: Palette, u: Patch): Palette {
    Refreshed(vb.(entropy := PickWidth(u, vb)), u, 0)
  }

  /** The samples a block shows with a cache. */
  function Shows(u: Patch, vb: Palette): (s: Samples)
    requires CanPick(u, vb)
  {
    var f := CacheAfter(vb, u);
    seq(64, i requires 0 <= i < 64 => f.colors[f.index[u.picks[i]]])
  }

  // ---- codes --------------------------------------------------------------

  /** Where a block goes: to the next cell, or to a column and row of its own. */
  datatype Spot = Onward | At(j: nat, k: nat)

  predicate InBytes(at: Spot) {
    at.At? ==> at.j < 256 && at.k < 256
  }

  /** The three low bits of an opcode. */
  type Three = b: seq<bool> | |b| == 3 witness [false, false, false]

  /** The header of a block: the opcode, its first bit set when a column and a row in eight bits each follow. */
  function Lead(kind: Three, at: Spot): (b: seq<bool>)
    ensures |b| == if at.At? then 20 else 4
  {
    match at
    case Onward => [false] + kind
    case At(j, k) => [true] + kind + (BitsOf(j, 8) + BitsOf(k, 8))
  }

  const KEEP: Three := [true, false, false]
  const REFRESH_ONE: Three := [true, false, true]
  const REFRESH_TWO: Three := [true, true, false]
  const REFRESH_FOUR: Three := [true, true, true]

  function KindOf(u: Patch): Three {
    if |u.slots| == 0 then KEEP else if |u.slots| == 1 then REFRESH_ONE else if |u.slots| == 2 then REFRESH_TWO else REFRESH_FOUR
  }

  /** The code of a slot: whether a colour follows, the number it is cached under, and the colour. */
  function SlotCode(slot: Slot): (b: seq<bool>)
    ensures |b| == if slot.Refill? then 27 else 3
  {
    match slot
    case Recall(num) => BitsOf(num, 3)
    case Refill(num, colour) => BitsOf(4 + num, 3) + BitsOf(colour, 24)
  }

  function SlotCodes(u: Patch, i: nat): (b: seq<bool>)
    requires i <= |u.slots|
    decreases u, |u.slots| - i
  {
    if i == |u.slots| then [] else SlotCode(u.slots[i]) + SlotCodes(u, i + 1)
  }

  /** The bits of `n` samples. */
  function Wide(e: nat, n: nat): nat
    requires e <= 2
  {
    if e == 0 then 0 else if e == 1 then n else 2 * n
  }

  function PickCodes(u: Patch, e: nat, i: nat): (b: seq<bool>)
    requires i <= 64 && e <= 2
    ensures |b| == Wide(e, 64 - i)
    decreases u, 64 - i
  {
    if i == 64 then [] else BitsOf(u.picks[i], e) + PickCodes(u, e, i + 1)
  }

  /** The code of a block: its header, its slots, and its samples. */
  function EncodePatch(u: Patch, at: Spot, vb: Palette): (b: seq<bool>) {
    Lead(KindOf(u), at) + (SlotCodes(u, 0) + PickCodes(u, PickWidth(u, vb), 0))
  }

  // ---- reading it back ----------------------------------------------------

  /** The opcode that a header is read as: the three bits, and 8 for a position. */
  lemma {:induction false} LeadOpcode(r: GoodReader, m: Machine, kind: Three, at: Spot)
    requires InBytes(at) && Holds(r.bits, m.p, Lead(kind, at))
    ensures OpAt(r, m.p) == Val(kind) + (if at.At? then 8 else 0) && Val(kind) < 8
    ensures Head(r, at.At?, m) == m.(p := m.p + |Lead(kind, at)|, jb := if at.At? then at.j else m.jb, kb := if at.At? then at.k else m.kb)
  {
    match at {
      case Onward => FourBits(r, m.p, false, kind);
      case At(j, k) =>
        HoldsSplit(r.bits, m.p, [true] + kind, BitsOf(j, 8) + BitsOf(k, 8));
        HoldsSplit(r.bits, m.p + 4, BitsOf(j, 8), BitsOf(k, 8));
        FourBits(r, m.p, true, kind);
        assert Pow2(8) == 256;
        ValBitsOf(j, 8);
        ValBitsOf(k, 8);
    }
  }

  lemma {:induction false} FourBits(r: GoodReader, p: nat, first: bool, kind: Three)
    requires Holds(r.bits, p, [first] + kind)
    ensures OpAt(r, p) == Val(kind) + (if first then 8 else 0) && Val(kind) < 8
  {
    ValConcat([first], kind);
    ValBound(kind);
    assert Pow2(3) == 8 && [first][..0] == [];
    assert Val([first]) == if first then 1 else 0;
  }

  lemma ThreeBits(a: bool, b: bool, c: bool)
    ensures Val([a, b, c]) == (if a then 4 else 0) + (if b then 2 else 0) + (if c then 1 else 0)
  {
    var w := [a, b, c];
    assert w[..2] == [a, b] && [a, b][..1] == [a] && [a][..0] == [];
    assert Val([a]) == if a then 1 else 0;
    assert Val([a, b]) == 2 * Val([a]) + if b then 1 else 0;
  }

  /** The kinds of palette blocks, as numbers. */
  lemma KindNumbers(u: Patch)
    ensures Val(KindOf(u)) == if |u.slots| == 0 then 4 else if |u.slots| == 1 then 5 else if |u.slots| == 2 then 6 else 7
  {
    ThreeBits(true, false, false);
    ThreeBits(true, false, true);
    ThreeBits(true, true, false);
    ThreeBits(true, true, true);
  }

  /** The three bits of a slot's head. */
  lemma SlotHead(v: nat)
    requires v < 8
    ensures BitsOf(v, 3)[0] == (v >= 4) && Val(BitsOf(v, 3)) == v
  {
    assert Pow2(3) == 8;
    ValBitsOf(v, 3);
    assert BitsOf(v, 3) == BitsOf(v / 2, 2) + [v % 2 == 1];
    assert BitsOf(v / 2, 2) == BitsOf(v / 2 / 2, 1) + [v / 2 % 2 == 1];
  }

  lemma SlotRoundTrip(r: GoodReader, p: nat, vb: Palette, i: nat, slot: Slot)
    requires i < 4 && slot.num < 4 && (slot.Refill? ==> slot.colour < 0x100_0000) && Holds(r.bits, p, SlotCode(slot))
    ensures SlotAt(r, p, vb, i) == (p + |SlotCode(slot)|, WithSlot(vb, i, slot))
  {
    match slot {
      case Recall(num) => HeadRead(r, p, num);
      case Refill(num, colour) => RefillRoundTrip(r, p, vb, i, num, colour);
    }
  }

  lemma RefillRoundTrip(r: GoodReader, p: nat, vb: Palette, i: nat, num: nat, colour: nat)
    requires i < 4 && num < 4 && colour < 0x100_0000 && Holds(r.bits, p, BitsOf(4 + num, 3) + BitsOf(colour, 24))
    ensures SlotAt(r, p, vb, i) == (p + 27, WithSlot(vb, i, Refill(num, colour)))
  {
    HoldsSplit(r.bits, p, BitsOf(4 + num, 3), BitsOf(colour, 24));
    HeadRead(r, p, 4 + num);
    ColourRead(r, p + 3, colour);
    assert (4 + num) % 4 == num;
  }

  lemma HeadRead(r: GoodReader, p: nat, v: nat)
    requires v < 8 && Holds(r.bits, p, BitsOf(v, 3))
    ensures Val(Window(r.bits, p, 3)) == v && r.bits(p) == (v >= 4)
  {
    SlotHead(v);
    assert Window(r.bits, p, 3)[0] == r.bits(p + 0);
  }

  lemma ColourRead(r: GoodReader, p: nat, colour: nat)
    requires colour < 0x100_0000 && Holds(r.bits, p, BitsOf(colour, 24))
    ensures Val(Window(r.bits, p, 24)) == colour
  {
    ColourWidth();
    ValBitsOf(colour, 24);
  }

  lemma ColourWidth()
    ensures Pow2(24) == 0x100_0000
  {
    assert Pow2(8) == 0x100;
    Pow2Add(8, 8);
    Pow2Add(16, 8);
  }

  /** Coded slots land in the cache, each under its own number. */
  lemma {:induction false} SlotsRoundTrip(r: GoodReader, p: nat, vb: Palette, u: Patch, i: nat)
    requires i <= |u.slots| && Holds(r.bits, p, SlotCodes(u, i))
    ensures Refresh(r, p, vb, i, |u.slots|) == (p + |SlotCodes(u, i)|, Refreshed(vb, u, i))
    decreases |u.slots| - i
  {
    if i < |u.slots| {
      var code, rest := SlotCode(u.slots[i]), SlotCodes(u, i + 1);
      HoldsSplit(r.bits, p, code, rest);
      SlotRoundTrip(r, p, vb, i, u.slots[i]);
      SlotsRoundTrip(r, p + |code|, WithSlot(vb, i, u.slots[i]), u, i + 1);
    }
  }

  lemma {:induction false} PickRoundTrip(r: GoodReader, p: nat, u: Patch, e: nat, from: nat, i: nat)
    requires e <= 2 && from <= i < 64 && Holds(r.bits, p, PickCodes(u, e, from)) && u.picks[i] < Pow2(e)
    ensures Val(Window(r.bits, p + Wide(e, i - from), e)) == u.picks[i]
    decreases i - from
  {
    HoldsSplit(r.bits, p, BitsOf(u.picks[from], e), PickCodes(u, e, from + 1));
    if i == from {
      PickRead(r, p, u.picks[i], e);
    } else {
      PickRoundTrip(r, p + e, u, e, from + 1, i);
      assert Wide(e, i - from) == e + Wide(e, i - (from + 1));
    }
  }

  lemma PickRead(r: GoodReader, p: nat, pick: nat, e: nat)
    requires pick < Pow2(e) && Holds(r.bits, p, BitsOf(pick, e))
    ensures Val(Window(r.bits, p, e)) == pick
  {
    ValBitsOf(pick, e);
  }

  lemma WideIs(e: nat, n: nat)
    requires e <= 2
    ensures Wide(e, n) == n * e
  {
  }

  /** Coded samples are read as the colours they pick. */
  lemma PicksRoundTrip(r: GoodReader, p: nat, u: Patch, vb: Palette)
    requires CanPick(u, vb) && Holds(r.bits, p, PickCodes(u, PickWidth(u, vb), 0))
    ensures AllSamples(r, CacheAfter(vb, u), p) == Shows(u, vb)
  {
    var f, e := CacheAfter(vb, u), PickWidth(u, vb);
    forall i | 0 <= i < 64
      ensures Sample(r, f, p, i) == f.colors[f.index[u.picks[i]]]
    {
      assert Pow2(0) == 1 && Pow2(1) == 2 && Pow2(2) == 4;
      PickRoundTrip(r, p, u, e, 0, i);
      WideIs(e, i - 0);
    }
  }

  /** The palette block that follows a header: what it paints, what it leaves in the cache, and where it ends. */
  lemma PatchBlock(c: Config, r: GoodReader, u: Patch, at: Machine)
    requires CanPick(u, at.vb) && Holds(r.bits, at.p, SlotCodes(u, 0) + PickCodes(u, PickWidth(u, at.vb), 0))
    ensures BlockColour(c, r, Val(KindOf(u)), at) == PaletteColour(c.mode, Shows(u, at.vb))
    ensures var b := BlockOp(c, r, Val(KindOf(u)), at);
            && b.p == at.p + |SlotCodes(u, 0)| + |PickCodes(u, PickWidth(u, at.vb), 0)| && b.vb == CacheAfter(at.vb, u)
            && b.dcY == at.dcY && b.dcCb == at.dcCb && b.dcCr == at.dcCr
  {
    var e := PickWidth(u, at.vb);
    HoldsSplit(r.bits, at.p, SlotCodes(u, 0), PickCodes(u, e, 0));
    SlotsRoundTrip(r, at.p, at.vb.(entropy := e), u, 0);
    PicksRoundTrip(r, at.p + |SlotCodes(u, 0)|, u, at.vb);
    KindNumbers(u);
    WideIs(e, 64 - 0);
    PatchOp(c, r, u, at, at.p + |SlotCodes(u, 0)|);
  }

  lemma PatchOp(c: Config, r: GoodReader, u: Patch, at: Machine, p: nat)
    requires Refresh(r, at.p, at.vb.(entropy := PickWidth(u, at.vb)), 0, |u.slots|) == (p, CacheAfter(at.vb, u))
    requires Val(KindOf(u)) == if |u.slots| == 0 then 4 else if |u.slots| == 1 then 5 else if |u.slots| == 2 then 6 else 7
    ensures BlockColour(c, r, Val(KindOf(u)), at) == PaletteColour(c.mode, AllSamples(r, CacheAfter(at.vb, u), p))
    ensures BlockOp(c, r, Val(KindOf(u)), at) == PaletteBlock(c, r, at.(p := p, vb := CacheAfter(at.vb, u)))
  {
    if |u.slots| == 0 {
      assert Refresh(r, at.p, at.vb, 0, 0) == (at.p, at.vb);
      assert at.vb.(entropy := at.vb.entropy) == at.vb;
    }
  }

  /** Where a block goes from a position. */
  function PlaceOf(at: Spot, j: nat, k: nat): (nat, nat) {
    if at.At? then (at.j, at.k) else (j, k)
  }

  /** A coded palette block is one step: it paints its colours in its place, leaves the cache as its slots say and the
  predictors alone, and moves past exactly its bits. */
  lemma PatchStep(c: Config, r: GoodReader, u: Patch, at: Spot, m: Machine)
    requires InBytes(at) && CanPick(u, m.vb) && Holds(r.bits, m.p, EncodePatch(u, at, m.vb))
    ensures !Halts(OpAt(r, m.p))
    ensures var m' := Step(c, r, m);
            var place := PlaceOf(at, m.jb, m.kb);
            && BlockStep(c, m, m', place.0, place.1, PaletteColour(c.mode, Shows(u, m.vb)))
            && m'.p == m.p + |EncodePatch(u, at, m.vb)| && m'.vb == CacheAfter(m.vb, u)
            && m'.dcY == m.dcY && m'.dcCb == m.dcCb && m'.dcCr == m.dcCr
  {
    var lead, rest := Lead(KindOf(u), at), SlotCodes(u, 0) + PickCodes(u, PickWidth(u, m.vb), 0);
    HoldsSplit(r.bits, m.p, lead, rest);
    LeadOpcode(r, m, KindOf(u), at);
    KindNumbers(u);
    PatchBlock(c, r, u, Head(r, at.At?, m));
    OpcodeIsBlockStep(c, r, m);
  }

  // ---- blocks with colours of their own -----------------------------------

  /** A block that brings all the colours it shows: one, two or four. */
  function Fresh(colours: seq<nat>, picks: seq<nat>): (u: Patch)
    requires |colours| == 1 || |colours| == 2 || |colours| == 4
    requires |picks| == 64 && forall i :: 0 <= i < |colours| ==> colours[i] < 0x100_0000
  {
    Swatch(seq(|colours|, i requires 0 <= i < |colours| => Refill(i, colours[i])), picks)
  }

  /** Whatever the cache held, it shows exactly those colours, in 31, 122 or 240 bits. */
  lemma FreshShows(colours: seq<nat>, picks: seq<nat>, vb: Palette)
    requires |colours| == 1 || |colours| == 2 || |colours| == 4
    requires |picks| == 64 && forall i :: 0 <= i < |colours| ==> colours[i] < 0x100_0000
    requires forall i :: 0 <= i < 64 ==> picks[i] < |colours|
    ensures var u := Fresh(colours, picks);
            && CanPick(u, vb) && (forall i :: 0 <= i < 64 ==> Shows(u, vb)[i] == Opaque(colours[picks[i]]))
            && |EncodePatch(u, Onward, vb)| == if |colours| == 1 then 31 else if |colours| == 2 then 122 else 240
  {
    var u := Fresh(colours, picks);
    var w := vb.(entropy := PickWidth(u, vb));
    SlotLengths(u, 0);
    FreshCache(w, u, colours, 0);
    assert forall i :: 0 <= i < |colours| ==> CacheAfter(vb, u).index[i] == i && CacheAfter(vb, u).colors[i] == Opaque(colours[i]);
  }

  lemma {:induction false} SlotLengths(u: Patch, i: nat)
    requires i <= |u.slots| && forall k :: 0 <= k < |u.slots| ==> u.slots[k].Refill?
    ensures |SlotCodes(u, i)| == 27 * (|u.slots| - i)
    decreases |u.slots| - i
  {
    if i < |u.slots| {
      SlotLengths(u, i + 1);
    }
  }

  lemma {:induction false} FreshCache(vb: Palette, u: Patch, colours: seq<nat>, i: nat)
    requires i <= |u.slots| == |colours| <= 4
    requires forall k :: 0 <= k < |colours| ==> u.slots[k] == Refill(k, colours[k])
    requires forall k :: 0 <= k < i ==> vb.index[k] == k && vb.colors[k] == Opaque(colours[k])
    ensures forall k :: 0 <= k < |colours| ==> Refreshed(vb, u, i).index[k] == k && Refreshed(vb, u, i).colors[k] == Opaque(colours[k])
    decreases |u.slots| - i
  {
    if i < |u.slots| {
      FreshCache(WithSlot(vb, i, u.slots[i]), u, colours, i + 1);
    }
  }
}
