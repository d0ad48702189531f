/** The RMCP+ session envelope and the payload padding inside it. HMAC and AES-CBC are parameters: a digest of
fixed length, and for each key and initialisation vector a length-preserving bijection on whole blocks. */
module Rmcp {
  import opened Basics
  import opened Bits
  import opened Endian

  datatype Option<T> = None | Some(value: T)

  datatype Cipher = Cipher(hmac: (seq<byte>, seq<byte>) -> seq<byte>,
                           enc: (seq<byte>, seq<byte>, seq<byte>) -> seq<byte>,
                           dec: (seq<byte>, seq<byte>, seq<byte>) -> seq<byte>) {
    ghost predicate Good() {
      && (forall k, d {:trigger hmac(k, d)} :: |hmac(k, d)| == 20)
      && (forall k, iv, p {:trigger enc(k, iv, p)} :: |p| % 16 == 0 ==> |enc(k, iv, p)| == |p| && dec(k, iv, enc(k, iv, p)) == p)
      && (forall k, iv, c {:trigger dec(k, iv, c)} :: |c| % 16 == 0 ==> |dec(k, iv, c)| == |c| && enc(k, iv, dec(k, iv, c)) == c)
    }
  }

  type Crypto = c: Cipher | c.Good() ghost witness
    Cipher((k: seq<byte>, d: seq<byte>) => seq(20, _ => 0),
           (k: seq<byte>, iv: seq<byte>, p: seq<byte>) => p, (k: seq<byte>, iv: seq<byte>, c: seq<byte>) => c)

  // ---- confidentiality padding --------------------------------------------

  /** 1, 2, ..., n. */
  function Ramp(n: nat): (r: seq<byte>)
    requires n < 256
    ensures |r| == n && forall i :: 0 <= i < n ==> r[i] == i + 1
  {
    seq(n, i requires 0 <= i < n => i + 1)
  }

  /** How many bytes of padding a plaintext of length `n` takes before the pad-length byte. */
  function PadLen(n: nat): (p: nat)
    ensures p <= 15 && (n + p + 1) % 16 == 0
  {
    var p := 16 - (n + 1) % 16;
    if p == 16 then 0 else p
  }

  function Pad(plain: seq<byte>): (out: seq<byte>)
    ensures |out| % 16 == 0 && |out| == |plain| + PadLen(|plain|) + 1
  {
    plain + Ramp(PadLen(|plain|)) + [PadLen(|plain|)]
  }

  function Strip(buf: seq<byte>): (r: Option<seq<byte>>) {
    if |buf| == 0 then None
    else
      var padLen: int := buf[|buf| - 1];
      if padLen > 15 || padLen + 1 > |buf| then None
      else if buf[|buf| - 1 - padLen..|buf| - 1] != Ramp(padLen) then None
      else Some(buf[..|buf| - padLen - 1])
  }

  /** Padding strips back to the plaintext. */
  lemma StripPad(plain: seq<byte>)
    ensures Strip(Pad(plain)) == Some(plain)
  {
    var buf, n := Pad(plain), PadLen(|plain|);
    assert buf[|buf| - 1 - n..|buf| - 1] == Ramp(n);
    assert buf[..|buf| - n - 1] == plain;
  }

  /** The padding of a plaintext: 1, 2, 3 and so on up to whole blocks, their number last. */
  lemma PadLayout(plain: seq<byte>)
    ensures var out, n := Pad(plain), PadLen(|plain|);
            && n < 16 && |out| == |plain| + n + 1 && |out| % 16 == 0 && out[..|plain|] == plain && out[|out| - 1] == n
            && forall i :: |plain| <= i < |plain| + n ==> out[i] == i - |plain| + 1
  {
  }

  /** A buffer of whole blocks that is accepted is the padding of what is returned, and of nothing else. */
  lemma PadStrip(buf: seq<byte>)
    requires |buf| % 16 == 0 && Strip(buf).Some?
    ensures Pad(Strip(buf).value) == buf
  {
    var plain := Strip(buf).value;
    var n: int := buf[|buf| - 1];
    OnlyPad(|plain|, n);
    assert buf == plain + buf[|plain|..|buf| - 1] + [buf[|buf| - 1]];
  }

  lemma OnlyPad(n: nat, p: nat)
    requires p <= 15 && (n + p + 1) % 16 == 0
    ensures p == PadLen(n)
  {
  }

  method AesEncryptPayload(c: Crypto, key: seq<byte>, iv: seq<byte>, plain: seq<byte>) returns (ct: seq<byte>)
    ensures ct == c.enc(key, iv, Pad(plain))
  {
    var padLen := 16 - (|plain| + 1) % 16;
    if padLen == 16 {
      padLen := 0;
    }
    var out := plain;
    for i := 1 to padLen + 1
      invariant out == plain + Ramp(i - 1)
    {
      assert Ramp(i) == Ramp(i - 1) + [i];
      out := out + [i];
    }
    out := out + [padLen];
    ct := c.enc(key, iv, out);
  }

  /** Decryption: it refuses unaligned or empty input and malformed padding. */
  function Decrypt(c: Crypto, key: seq<byte>, iv: seq<byte>, ct: seq<byte>): (r: Option<seq<byte>>) {
    if |ct| % 16 != 0 || |ct| == 0 then None else Strip(c.dec(key, iv, ct))
  }

  method AesDecryptPayload(c: Crypto, key: seq<byte>, iv: seq<byte>, ct: seq<byte>) returns (r: Option<seq<byte>>)
    ensures r == Decrypt(c, key, iv, ct)
  {
    if |ct| % 16 != 0 || |ct| == 0 {
      return None;
    }
    r := StripPadding(c.dec(key, iv, ct));
  }

  method StripPadding(pt: seq<byte>) returns (r: Option<seq<byte>>)
    requires |pt| > 0
    ensures r == Strip(pt)
  {
    var padLen: int := pt[|pt| - 1];
    if padLen > 15 || padLen + 1 > |pt| {
      return None;
    }
    RampIff(pt, |pt| - 1 - padLen, padLen);
    for i := 0 to padLen
      invariant forall x :: |pt| - 1 - i <= x < |pt| - 1 ==> pt[x] == x - (|pt| - 1 - padLen) + 1
    {
      if pt[|pt| - 2 - i] != padLen - i {
        return None;
      }
    }
    r := Some(pt[..|pt| - padLen - 1]);
  }

  lemma RampIff(buf: seq<byte>, at: int, n: nat)
    requires 0 <= at && at + n <= |buf| && n < 256
    ensures buf[at..at + n] == Ramp(n) <==> forall x :: at <= x < at + n ==> buf[x] == x - at + 1
  {
    var s := buf[at..at + n];
    if s == Ramp(n) {
      forall x | at <= x < at + n
        ensures buf[x] == x - at + 1
      {
        assert s[x - at] == Ramp(n)[x - at];
      }
    }
  }

  // ---- comparing ----------------------------------------------------------

  function Mix8(v: seq<bool>, x: byte, y: byte): (r: seq<bool>)
    requires |v| == 8
    ensures |r| == 8
  {
    var a, b := BitsOf(x, 8), BitsOf(y, 8);
    seq(8, i requires 0 <= i < 8 => v[i] || a[i] != b[i])
  }

  /** v | (x ^ y) is zero only if v was zero and x equals y. */
  lemma MixZero(v: seq<bool>, x: byte, y: byte)
    requires |v| == 8
    ensures Mix8(v, x, y) == Zeros(8) <==> v == Zeros(8) && x == y
  {
    assert Pow2(8) == 256;
    ValBitsOf(x, 8);
    ValBitsOf(y, 8);
    var m := Mix8(v, x, y);
    if m == Zeros(8) {
      forall i | 0 <= i < 8 ensures !v[i] && BitsOf(x, 8)[i] == BitsOf(y, 8)[i] { assert !m[i]; }
      assert BitsOf(x, 8) == BitsOf(y, 8);
    }
  }

  method EqualBytes(a: seq<byte>, b: seq<byte>) returns (eq: bool)
    ensures eq <==> a == b
  {
    if |a| != |b| {
      return false;
    }
    var v := Zeros(8);
    for i := 0 to |a|
      invariant |v| == 8 && (v == Zeros(8) <==> a[..i] == b[..i])
    {
      MixZero(v, a[i], b[i]);
      assert a[..i + 1] == a[..i] + [a[i]] && b[..i + 1] == b[..i] + [b[i]];
      v := Mix8(v, a[i], b[i]);
    }
    assert a[..|a|] == a && b[..|b|] == b;
    return v == Zeros(8);
  }

  // ---- the envelope -------------------------------------------------------

  const RMCP_HEADER: seq<byte> := [0x06, 0x00, 0xFF, 0x07]

  /** What a session envelope carries. */
  datatype Message = Message(kind: nat, session: nat, num: nat, payload: seq<byte>)

  /** Keys, absent or present: the integrity key, and the encryption key with an initialisation vector. */
  datatype Keys = Keys(k1: Option<seq<byte>>, k2: Option<seq<byte>>, iv: Option<seq<byte>>) {
    predicate Enc() {
      k2.Some? && iv.Some?
    }

    predicate Valid() {
      (k2.Some? ==> |k2.value| >= 16) && (iv.Some? ==> |iv.value| == 16)
    }
  }

  predicate Fits(m: Message) {
    m.kind < 64 && m.session < 0x1_0000_0000 && m.num < 0x1_0000_0000
  }

  function Body(c: Crypto, m: Message, k: Keys): (b: seq<byte>)
    requires k.Valid()
  {
    if k.Enc() then k.iv.value + c.enc(k.k2.value[..16], k.iv.value, Pad(m.payload)) else m.payload
  }

  function KindByte(m: Message, k: Keys): byte
    requires Fits(m)
  {
    m.kind + (if k.k1.Some? then 0x40 else 0) + (if k.Enc() then 0x80 else 0)
  }

  function Header(m: Message, k: Keys, bodyLen: nat): (h: seq<byte>)
    requires Fits(m)
    ensures |h| == 12
  {
    [0x06, KindByte(m, k)] + Le(m.session, 4) + Le(m.num, 4) + Le(bodyLen, 2)
  }

  /** The number of pad bytes that, with the two bytes after them, align the integrity range. */
  function TrailerPad(n: nat): (p: nat)
    ensures p < 4 && (n + p + 2) % 4 == 0
  {
    (4 - (n + 2) % 4) % 4
  }

  function Trailer(n: nat): (t: seq<byte>)
    ensures |t| == TrailerPad(n) + 2
  {
    Copies(0xFF, TrailerPad(n)) + [TrailerPad(n), 0x07]
  }

  /** The range the integrity code covers: from the authentication type to the next-header byte. */
  function Signed(c: Crypto, m: Message, k: Keys): (r: seq<byte>)
    requires Fits(m) && k.Valid()
    ensures |r| % 4 == 0
  {
    var t := Header(m, k, |Body(c, m, k)|) + Body(c, m, k);
    t + Trailer(|t|)
  }

  function Build(c: Crypto, m: Message, k: Keys): (pkt: seq<byte>)
    requires Fits(m) && k.Valid()
  {
    if k.k1.Some? then RMCP_HEADER + Signed(c, m, k) + c.hmac(k.k1.value, Signed(c, m, k))[..12]
    else RMCP_HEADER + (Header(m, k, |Body(c, m, k)|) + Body(c, m, k))
  }

  method BuildRMCPPlus(c: Crypto, m: Message, k: Keys) returns (pkt: seq<byte>)
    requires Fits(m) && k.Valid()
    ensures pkt == Build(c, m, k)
  {
    var body := m.payload;
    if k.k2.Some? && k.iv.Some? {
      body := AesEncryptPayload(c, k.k2.value[..16], k.iv.value, m.payload);
      body := k.iv.value + body;
    }
    var t := Header(m, k, |body|) + body;
    pkt := RMCP_HEADER + t;
    if k.k1.Some? {
      pkt := AddTrailer(pkt);
      Regroup(RMCP_HEADER, t, Trailer(|t|));
      assert pkt[4..] == t + Trailer(|t|);
      var mac := c.hmac(k.k1.value, pkt[4..]);
      pkt := pkt + mac[..12];
    }
  }

  /** The pad bytes, their number and the next-header byte. */
  method AddTrailer(pkt: seq<byte>) returns (r: seq<byte>)
    requires |pkt| >= 4
    ensures r == pkt + Trailer(|pkt| - 4)
  {
    var padLen := (4 - (|pkt| - 4 + 2) % 4) % 4;
    r := pkt;
    for i := 0 to padLen
      invariant r == pkt + Copies(0xFF, i)
    {
      assert Copies(0xFF, i + 1) == Copies(0xFF, i) + [0xFF];
      r := r + [0xFF];
    }
    r := r + [padLen];
    r := r + [0x07];
  }

  /** The part of a packet after the RMCP header, its length fields and the trailer, as the parser reads them. */
  function Parse(c: Crypto, pkt: seq<byte>, k1: Option<seq<byte>>, k2: Option<seq<byte>>): (r: Option<Message>)
    requires k2.Some? ==> |k2.value| >= 16
  {
    if |pkt| < 16 || pkt[0] != 0x06 || pkt[3] != 0x07 || pkt[4] != 0x06 then None
    else
      var auth, enc := pkt[5] / 64 % 2 == 1, pkt[5] / 128 == 1;
      var bodyEnd := 16 + UintLe(pkt[14..16]);
      if bodyEnd > |pkt| || (auth && !Sealed(c, pkt, k1, bodyEnd)) then None
      else Opened(c, Message(pkt[5] % 64, UintLe(pkt[6..10]), UintLe(pkt[10..14]), pkt[16..bodyEnd]), enc, k2)
  }

  /** A message as received, its payload decrypted if it is marked as encrypted. */
  function Opened(c: Crypto, m: Message, enc: bool, k2: Option<seq<byte>>): (r: Option<Message>)
    requires k2.Some? ==> |k2.value| >= 16
  {
    if !enc then Some(m)
    else if |m.payload| < 16 || k2.None? then None
    else
      match Decrypt(c, k2.value[..16], m.payload[..16], m.payload[16..])
      case None => None
      case Some(p) => Some(m.(payload := p))
  }

  /** The trailer, read from the end of the packet, starts where the payload ends, and the code matches. */
  predicate Sealed(c: Crypto, pkt: seq<byte>, k1: Option<seq<byte>>, bodyEnd: nat)
    requires 16 <= bodyEnd <= |pkt|
  {
    && k1.Some? && |pkt| >= bodyEnd + 2 + 12
    && bodyEnd + pkt[|pkt| - 14] as int + 2 == |pkt| - 12
    && c.hmac(k1.value, pkt[4..|pkt| - 12])[..12] == pkt[|pkt| - 12..]
  }

  method ParseRMCPPlus(c: Crypto, pkt: seq<byte>, k1: Option<seq<byte>>, k2: Option<seq<byte>>) returns (r: Option<Message>)
    requires k2.Some? ==> |k2.value| >= 16
    ensures r == Parse(c, pkt, k1, k2)
  {
    if |pkt| < 16 || pkt[0] != 0x06 || pkt[3] != 0x07 || pkt[4] != 0x06 {
      return None;
    }
    var auth, enc := pkt[5] / 64 % 2 == 1, pkt[5] / 128 == 1;
    var kind, session, num := pkt[5] % 64, UintLe(pkt[6..10]), UintLe(pkt[10..14]);
    var bodyEnd := 16 + UintLe(pkt[14..16]);
    if bodyEnd > |pkt| {
      return None;
    }
    if auth {
      if k1.None? || |pkt| < bodyEnd + 2 + 12 {
        return None;
      }
      var macAt := |pkt| - 12;
      var padLen: int := pkt[macAt - 2];
      if bodyEnd + padLen + 2 != macAt {
        return None;
      }
      var mac := c.hmac(k1.value, pkt[4..macAt]);
      assert pkt[macAt..macAt + 12] == pkt[macAt..];
      var same := EqualBytes(mac[..12], pkt[macAt..macAt + 12]);
      if !same {
        return None;
      }
    }
    var body := pkt[16..bodyEnd];
    if enc {
      if |body| < 16 || k2.None? {
        return None;
      }
      var p := AesDecryptPayload(c, k2.value[..16], body[..16], body[16..]);
      return if p.Some? then Some(Message(kind, session, num, p.value)) else None;
    }
    r := Some(Message(kind, session, num, body));
  }

  // ---- the parser inverts the builder -------------------------------------

  /** Where the parser finds the parts of a packet that starts with a header and a body. */
  lemma Fields(m: Message, k: Keys, body: seq<byte>, rest: seq<byte>)
    requires Fits(m)
    ensures var pkt := RMCP_HEADER + (Header(m, k, |body|) + body) + rest;
            && |pkt| == 16 + |body| + |rest| && pkt[0] == 0x06 && pkt[3] == 0x07 && pkt[4] == 0x06 && pkt[5] == KindByte(m, k)
            && UintLe(pkt[6..10]) == m.session && UintLe(pkt[10..14]) == m.num && UintLe(pkt[14..16]) == |body| % 0x1_0000
            && pkt[16..16 + |body|] == body && pkt[4..16 + |body|] == Header(m, k, |body|) + body
  {
    Sections([0x06, KindByte(m, k)], Le(m.session, 4), Le(m.num, 4), Le(|body|, 2), body, rest);
    Widths();
    LeFits(m.session, 4);
    LeFits(m.num, 4);
    LeRoundTrip(|body|, 2);
  }

  /** Where the fields of a header lie in a packet. */
  lemma Sections(kind: seq<byte>, session: seq<byte>, num: seq<byte>, len: seq<byte>, body: seq<byte>, rest: seq<byte>)
    requires |kind| == 2 && |session| == 4 && |num| == 4 && |len| == 2
    ensures var hdr := kind + session + num + len;
            var pkt := RMCP_HEADER + (hdr + body) + rest;
            && |pkt| == 16 + |body| + |rest| && pkt[0] == 0x06 && pkt[3] == 0x07 && pkt[4] == kind[0] && pkt[5] == kind[1]
            && pkt[6..10] == session && pkt[10..14] == num && pkt[14..16] == len
            && pkt[16..16 + |body|] == body && pkt[4..16 + |body|] == hdr + body
  {
    var hdr := kind + session + num + len;
    var part := hdr + body;
    var pkt := RMCP_HEADER + part + rest;
    HeaderSlices(kind, session, num, len);
    Middle(RMCP_HEADER, part, rest);
    PacketSlice(pkt, hdr, body, 0, 2);
    PacketSlice(pkt, hdr, body, 2, 6);
    PacketSlice(pkt, hdr, body, 6, 10);
    PacketSlice(pkt, hdr, body, 10, 12);
    SubSlice(pkt, 4, 16 + |body|, 12, 12 + |body|);
    assert part[12..12 + |body|] == body;
    assert pkt[4] == pkt[4..6][0] && pkt[5] == pkt[4..6][1];
  }

  lemma PacketSlice(pkt: seq<byte>, hdr: seq<byte>, body: seq<byte>, x: int, y: int)
    requires |hdr| == 12 && |pkt| >= 16 + |body| && pkt[4..16 + |body|] == hdr + body && 0 <= x <= y <= 12
    ensures pkt[4 + x..4 + y] == hdr[x..y]
  {
    SubSlice(pkt, 4, 16 + |body|, x, y);
    SliceLeft(hdr, body, x, y);
  }

  lemma HeaderSlices(kind: seq<byte>, session: seq<byte>, num: seq<byte>, len: seq<byte>)
    requires |kind| == 2 && |session| == 4 && |num| == 4 && |len| == 2
    ensures var hdr := kind + session + num + len;
            hdr[0..2] == kind && hdr[2..6] == session && hdr[6..10] == num && hdr[10..12] == len
  {
    var a := kind + session;
    var b := a + num;
    assert a[0..2] == kind && a[2..6] == session;
    SliceLeft(a, num, 0, 2);
    SliceLeft(a, num, 2, 6);
    assert b[6..10] == num;
    SliceLeft(b, len, 0, 2);
    SliceLeft(b, len, 2, 6);
    SliceLeft(b, len, 6, 10);
  }

  lemma KindBits(m: Message, k: Keys)
    requires Fits(m)
    ensures var b := KindByte(m, k); b % 64 == m.kind && (b / 64 % 2 == 1 <==> k.k1.Some?) && (b / 128 == 1 <==> k.Enc())
  {
  }

  /** What comes after the body. */
  function Rest(c: Crypto, m: Message, k: Keys): (rest: seq<byte>)
    requires Fits(m) && k.Valid()
  {
    if k.k1.None? then []
    else
      var t := Header(m, k, |Body(c, m, k)|) + Body(c, m, k);
      Trailer(|t|) + c.hmac(k.k1.value, t + Trailer(|t|))[..12]
  }

  lemma BuildParts(c: Crypto, m: Message, k: Keys)
    requires Fits(m) && k.Valid()
    ensures Build(c, m, k) == RMCP_HEADER + (Header(m, k, |Body(c, m, k)|) + Body(c, m, k)) + Rest(c, m, k)
  {
    if k.k1.Some? {
      var t := Header(m, k, |Body(c, m, k)|) + Body(c, m, k);
      var mac := c.hmac(k.k1.value, t + Trailer(|t|))[..12];
      Regroup(RMCP_HEADER, t, Trailer(|t|));
      Regroup(RMCP_HEADER + t, Trailer(|t|), mac);
    }
  }

  /** The trailer of a built packet is accepted at a claimed end of the payload exactly if that is where the
  payload ends. */
  lemma SealedAtEnd(c: Crypto, m: Message, k: Keys, bodyEnd: nat)
    requires Fits(m) && k.Valid() && k.k1.Some? && 16 <= bodyEnd <= |Build(c, m, k)|
    ensures Sealed(c, Build(c, m, k), k.k1, bodyEnd) <==> bodyEnd == 16 + |Body(c, m, k)|
  {
    var body, pkt := Body(c, m, k), Build(c, m, k);
    var t := Header(m, k, |body|) + body;
    var mac := c.hmac(k.k1.value, t + Trailer(|t|))[..12];
    assert pkt == RMCP_HEADER + (t + Trailer(|t|)) + mac;
    assert pkt[|pkt| - 12..] == mac && pkt[4..|pkt| - 12] == t + Trailer(|t|);
    assert pkt[|pkt| - 14] == TrailerPad(|t|);
  }

  /** In every mode the parser returns what was built exactly if the body fits the 16-bit length field. */
  lemma EnvelopeRoundTrip(c: Crypto, m: Message, k: Keys)
    requires Fits(m) && k.Valid()
    ensures Parse(c, Build(c, m, k), k.k1, k.k2) == Some(m) <==> |Body(c, m, k)| < 0x1_0000
  {
    if |Body(c, m, k)| < 0x1_0000 {
      ShortReturned(c, m, k);
    } else {
      LongNotReturned(c, m, k);
    }
  }

  /** A header the parser accepts, with these fields. */
  predicate Announces(pkt: seq<byte>, kind: nat, session: nat, num: nat, len: nat) {
    && |pkt| >= 16 && pkt[0] == 0x06 && pkt[3] == 0x07 && pkt[4] == 0x06 && pkt[5] % 64 == kind
    && UintLe(pkt[6..10]) == session && UintLe(pkt[10..14]) == num && UintLe(pkt[14..16]) == len
  }

  /** What the parser reads in the header of a built packet. */
  lemma BuiltFields(c: Crypto, m: Message, k: Keys)
    requires Fits(m) && k.Valid()
    ensures var pkt, body := Build(c, m, k), Body(c, m, k);
            && |pkt| >= 16 + |body| && Announces(pkt, m.kind, m.session, m.num, |body| % 0x1_0000)
            && (pkt[5] / 64 % 2 == 1 <==> k.k1.Some?) && (pkt[5] / 128 == 1 <==> k.Enc()) && pkt[16..16 + |body|] == body
  {
    BuildParts(c, m, k);
    Fields(m, k, Body(c, m, k), Rest(c, m, k));
    KindBits(m, k);
  }

  lemma ShortReturned(c: Crypto, m: Message, k: Keys)
    requires Fits(m) && k.Valid() && |Body(c, m, k)| < 0x1_0000
    ensures Parse(c, Build(c, m, k), k.k1, k.k2) == Some(m)
  {
    BuildParts(c, m, k);
    if k.k1.Some? {
      SealedAtEnd(c, m, k, 16 + |Body(c, m, k)|);
    }
    PartsParse(c, m, k, Body(c, m, k), Rest(c, m, k), Build(c, m, k));
    BodyOpens(c, m, k);
  }

  lemma PartsParse(c: Crypto, m: Message, k: Keys, body: seq<byte>, rest: seq<byte>, pkt: seq<byte>)
    requires Fits(m) && k.Valid() && |body| < 0x1_0000 && pkt == RMCP_HEADER + (Header(m, k, |body|) + body) + rest
    requires k.k1.Some? ==> Sealed(c, pkt, k.k1, 16 + |body|)
    ensures Parse(c, pkt, k.k1, k.k2) == Opened(c, m.(payload := body), k.Enc(), k.k2)
  {
    Fields(m, k, body, rest);
    KindBits(m, k);
    ParsesAs(c, pkt, k.k1, k.k2, m.(payload := body));
  }

  lemma ParsesAs(c: Crypto, pkt: seq<byte>, k1: Option<seq<byte>>, k2: Option<seq<byte>>, m: Message)
    requires k2.Some? ==> |k2.value| >= 16
    requires |pkt| >= 16 + |m.payload| && Announces(pkt, m.kind, m.session, m.num, |m.payload|)
    requires pkt[16..16 + |m.payload|] == m.payload && (pkt[5] / 64 % 2 == 1 ==> Sealed(c, pkt, k1, 16 + |m.payload|))
    ensures Parse(c, pkt, k1, k2) == Opened(c, m, pkt[5] / 128 == 1, k2)
  {
  }

  lemma LongNotReturned(c: Crypto, m: Message, k: Keys)
    requires Fits(m) && k.Valid() && |Body(c, m, k)| >= 0x1_0000
    ensures Parse(c, Build(c, m, k), k.k1, k.k2) != Some(m)
  {
    var body, pkt := Body(c, m, k), Build(c, m, k);
    BuiltFields(c, m, k);
    TruncatedBody(c, m, k, pkt[16..16 + |body| % 0x1_0000]);
  }

  lemma BodyOpens(c: Crypto, m: Message, k: Keys)
    requires k.Valid()
    ensures Opened(c, m.(payload := Body(c, m, k)), k.Enc(), k.k2) == Some(m)
  {
    if k.Enc() {
      StripPad(m.payload);
      var body := Body(c, m, k);
      assert body[..16] == k.iv.value && body[16..] == c.enc(k.k2.value[..16], k.iv.value, Pad(m.payload));
    }
  }

  /** A shorter body never yields the whole payload. */
  lemma TruncatedBody(c: Crypto, m: Message, k: Keys, part: seq<byte>)
    requires k.Valid() && |part| + 0x1_0000 <= |Body(c, m, k)|
    ensures Opened(c, m.(payload := part), k.Enc(), k.k2) != Some(m)
  {
  }

  /** No other message is ever returned for a packet built for `m` with an integrity code: it is parsed as `m` or
  refused. */
  lemma SealedIsExact(c: Crypto, m: Message, k: Keys)
    requires Fits(m) && k.Valid() && k.k1.Some?
    ensures var r := Parse(c, Build(c, m, k), k.k1, k.k2); r == None || r == Some(m)
  {
    var body := Body(c, m, k);
    if |body| < 0x1_0000 {
      ShortReturned(c, m, k);
    } else {
      BuiltFields(c, m, k);
      SealedAtEnd(c, m, k, 16 + |body| % 0x1_0000);
    }
  }

  // ---- what a key alone does not do ---------------------------------------

  predicate Authenticated(pkt: seq<byte>)
    requires |pkt| >= 16
  {
    pkt[5] / 64 % 2 == 1
  }

  /** A packet built without an integrity code is accepted by a session that has an integrity key, whatever the key. */
  lemma UnsealedAccepted(c: Crypto, m: Message, k: Keys, key: seq<byte>)
    requires Fits(m) && k.Valid() && k.k1.None? && |Body(c, m, k)| < 0x1_0000
    ensures Parse(c, Build(c, m, k), Some(key), k.k2) == Some(m)
  {
    BuiltFields(c, m, k);
    ShortReturned(c, m, k);
  }

  /** The packet with its authentication bit cleared. */
  function Unmarked(pkt: seq<byte>): (r: seq<byte>)
    requires |pkt| >= 16 && Authenticated(pkt)
    ensures |r| == |pkt| && !Authenticated(r)
  {
    pkt[5 := pkt[5] - 64]
  }

  /** The integrity key matters exactly for packets whose own authentication bit is set: those are parsed as without
  the bit if their payload ends where a matching code says, and refused otherwise, as they are without a key; all
  others are parsed as if there were no key. */
  lemma SealedOnlyIfMarked(c: Crypto, pkt: seq<byte>, key: seq<byte>, k2: Option<seq<byte>>)
    requires |pkt| >= 16 && (k2.Some? ==> |k2.value| >= 16)
    ensures Authenticated(pkt) ==>
              var bodyEnd := 16 + UintLe(pkt[14..16]);
              Parse(c, pkt, Some(key), k2)
              == if bodyEnd <= |pkt| && Sealed(c, pkt, Some(key), bodyEnd) then Parse(c, Unmarked(pkt), None, k2) else None
    ensures Authenticated(pkt) ==> Parse(c, pkt, None, k2) == None
    ensures !Authenticated(pkt) ==> Parse(c, pkt, Some(key), k2) == Parse(c, pkt, None, k2)
  {
    if Authenticated(pkt) {
      var r, bodyEnd := Unmarked(pkt), 16 + UintLe(pkt[14..16]);
      assert r[14..16] == pkt[14..16] && r[6..10] == pkt[6..10] && r[10..14] == pkt[10..14];
      if bodyEnd <= |pkt| {
        assert r[16..bodyEnd] == pkt[16..bodyEnd];
      }
    }
  }

  // ---- on the wire --------------------------------------------------------

  /** The header of an envelope with a body of `n` bytes: the message class, its version and two bytes between; the
  authentication type; the kind with its two marks; session, number and length, least significant byte first. */
  predicate IsHeader(pkt: seq<byte>, m: Message, k: Keys, n: nat) {
    && |pkt| >= 16 && pkt[0] == 0x06 && pkt[1] == 0x00 && pkt[2] == 0xFF && pkt[3] == 0x07 && pkt[4] == 0x06
    && pkt[5] % 64 == m.kind && (pkt[5] / 64 % 2 == 1 <==> k.k1.Some?) && (pkt[5] / 128 == 1 <==> k.Enc())
    && pkt[6] as int + 0x100 * pkt[7] as int + 0x1_0000 * pkt[8] as int + 0x100_0000 * pkt[9] as int == m.session
    && pkt[10] as int + 0x100 * pkt[11] as int + 0x1_0000 * pkt[12] as int + 0x100_0000 * pkt[13] as int == m.num
    && pkt[14] as int + 0x100 * pkt[15] as int == n
  }

  /** The body: the payload, or behind its vector the padded payload encrypted with the first 16 bytes of the key. */
  predicate IsBody(c: Crypto, body: seq<byte>, m: Message, k: Keys)
    requires k.Valid()
  {
    if k.Enc() then |body| >= 16 && body[..16] == k.iv.value && body[16..] == c.enc(k.k2.value[..16], k.iv.value, Pad(m.payload))
    else body == m.payload
  }

  /** What follows a body that ends at `end`: nothing, or up to three bytes 0xFF, how many there are, the next header, and the
  first 12 bytes of the code over everything after the message class; that range is a multiple of four. */
  predicate IsTrailer(c: Crypto, pkt: seq<byte>, end: nat, k: Keys) {
    if k.k1.None? then |pkt| == end
    else
      var at := |pkt| - 12;
      && 4 <= end && end + 2 <= at && at % 4 == 0 && pkt[at - 1] == 0x07 && pkt[at - 2] as int == at - 2 - end < 4
      && (forall i :: end <= i < at - 2 ==> pkt[i] == 0xFF)
      && pkt[at..] == c.hmac(k.k1.value, pkt[4..at])[..12]
  }

  /** What a built packet is on the wire. */
  lemma EnvelopeLayout(c: Crypto, m: Message, k: Keys)
    requires Fits(m) && k.Valid() && |Body(c, m, k)| < 0x1_0000
    ensures var pkt, n := Build(c, m, k), |Body(c, m, k)|;
            && IsHeader(pkt, m, k, n) && 16 + n <= |pkt| && IsBody(c, pkt[16..16 + n], m, k) && IsTrailer(c, pkt, 16 + n, k)
  {
    BuiltFields(c, m, k);
    FixedBytes(c, m, k);
    HeaderLayout(Build(c, m, k), m, k, |Body(c, m, k)|);
    BodyLayout(c, m, k);
    TrailerLayout(c, m, k);
  }

  lemma HeaderLayout(pkt: seq<byte>, m: Message, k: Keys, n: nat)
    requires Announces(pkt, m.kind, m.session, m.num, n % 0x1_0000) && n < 0x1_0000 && pkt[1] == 0x00 && pkt[2] == 0xFF
    requires (pkt[5] / 64 % 2 == 1 <==> k.k1.Some?) && (pkt[5] / 128 == 1 <==> k.Enc())
    ensures IsHeader(pkt, m, k, n)
  {
    LittleAt(pkt, 6);
    LittleAt(pkt, 10);
    assert pkt[14..16] == [pkt[14], pkt[15]];
    LittleFirst(pkt[14], pkt[15], 0, 0);
  }

  lemma BodyLayout(c: Crypto, m: Message, k: Keys)
    requires k.Valid()
    ensures IsBody(c, Body(c, m, k), m, k)
  {
    if k.Enc() {
      var body := Body(c, m, k);
      assert body[..16] == k.iv.value && body[16..] == c.enc(k.k2.value[..16], k.iv.value, Pad(m.payload));
    }
  }

  lemma FixedBytes(c: Crypto, m: Message, k: Keys)
    requires Fits(m) && k.Valid()
    ensures |Build(c, m, k)| >= 16 && Build(c, m, k)[..4] == [0x06, 0x00, 0xFF, 0x07]
    ensures Build(c, m, k)[1] == 0x00 && Build(c, m, k)[2] == 0xFF
  {
  }

  lemma TrailerLayout(c: Crypto, m: Message, k: Keys)
    requires Fits(m) && k.Valid()
    ensures IsTrailer(c, Build(c, m, k), 16 + |Body(c, m, k)|, k)
  {
    if k.k1.Some? {
      var t := Header(m, k, |Body(c, m, k)|) + Body(c, m, k);
      SealedTrailer(c, t, k, Build(c, m, k));
    }
  }

  lemma SealedTrailer(c: Crypto, t: seq<byte>, k: Keys, pkt: seq<byte>)
    requires k.k1.Some? && pkt == RMCP_HEADER + (t + Trailer(|t|)) + c.hmac(k.k1.value, t + Trailer(|t|))[..12]
    ensures IsTrailer(c, pkt, 4 + |t|, k)
  {
    var pad, mac := TrailerPad(|t|), c.hmac(k.k1.value, t + Trailer(|t|))[..12];
    SealedLayout(RMCP_HEADER, t, pad, mac, pkt);
    var at := |pkt| - 12;
    assert at - 2 - (4 + |t|) == pad && at % 4 == 0 && pkt[4..at] == t + Trailer(|t|);
  }

  lemma SealedLayout(head: seq<byte>, t: seq<byte>, pad: byte, mac: seq<byte>, pkt: seq<byte>)
    requires |head| == 4 && pad < 4 && |mac| == 12 && pkt == head + (t + (Copies(0xFF, pad) + [pad, 0x07])) + mac
    ensures var at := |pkt| - 12;
            && at == 4 + |t| + pad + 2 && pkt[at..] == mac && pkt[4..at] == t + (Copies(0xFF, pad) + [pad, 0x07])
            && pkt[at - 1] == 0x07 && pkt[at - 2] == pad && forall i :: 4 + |t| <= i < at - 2 ==> pkt[i] == 0xFF
  {
    var tail := Copies(0xFF, pad) + [pad, 0x07];
    var signed := t + tail;
    Middle(head, signed, mac);
    forall i | 4 + |t| <= i < 4 + |signed|
      ensures pkt[i] == tail[i - 4 - |t|]
    {
      assert pkt[i] == pkt[4..4 + |signed|][i - 4] == signed[i - 4];
    }
  }
}
