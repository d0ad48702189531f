/** AVMP frames on a byte stream. */
module Frames {
  import opened Basics
  import opened Bits
  import opened Endian

  datatype Frame = Frame(kind: nat, payload: seq<byte>)

  const MAGIC: seq<byte> := [0x41, 0x56, 0x4D, 0x50]
  const HEADER_LEN: nat := 10

  function Encode(f: Frame): (b: seq<byte>)
    ensures |b| == HEADER_LEN + |f.payload|
  {
    MAGIC + Be(HEADER_LEN + |f.payload|, 4) + Be(f.kind, 2) + f.payload
  }

  /** Reading a frame: the frame and the rest of the stream; a stream that ended; or an error. */
  datatype Read = Got(frame: Frame, rest: seq<byte>) | EndOfStream | Failed

  /** `io.ReadFull`: it reports a clean end when it can read nothing at all. */
  datatype Full = Bytes(b: seq<byte>, rest: seq<byte>) | Ended | CutShort

  function ReadFull(stream: seq<byte>, n: nat): Full {
    if |stream| >= n then Bytes(stream[..n], stream[n..]) else if |stream| == 0 then Ended else CutShort
  }

  function ReadFrame(stream: seq<byte>): Read {
    match ReadFull(stream, HEADER_LEN)
    case Ended => EndOfStream
    case CutShort => Failed
    case Bytes(hdr, rest) =>
      var total := UintBe(hdr[4..8]);
      if hdr[..4] != MAGIC || total < HEADER_LEN then Failed
      else
        match ReadFull(rest, total - HEADER_LEN)
        case Ended => EndOfStream
        case CutShort => Failed
        case Bytes(payload, rest') => Got(Frame(UintBe(hdr[8..10]), payload), rest')
  }

  /** The length field covers the whole frame, in 32 bits. */
  predicate Fits(f: Frame) {
    HEADER_LEN + |f.payload| < 0x1_0000_0000
  }

  lemma HeaderOf(f: Frame, rest: seq<byte>)
    requires f.kind < 0x1_0000
    ensures var b := Encode(f) + rest;
            && b[..10][..4] == MAGIC && UintBe(b[..10][4..8]) == (HEADER_LEN + |f.payload|) % 0x1_0000_0000
            && UintBe(b[..10][8..10]) == f.kind && b[10..] == f.payload + rest
  {
    HeaderParts(Be(HEADER_LEN + |f.payload|, 4), Be(f.kind, 2), f.payload, rest);
    Widths();
    BeRoundTrip(HEADER_LEN + |f.payload|, 4);
    BeRoundTrip(f.kind, 2);
  }

  lemma HeaderParts(len: seq<byte>, kind: seq<byte>, payload: seq<byte>, rest: seq<byte>)
    requires |len| == 4 && |kind| == 2
    ensures var b := MAGIC + len + kind + payload + rest;
            && b[..10][..4] == MAGIC && b[..10][4..8] == len && b[..10][8..10] == kind && b[10..] == payload + rest
  {
    var hdr := MAGIC + len + kind;
    assert hdr[..4] == MAGIC && hdr[4..8] == len && hdr[8..10] == kind;
    Regroup(hdr, payload, rest);
    assert (hdr + (payload + rest))[..10] == hdr;
  }

  /** A frame is read back, and the stream stands right after it, exactly if its length fits the length field. */
  lemma FrameRoundTrip(f: Frame, rest: seq<byte>)
    requires f.kind < 0x1_0000
    ensures ReadFrame(Encode(f) + rest) == Got(f, rest) <==> Fits(f)
  {
    HeaderOf(f, rest);
    if Fits(f) {
      PayloadOf(f.payload, rest);
    }
  }

  lemma PayloadOf(payload: seq<byte>, rest: seq<byte>)
    ensures ReadFull(payload + rest, |payload|) == Bytes(payload, rest)
  {
    assert (payload + rest)[..|payload|] == payload && (payload + rest)[|payload|..] == rest;
  }

  /** A frame on the wire: the letters AVMP, the length of the whole frame in four bytes and the kind in two, most
  significant byte first, and the payload. */
  lemma FrameLayout(f: Frame)
    requires f.kind < 0x1_0000 && Fits(f)
    ensures var b := Encode(f);
            && b[0] as char == 'A' && b[1] as char == 'V' && b[2] as char == 'M' && b[3] as char == 'P'
            && 0x100_0000 * b[4] as int + 0x1_0000 * b[5] as int + 0x100 * b[6] as int + b[7] as int == |b|
            && 0x100 * b[8] as int + b[9] as int == f.kind && b[10..] == f.payload
  {
    var b := Encode(f);
    var len, kind := Be(HEADER_LEN + |f.payload|, 4), Be(f.kind, 2);
    Widths();
    BeFits(HEADER_LEN + |f.payload|, 4);
    BeFits(f.kind, 2);
    BigAt(len, 0);
    assert kind == [kind[0], kind[1]];
    BigFirst(kind[0], kind[1], 0, 0);
    assert b[4] == len[0] && b[5] == len[1] && b[6] == len[2] && b[7] == len[3] && b[8] == kind[0] && b[9] == kind[1];
    assert len[0..4] == len;
  }

  function EncodeAll(fs: seq<Frame>): seq<byte> {
    if |fs| == 0 then [] else Encode(fs[0]) + EncodeAll(fs[1..])
  }

  /** Reading frames until the stream ends or one cannot be read. */
  function ReadAll(stream: seq<byte>): (r: (seq<Frame>, Read))
    decreases |stream|
  {
    match ReadFrame(stream)
    case Got(f, rest) => if |rest| < |stream| then var r := ReadAll(rest); ([f] + r.0, r.1) else ([], Failed)
    case other => ([], other)
  }

  /** A stream of frames is read back whole, and its end is seen as a clean end. */
  lemma {:induction false} StreamRoundTrip(fs: seq<Frame>)
    requires forall i :: 0 <= i < |fs| ==> fs[i].kind < 0x1_0000 && Fits(fs[i])
    ensures ReadAll(EncodeAll(fs)) == (fs, EndOfStream)
  {
    if |fs| > 0 {
      FrameRoundTrip(fs[0], EncodeAll(fs[1..]));
      StreamRoundTrip(fs[1..]);
      assert [fs[0]] + fs[1..] == fs;
    } else {
      assert ReadFull([], HEADER_LEN) == Ended;
    }
  }

  /** A clean end is reported at a frame boundary, and also for a stream that ends right after a header that
  announces a payload. */
  lemma CleanEndIff(stream: seq<byte>)
    ensures ReadFrame(stream) == EndOfStream
       <==> |stream| == 0 || (|stream| == HEADER_LEN && stream[..4] == MAGIC && UintBe(stream[4..8]) > HEADER_LEN)
  {
    if |stream| == HEADER_LEN {
      assert stream[..10] == stream;
    }
  }
}
