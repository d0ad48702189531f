/** The LAN message with its two checksums. */
module LanMessage {
  import opened Basics
  import opened Bits
  import opened Rmcp

  /** Addition of Go `byte`s. */
  function Add8(a: byte, b: byte): (r: byte) {
    var s := a as int + b as int;
    if s < 256 then s else s - 256
  }

  /** The sum of the bytes, as a Go `byte` accumulates it. */
  function Sum(b: seq<byte>): (s: byte) {
    if |b| == 0 then 0 else Add8(Sum(b[..|b| - 1]), b[|b| - 1])
  }

  /** The sum of the bytes as a number. */
  function Total(b: seq<byte>): nat {
    if |b| == 0 then 0 else Total(b[..|b| - 1]) + b[|b| - 1]
  }

  lemma {:induction false} SumIsTotal(b: seq<byte>)
    ensures Sum(b) == Total(b) % 256
  {
    if |b| > 0 {
      SumIsTotal(b[..|b| - 1]);
    }
  }

  function Negate(s: byte): (r: byte)
    ensures Add8(s, r) == 0
  {
    if s == 0 then 0 else 256 - s as int
  }

  method IpmiChecksum(b: seq<byte>) returns (r: byte)
    ensures r == Negate(Sum(b))
    ensures Total(b + [r]) % 256 == 0
  {
    var s: byte := 0;
    for i := 0 to |b|
      invariant s == Sum(b[..i])
    {
      assert b[..i + 1][..i] == b[..i];
      s := Add8(s, b[i]);
    }
    assert b[..|b|] == b;
    r := if s == 0 then 0 else 256 - s as int;
    ChecksumIff(b, r);
    SumIsTotal(b + [r]);
  }

  /** A byte string sums to zero exactly if its last byte is the checksum of the others. */
  lemma ChecksumIff(b: seq<byte>, c: byte)
    ensures Sum(b + [c]) == 0 <==> c == Negate(Sum(b))
  {
    assert (b + [c])[..|b|] == b;
  }

  lemma {:induction false} SumAppend(a: seq<byte>, b: seq<byte>)
    ensures Sum(a + b) == Add8(Sum(a), Sum(b))
  {
    if |b| == 0 {
      assert a + b == a;
    } else {
      SumAppend(a, b[..|b| - 1]);
      assert (a + b)[..|a + b| - 1] == a + b[..|b| - 1];
    }
  }

  /** Changing one byte changes the sum. */
  lemma OneByteShows(b: seq<byte>, i: nat, x: byte)
    requires i < |b| && x != b[i]
    ensures Sum(b[i := x]) != Sum(b)
  {
    var before, after := b[..i], b[i + 1..];
    assert b == before + ([b[i]] + after) && b[i := x] == before + ([x] + after);
    SumAppend(before, [b[i]] + after);
    SumAppend(before, [x] + after);
    SumAppend([b[i]], after);
    SumAppend([x], after);
    assert [x][..0] == [] && [b[i]][..0] == [];
    assert Sum([x]) == x && Sum([b[i]]) == b[i];
  }

  // ---- messages -----------------------------------------------------------

  const ADDR_BMC: byte := 0x20
  const ADDR_SOFTWARE: byte := 0x81

  /** A shift left by two, in a byte. */
  function Shift2(v: byte): byte {
    (4 * v as int) % 256
  }

  method BuildLANMessage(netFn: byte, rqSeq: byte, cmd: byte, data: seq<byte>) returns (buf: seq<byte>)
    ensures buf == Build(netFn, rqSeq, cmd, data)
    ensures IsRequest(buf, netFn % 64, rqSeq % 64, cmd, data)
  {
    buf := [ADDR_BMC];
    buf := buf + [Shift2(netFn)];
    assert buf == [ADDR_BMC, Shift2(netFn)];
    var c := IpmiChecksum(buf);
    buf := buf + [c];
    ghost var head, tail := buf, [ADDR_SOFTWARE, Shift2(rqSeq), cmd] + data;
    buf := buf + [ADDR_SOFTWARE];
    buf := buf + [Shift2(rqSeq)];
    buf := buf + [cmd];
    buf := buf + data;
    Appended(head, ADDR_SOFTWARE, Shift2(rqSeq), cmd, data);
    assert buf[3..] == tail;
    c := IpmiChecksum(buf[3..]);
    buf := buf + [c];
    Regroup(head, tail, [c]);
    RequestRead(netFn, rqSeq, cmd, data);
  }

  /** What the BMC reads in a request: its own address, the function in the upper six bits of byte 1 and unit 0 below;
  the requester's address, the request number in the upper six bits of byte 4 and unit 0 below; the command and its data;
  and two halves whose bytes each add up to a multiple of 256. */
  predicate IsRequest(msg: seq<byte>, netFn: nat, rqSeq: nat, cmd: byte, data: seq<byte>) {
    && |msg| == 7 + |data| && msg[0] == 0x20 && msg[1] / 4 == netFn && msg[1] % 4 == 0 && Total(msg[..3]) % 256 == 0
    && msg[3] == 0x81 && msg[4] / 4 == rqSeq && msg[4] % 4 == 0 && msg[5] == cmd && msg[6..6 + |data|] == data
    && Total(msg[3..]) % 256 == 0
  }

  /** A built message is such a request, with the function and the number modulo 64. */
  lemma RequestRead(netFn: byte, rqSeq: byte, cmd: byte, data: seq<byte>)
    ensures IsRequest(Build(netFn, rqSeq, cmd, data), netFn % 64, rqSeq % 64, cmd, data)
  {
    var msg := Build(netFn, rqSeq, cmd, data);
    var head, tail := [ADDR_BMC, Shift2(netFn)], [ADDR_SOFTWARE, Shift2(rqSeq), cmd] + data;
    assert msg[..3] == Sealed(head) && msg[3..] == Sealed(tail);
    SealedTotal(head);
    SealedTotal(tail);
    assert msg[6..6 + |data|] == data;
    LowSixBits(netFn);
    LowSixBits(rqSeq);
  }

  lemma SealedTotal(b: seq<byte>)
    ensures Total(Sealed(b)) % 256 == 0
  {
    ChecksumIff(b, Negate(Sum(b)));
    SumIsTotal(Sealed(b));
  }

  lemma LowSixBits(v: byte)
    ensures Shift2(v) / 4 == v % 64 && Shift2(v) % 4 == 0
  {
  }

  lemma Appended(head: seq<byte>, x: byte, y: byte, z: byte, data: seq<byte>)
    ensures head + [x] + [y] + [z] + data == head + ([x, y, z] + data)
  {
  }

  function Sealed(b: seq<byte>): seq<byte> {
    b + [Negate(Sum(b))]
  }

  function Build(netFn: byte, rqSeq: byte, cmd: byte, data: seq<byte>): (buf: seq<byte>)
    ensures |buf| == 7 + |data|
  {
    Sealed([ADDR_BMC, Shift2(netFn)]) + Sealed([ADDR_SOFTWARE, Shift2(rqSeq), cmd] + data)
  }

  datatype Response = Response(netFn: byte, cmd: byte, cc: byte, data: seq<byte>)

  method ParseLANResponse(msg: seq<byte>) returns (r: Option<Response>)
    ensures r == Parse(msg)
  {
    if |msg| < 8 {
      return None;
    }
    var c := IpmiChecksum(msg[..2]);
    assert msg[..2] + [msg[2]] == msg[..3];
    ChecksumIff(msg[..2], msg[2]);
    if c != msg[2] {
      return None;
    }
    c := IpmiChecksum(msg[3..|msg| - 1]);
    assert msg[3..|msg| - 1] + [msg[|msg| - 1]] == msg[3..];
    ChecksumIff(msg[3..|msg| - 1], msg[|msg| - 1]);
    if c != msg[|msg| - 1] {
      return None;
    }
    r := Some(Response(msg[1] / 4, msg[5], msg[6], msg[7..|msg| - 1]));
  }

  /** A message is accepted exactly if it is long enough and both its halves sum to zero. */
  predicate Accepted(msg: seq<byte>) {
    |msg| >= 8 && Sum(msg[..3]) == 0 && Sum(msg[3..]) == 0
  }

  function Parse(msg: seq<byte>): Option<Response> {
    if Accepted(msg) then Some(Response(msg[1] / 4, msg[5], msg[6], msg[7..|msg| - 1])) else None
  }

  /** A built message is read back, its first data byte as the completion code, exactly if it has one and the
  function number fits in six bits. */
  lemma LanRoundTrip(netFn: byte, rqSeq: byte, cmd: byte, data: seq<byte>)
    ensures (|data| >= 1 && netFn < 64)
       <==> (|data| >= 1 && Parse(Build(netFn, rqSeq, cmd, data)) == Some(Response(netFn, cmd, data[0], data[1..])))
    ensures |data| == 0 ==> Parse(Build(netFn, rqSeq, cmd, data)) == None
  {
    var head, tail := [ADDR_BMC, Shift2(netFn)], [ADDR_SOFTWARE, Shift2(rqSeq), cmd] + data;
    var msg := Build(netFn, rqSeq, cmd, data);
    assert msg[..3] == Sealed(head) && msg[3..] == Sealed(tail);
    ChecksumIff(head, Negate(Sum(head)));
    ChecksumIff(tail, Negate(Sum(tail)));
    if |data| >= 1 {
      assert msg[7..|msg| - 1] == data[1..] && msg[5] == cmd && msg[6] == data[0] && msg[1] == Shift2(netFn);
      SixBits(netFn);
    }
  }

  lemma SixBits(v: byte)
    ensures Shift2(v) / 4 == v <==> v < 64
  {
  }

  /** A message with one byte changed in transit is refused. */
  lemma CorruptionDetected(msg: seq<byte>, i: nat, x: byte)
    requires Accepted(msg) && i < |msg| && x != msg[i]
    ensures !Accepted(msg[i := x])
  {
    var bad := msg[i := x];
    if i < 3 {
      OneByteShows(msg[..3], i, x);
      assert bad[..3] == msg[..3][i := x];
    } else {
      OneByteShows(msg[3..], i - 3, x);
      assert bad[3..] == msg[3..][i - 3 := x];
    }
  }
}
