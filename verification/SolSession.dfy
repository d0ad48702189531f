/** The sending side: session sequence numbers, SOL packet numbers and request retries. */
module SolSession {
  import opened Basics
  import opened Bits
  import opened SolReceive

  /** Wrap-around of a Go `uint32` counter. */
  function Wrap(n: nat): (r: nat)
    ensures r < 0x1_0000_0000
    ensures n < 0x1_0000_0000 ==> r == n
  {
    if n < 0x1_0000_0000 then n else n % 0x1_0000_0000
  }

  /** A datagram handed to the socket: its session sequence number, payload type and payload. */
  datatype Datagram = Datagram(num: nat, kind: nat, payload: seq<byte>)

  const PAYLOAD_IPMI := 0
  const PAYLOAD_SOL := 1

  function BytesOf(p: Packet): (b: seq<byte>)
    requires p.num < 256 && p.ack < 256 && p.count < 256
    ensures |b| == 4 + |p.data|
  {
    [p.num as byte, p.ack as byte, p.count as byte, 0] + p.data
  }

  /** What the read loop makes of a payload. */
  function PacketOf(payload: seq<byte>): (p: Packet)
    requires |payload| >= 4
    ensures p.num < 16 && p.ack < 16
  {
    Packet(payload[0] % 16, payload[1] % 16, payload[2], payload[4..])
  }

  /** A packet whose numbers fit in four bits is read as it was sent. */
  lemma PacketRoundTrip(p: Packet)
    requires p.num < 16 && p.ack < 16 && p.count < 256
    ensures PacketOf(BytesOf(p)) == p
    ensures var b := BytesOf(p); b[0] == p.num && b[1] == p.ack && b[2] == p.count && b[3] == 0 && b[4..] == p.data
  {
  }

  /** What became of one attempt of a request. */
  datatype Outcome = WriteFailed | NoReply | BadReply | Reply(payload: seq<byte>)

  datatype Result<T> = Ok(value: T) | Err

  /** How often a datagram goes out in three attempts with these outcomes, and what comes back. */
  function Attempts(outcomes: seq<Outcome>): (r: (nat, Result<seq<byte>>))
    ensures r.0 <= |outcomes|
  {
    if |outcomes| == 0 then (0, Err)
    else
      match outcomes[0]
      case Reply(b) => (1, Ok(b))
      case WriteFailed => Attempts(outcomes[1..])
      case _ => var rest := Attempts(outcomes[1..]); (rest.0 + 1, rest.1)
  }

  class Session {
    var outSeq: nat
    var rqSeq: byte

    /** Everything written to the socket so far. */
    ghost var wire: seq<Datagram>

    constructor ()
      ensures outSeq == 1 && rqSeq == 0 && wire == []
    {
      outSeq, rqSeq, wire := 1, 0, [];
    }

    /** One datagram, sent up to three times until a reply to it can be read: the same bytes each time. */
    method Roundtrip(d: Datagram, outcomes: seq<Outcome>) returns (r: Result<seq<byte>>)
      requires |outcomes| == 3
      modifies `wire
      ensures wire == old(wire) + Copies(d, Attempts(outcomes).0)
      ensures r == Attempts(outcomes).1
    {
      ghost var sent, goal := 0, Attempts(outcomes);
      var attempt := 0;
      while attempt < 3
        invariant 0 <= attempt <= 3
        invariant wire == old(wire) + Copies(d, sent)
        invariant goal == (sent + Attempts(outcomes[attempt..]).0, Attempts(outcomes[attempt..]).1)
      {
        assert outcomes[attempt..][1..] == outcomes[attempt + 1..];
        if outcomes[attempt] == WriteFailed {
          attempt := attempt + 1;
          continue;
        }
        wire := wire + [d];
        sent := sent + 1;
        if outcomes[attempt].Reply? {
          return Ok(outcomes[attempt].payload);
        }
        attempt := attempt + 1;
      }
      return Err;
    }

    /** A request: a fresh request number modulo 64, a fresh session number, and retries of the same datagram. */
    method RawCall(request: byte -> seq<byte>, outcomes: seq<Outcome>) returns (r: Result<seq<byte>>)
      requires |outcomes| == 3
      modifies this
      ensures rqSeq == (old(rqSeq) + 1) % 64 && outSeq == Wrap(old(outSeq) + 1)
      ensures wire == old(wire) + Copies(Datagram(old(outSeq), PAYLOAD_IPMI, request(rqSeq)), Attempts(outcomes).0)
      ensures r == Attempts(outcomes).1
    {
      rqSeq := (rqSeq as int + 1) % 64;
      var lanReq := request(rqSeq);
      var num := outSeq;
      outSeq := Wrap(outSeq + 1);
      r := Roundtrip(Datagram(num, PAYLOAD_IPMI, lanReq), outcomes);
    }
  }

  class SOL {
    const s: Session
    var txSeq: byte
    var lastRxSeq: byte
    var delivered: seq<seq<byte>>
    var acks: seq<byte>
    var acksSeen: nat

    /** Packet numbers taken by writers and not yet sent, and how much was on the wire when the session was opened. */
    ghost var pending: seq<byte>
    ghost const before: nat

    constructor (s: Session)
      ensures this.s == s && txSeq == 0 && lastRxSeq == 0 && delivered == [] && acks == [] && acksSeen == 0
      ensures Open() && Sending() == Fresh(s.outSeq)
    {
      this.s, txSeq, lastRxSeq, delivered, acks, acksSeen := s, 0, 0, [], [], 0;
      pending, before := [], |s.wire|;
    }

    ghost predicate Open()
      reads s
    {
      before <= |s.wire|
    }

    /** The receiving side. */
    ghost function Rx(): Receiver
      reads this
    {
      Receiver(lastRxSeq, delivered)
    }

    /** The sending side. */
    ghost function Sending(): Tx
      requires Open()
      reads this, s
    {
      Tx(s.outSeq, txSeq, pending, FramesOf(s.wire[before..]))
    }

    /** The read loop on one parsed datagram. Anything but a SOL payload of at least four bytes is skipped. */
    method Handle(kind: nat, payload: seq<byte>)
      requires Open()
      modifies `lastRxSeq, `delivered, `acks, `acksSeen, s`outSeq, s`wire
      ensures kind != PAYLOAD_SOL || |payload| < 4 ==> unchanged(this) && unchanged(s)
      ensures kind == PAYLOAD_SOL && |payload| >= 4 ==>
                var p := PacketOf(payload);
                var r := Take(old(Rx()), p);
                && Rx() == r.0
                && acksSeen == old(acksSeen) + (if p.ack != 0 then 1 else 0)
                && acks == (if p.ack != 0 && |old(acks)| < 16 then old(acks) + [p.ack as byte] else old(acks))
                && s.wire == old(s.wire) + (if r.1 == [] then [] else [Datagram(old(s.outSeq), PAYLOAD_SOL, BytesOf(r.1[0]))])
                && Open() && Sending() == if r.1 == [] then old(Sending()) else Act(old(Sending()), SendAck)
    {
      if kind != PAYLOAD_SOL || |payload| < 4 {
        return;
      }
      var num, ackSeq, data := payload[0] % 16, payload[1] % 16, payload[4..];
      if ackSeq != 0 {
        acksSeen := acksSeen + 1;
        if |acks| < 16 {
          acks := acks + [ackSeq];
        }
      }
      if num != 0 && |data| > 0 {
        var dup := num == lastRxSeq;
        lastRxSeq := num;
        if !dup {
          delivered := delivered + [data];
        }
        var count := if |data| > 255 then 255 else |data|;
        SendPacket(Packet(0, num, count, []));
      }
    }

    /** The first critical section of `Write`: the next packet number, skipping 0. */
    method TakeNumber() returns (num: byte)
      requires Open()
      modifies `txSeq, `pending
      ensures txSeq == num == NextNumber(old(txSeq)) && pending == old(pending) + [num]
      ensures Sending() == Act(old(Sending()), TakeOne)
    {
      txSeq := (txSeq as int + 1) % 256;
      if txSeq == 0 || txSeq > 15 {
        txSeq := 1;
      }
      num := txSeq;
      pending := pending + [num];
    }

    /** The second critical section: build a packet with a fresh session number and send it. */
    method SendPacket(p: Packet)
      requires Open() && p.num < 256 && p.ack < 256 && p.count < 256
      modifies s`outSeq, s`wire
      ensures s.outSeq == Wrap(old(s.outSeq) + 1)
      ensures s.wire == old(s.wire) + [Datagram(old(s.outSeq), PAYLOAD_SOL, BytesOf(p))]
      ensures Open() && Sending() == Sent(old(Sending()), p.num)
    {
      var num := s.outSeq;
      FramesAppend(s.wire, before, num, p);
      s.outSeq := Wrap(s.outSeq + 1);
      s.wire := s.wire + [Datagram(num, PAYLOAD_SOL, BytesOf(p))];
    }

    method Keepalive()
      requires Open()
      modifies s`outSeq, s`wire
      ensures s.wire == old(s.wire) + [Datagram(old(s.outSeq), PAYLOAD_SOL, [0, 0, 0, 0])]
      ensures Open() && Sending() == Act(old(Sending()), Beat)
    {
      assert BytesOf(Packet(0, 0, 0, [])) == [0, 0, 0, 0];
      SendPacket(Packet(0, 0, 0, []));
    }

    /** The second critical section of a writer that holds the `i`-th pending number. */
    method SendData(num: byte, data: seq<byte>, ghost i: nat)
      requires Open() && i < |pending| && pending[i] == num
      modifies `pending, s`outSeq, s`wire
      ensures s.wire == old(s.wire) + [Datagram(old(s.outSeq), PAYLOAD_SOL, BytesOf(Packet(num, 0, 0, data)))]
      ensures Open() && Sending() == Act(old(Sending()), SendOne(i))
    {
      pending := pending[..i] + pending[i + 1..];
      SendPacket(Packet(num, 0, 0, data));
    }

    /** Transmits serial bytes; nothing is sent for none. */
    method Write(data: seq<byte>)
      requires Open()
      modifies `txSeq, `pending, s`outSeq, s`wire
      ensures |data| == 0 ==> unchanged(this) && unchanged(s)
      ensures |data| > 0 ==>
                && s.wire == old(s.wire) + [Datagram(old(s.outSeq), PAYLOAD_SOL, BytesOf(Packet(txSeq, 0, 0, data)))]
                && Open() && Sending() == Act(Act(old(Sending()), TakeOne), SendOne(|old(pending)|))
    {
      if |data| == 0 {
        return;
      }
      var num := TakeNumber();
      SendData(num, data, |pending| - 1);
    }
  }

  /** What the numbering sees of a datagram: its session number, and the packet number in it. */
  function FrameOf(d: Datagram): Frame {
    Frame(d.num, if d.kind == PAYLOAD_SOL && |d.payload| > 0 then d.payload[0] as int else 0)
  }

  function FramesOf(wire: seq<Datagram>): (fs: seq<Frame>)
    ensures |fs| == |wire| && forall i :: 0 <= i < |wire| ==> fs[i] == FrameOf(wire[i])
  {
    seq(|wire|, i requires 0 <= i < |wire| => FrameOf(wire[i]))
  }

  lemma FramesAppend(wire: seq<Datagram>, before: nat, num: nat, p: Packet)
    requires before <= |wire| && p.num < 256 && p.ack < 256 && p.count < 256
    ensures FramesOf((wire + [Datagram(num, PAYLOAD_SOL, BytesOf(p))])[before..]) == FramesOf(wire[before..]) + [Frame(num, p.num)]
  {
    var d := Datagram(num, PAYLOAD_SOL, BytesOf(p));
    assert (wire + [d])[before..] == wire[before..] + [d];
  }

  function NextNumber(n: byte): (r: byte) {
    if n >= 15 then 1 else n + 1
  }

  // ---- interleavings ------------------------------------------------------

  /** The critical sections of writers, the read loop's acknowledgements and the keepalive, in any order.
  `pending` holds the packet numbers that writers have taken and not yet sent. */
  datatype Action = TakeOne | SendOne(i: nat) | SendAck | Beat

  datatype Tx = Tx(outSeq: nat, txSeq: byte, pending: seq<byte>, wire: seq<Frame>)

  /** A datagram on the wire: its session number, and the SOL number in it (0 when it carries no data). */
  datatype Frame = Frame(num: nat, sol: nat)

  function Sent(t: Tx, sol: nat): Tx {
    t.(outSeq := Wrap(t.outSeq + 1), wire := t.wire + [Frame(t.outSeq, sol)])
  }

  function Act(t: Tx, a: Action): Tx {
    match a
    case TakeOne => var n := NextNumber(t.txSeq); t.(txSeq := n, pending := t.pending + [n])
    case SendOne(i) =>
      if i < |t.pending| then Sent(t.(pending := t.pending[..i] + t.pending[i + 1..]), t.pending[i]) else t
    case SendAck => Sent(t, 0)
    case Beat => Sent(t, 0)
  }

  function Acts(t: Tx, actions: seq<Action>): Tx {
    if |actions| == 0 then t else Act(Acts(t, actions[..|actions| - 1]), actions[|actions| - 1])
  }

  /** A session whose next number is `start`, with nothing sent yet. */
  function Fresh(start: nat): Tx {
    Tx(start, 0, [], [])
  }

  /** Session numbers on the wire go up by one from datagram to datagram, whatever the interleaving, and
  every data packet is numbered 1 to 15. */
  lemma {:induction false} SessionNumbersCount(start: nat, actions: seq<Action>)
    requires start < 0x1_0000_0000
    ensures Counting(Acts(Fresh(start), actions), start)
  {
    if |actions| > 0 {
      SessionNumbersCount(start, actions[..|actions| - 1]);
      ActCounts(Acts(Fresh(start), actions[..|actions| - 1]), start, actions[|actions| - 1]);
    }
  }

  /** The datagrams are numbered in order from `start` on, and packet numbers are at most 15. */
  ghost predicate Counting(t: Tx, start: nat) {
    && t.outSeq == Wrap(start + |t.wire|)
    && (forall i :: 0 <= i < |t.wire| ==> t.wire[i].num == Wrap(start + i) && t.wire[i].sol <= 15)
    && (forall i :: 0 <= i < |t.pending| ==> 1 <= t.pending[i] <= 15)
  }

  lemma ActCounts(t: Tx, start: nat, a: Action)
    requires Counting(t, start)
    ensures Counting(Act(t, a), start)
  {
    if !a.TakeOne? {
      SentCounts(t, start, 0);
      if a.SendOne? && a.i < |t.pending| {
        SentCounts(t.(pending := t.pending[..a.i] + t.pending[a.i + 1..]), start, t.pending[a.i]);
      }
    }
  }

  lemma SentCounts(t: Tx, start: nat, sol: nat)
    requires Counting(t, start) && sol <= 15
    ensures Counting(Sent(t, sol), start)
  {
    WrapNext(start + |t.wire|);
  }

  lemma WrapNext(n: nat)
    ensures Wrap(Wrap(n) + 1) == Wrap(n + 1)
  {
  }

  /** With one writer, a number is taken only once the previous one is sent. */
  ghost predicate OneWriter(start: nat, actions: seq<Action>) {
    forall k :: 0 <= k < |actions| && actions[k].TakeOne? ==> Acts(Fresh(start), actions[..k]).pending == []
  }

  /** The SOL numbers of the data packets on the wire. */
  function Numbers(wire: seq<Frame>): seq<nat> {
    if |wire| == 0 then []
    else
      var last := wire[|wire| - 1];
      Numbers(wire[..|wire| - 1]) + (if last.sol == 0 then [] else [last.sol])
  }

  ghost predicate Cycling(t: Tx) {
    var all := Numbers(t.wire) + t.pending;
    && |t.pending| <= 1
    && (forall i :: 0 <= i < |all| ==> all[i] == NumberOf(i))
    && t.txSeq == LastNumber(|all|)
  }

  lemma SentNumbers(wire: seq<Frame>, f: Frame)
    ensures Numbers(wire + [f]) == Numbers(wire) + (if f.sol == 0 then [] else [f.sol])
  {
    assert (wire + [f])[..|wire|] == wire;
  }

  lemma NextIsNumber(k: nat)
    ensures NextNumber(LastNumber(k)) == NumberOf(k)
  {
  }

  lemma TakeCycles(t: Tx)
    requires Cycling(t) && t.pending == []
    ensures Cycling(Act(t, TakeOne))
  {
    var all := Numbers(t.wire) + t.pending;
    NextIsNumber(|all|);
    assert Numbers(t.wire) + Act(t, TakeOne).pending == all + [NumberOf(|all|)];
  }

  /** Sending keeps the numbers sent and pending, taken together. */
  lemma SendCycles(t: Tx, a: Action)
    requires Cycling(t) && !a.TakeOne?
    ensures Cycling(Act(t, a))
  {
    if !a.SendOne? {
      SentNumbers(t.wire, Frame(t.outSeq, 0));
      SameNumbers(t, Act(t, a));
    } else if a.i < |t.pending| {
      var n, sent := t.pending[0], Numbers(t.wire);
      assert (sent + t.pending)[|sent|] == n;
      assert t.pending == [n] && t.pending[..a.i] + t.pending[a.i + 1..] == [];
      SentNumbers(t.wire, Frame(t.outSeq, n));
      SameNumbers(t, Act(t, a));
    }
  }

  lemma SameNumbers(t: Tx, t': Tx)
    requires Cycling(t) && Numbers(t'.wire) + t'.pending == Numbers(t.wire) + t.pending
    requires |t'.pending| <= 1 && t'.txSeq == t.txSeq
    ensures Cycling(t')
  {
  }

  /** With one writer the data packets are numbered 1, 2, ..., 15, 1, ... in the order they go out. */
  lemma {:induction false} DataNumbersCycle(start: nat, actions: seq<Action>)
    requires OneWriter(start, actions)
    ensures Cycling(Acts(Fresh(start), actions))
  {
    if |actions| > 0 {
      var init := actions[..|actions| - 1];
      forall k | 0 <= k < |init| && init[k].TakeOne?
        ensures Acts(Fresh(start), init[..k]).pending == []
      {
        assert init[..k] == actions[..k];
      }
      DataNumbersCycle(start, init);
      var last := actions[|actions| - 1];
      if last.TakeOne? {
        TakeCycles(Acts(Fresh(start), init));
      } else {
        SendCycles(Acts(Fresh(start), init), last);
      }
    }
  }
}
