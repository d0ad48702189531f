/** Serial-over-LAN reception as a protocol: the read loop against a stop-and-wait sender over a lossy,
duplicating FIFO link (section 15 of the IPMI 2.0 specification). */
module SolReceive {
  import opened Bits

  /** A SOL packet: its own sequence number (0 when it carries no data), the one it acknowledges, the number of
  characters acknowledged, and data. */
  datatype Packet = Packet(num: nat, ack: nat, count: nat, data: seq<byte>)

  /** What the read loop remembers: the last sequence number, and every chunk handed to `onData`. */
  datatype Receiver = Receiver(last: nat, delivered: seq<seq<byte>>)

  /** The read loop on one packet: the new state and the acknowledgements it sends. */
  function Take(rx: Receiver, p: Packet): (r: (Receiver, seq<Packet>)) {
    if p.num == 0 || |p.data| == 0 then (rx, [])
    else
      (Receiver(p.num, if p.num == rx.last then rx.delivered else rx.delivered + [p.data]),
       [Packet(0, p.num, if |p.data| > 255 then 255 else |p.data|, [])])
  }

  // ---- the sender and the links -------------------------------------------

  /** A chunk that one packet can carry: its length is acknowledged in one byte. */
  type Chunk = c: seq<byte> | 1 <= |c| <= 255 witness [0]

  /** The sequence number of the `i`-th chunk. */
  function NumberOf(i: nat): (n: nat)
    ensures 1 <= n <= 15
  {
    1 + i % 15
  }

  lemma NeighboursDiffer(i: nat)
    ensures NumberOf(i) != NumberOf(i + 1)
  {
  }

  function DataPacket(chunks: seq<Chunk>, i: nat): Packet
    requires i < |chunks|
  {
    Packet(NumberOf(i), 0, 0, chunks[i])
  }

  function AckPacket(chunks: seq<Chunk>, i: nat): Packet
    requires i < |chunks|
  {
    Packet(0, NumberOf(i), |chunks[i]|, [])
  }

  /** The sender has `acked` chunks acknowledged and transmits the next; two FIFO links, and the receiver. */
  datatype State = State(acked: nat, data: seq<Packet>, acks: seq<Packet>, rx: Receiver)

  const INITIAL: State := State(0, [], [], Receiver(0, []))

  datatype Step =
    | Transmit
    | LoseData(i: nat)
    | RepeatData(i: nat)
    | ReceiveData
    | LoseAck(i: nat)
    | RepeatAck(i: nat)
    | ReceiveAck
    | OtherPacket(p: Packet)

  function Drop(link: seq<Packet>, i: nat): seq<Packet> {
    if i < |link| then link[..i] + link[i + 1..] else link
  }

  function Twice(link: seq<Packet>, i: nat): seq<Packet> {
    if i < |link| then link[..i + 1] + link[i..] else link
  }

  /** One step; a step that is not possible changes nothing. Stray packets without data are harmless. */
  function Next(chunks: seq<Chunk>, s: State, step: Step): State {
    match step
    case Transmit => if s.acked < |chunks| then s.(data := s.data + [DataPacket(chunks, s.acked)]) else s
    case LoseData(i) => s.(data := Drop(s.data, i))
    case RepeatData(i) => s.(data := Twice(s.data, i))
    case ReceiveData => if |s.data| > 0 then Received(s, s.data[0], s.data[1..]) else s
    case LoseAck(i) => s.(acks := Drop(s.acks, i))
    case RepeatAck(i) => s.(acks := Twice(s.acks, i))
    case ReceiveAck =>
      if |s.acks| == 0 then s
      else if s.acked < |chunks| && s.acks[0] == AckPacket(chunks, s.acked) then
        s.(acked := s.acked + 1, acks := s.acks[1..])
      else s.(acks := s.acks[1..])
    case OtherPacket(p) => if |p.data| == 0 then Received(s, p, s.data) else s
  }

  function Received(s: State, p: Packet, rest: seq<Packet>): State {
    var r := Take(s.rx, p);
    s.(data := rest, rx := r.0, acks := s.acks + r.1)
  }

  function Run(chunks: seq<Chunk>, steps: seq<Step>): State {
    if |steps| == 0 then INITIAL else Next(chunks, Run(chunks, steps[..|steps| - 1]), steps[|steps| - 1])
  }

  // ---- the invariant ------------------------------------------------------

  /** Up to `split` the link holds packets of the chunk before the current one, from there on of the current one. */
  ghost predicate TwoKinds(link: seq<Packet>, split: nat, before: Packet, current: Packet) {
    && split <= |link|
    && (forall i :: 0 <= i < split ==> link[i] == before)
    && (forall i :: split <= i < |link| ==> link[i] == current)
  }

  const NONE: Packet := Packet(0, 0, 0, [])

  function Data(chunks: seq<Chunk>, i: int): Packet {
    if 0 <= i < |chunks| then DataPacket(chunks, i) else NONE
  }

  function Ack(chunks: seq<Chunk>, i: int): Packet {
    if 0 <= i < |chunks| then AckPacket(chunks, i) else NONE
  }

  function LastNumber(d: nat): nat {
    if d == 0 then 0 else NumberOf(d - 1)
  }

  /** The receiver has delivered a prefix, is level with the sender or one chunk ahead, and the links hold only
  packets of the current and the previous chunk: data not older than what was last delivered, acknowledgements
  not newer. */
  ghost predicate InvAt(chunks: seq<Chunk>, s: State, a: nat, b: nat) {
    var d := |s.rx.delivered|;
    && s.acked <= d <= s.acked + 1 && d <= |chunks|
    && s.rx.delivered == chunks[..d] && s.rx.last == LastNumber(d)
    && TwoKinds(s.data, a, Data(chunks, s.acked - 1), Data(chunks, s.acked))
    && TwoKinds(s.acks, b, Ack(chunks, s.acked - 1), Ack(chunks, s.acked))
    && (s.acked == 0 ==> a == 0 && b == 0) && (s.acked == |chunks| ==> a == |s.data| && b == |s.acks|)
    && (d == s.acked ==> b == |s.acks|) && (d == s.acked + 1 ==> a == 0)
  }

  ghost predicate Inv(chunks: seq<Chunk>, s: State) {
    exists a: nat, b: nat :: InvAt(chunks, s, a, b)
  }

  lemma DropKinds(link: seq<Packet>, split: nat, before: Packet, current: Packet, i: nat)
    requires TwoKinds(link, split, before, current)
    ensures TwoKinds(Drop(link, i), if i < split then split - 1 else split, before, current)
  {
  }

  lemma TwiceKinds(link: seq<Packet>, split: nat, before: Packet, current: Packet, i: nat)
    requires TwoKinds(link, split, before, current)
    ensures TwoKinds(Twice(link, i), if i < split then split + 1 else split, before, current)
  {
  }

  /** Receiving a data packet of the previous chunk delivers nothing; of the current chunk, delivers it unless it
  was delivered already. */
  lemma ReceiveKeeps(chunks: seq<Chunk>, s: State, a: nat, b: nat)
    requires InvAt(chunks, s, a, b) && |s.data| > 0
    ensures Inv(chunks, Next(chunks, s, ReceiveData))
  {
    var d, c, s' := |s.rx.delivered|, s.acked, Next(chunks, s, ReceiveData);
    if a > 0 {
      assert s.data[0] == Data(chunks, c - 1) && d == c;
      assert s'.rx == s.rx;
      assert InvAt(chunks, s', a - 1, |s'.acks|);
    } else {
      assert s.data[0] == Data(chunks, c);
      if d == c {
        if d > 0 {
          NeighboursDiffer(d - 1);
        }
        assert chunks[..d + 1] == chunks[..d] + [chunks[d]];
      }
      assert InvAt(chunks, s', 0, b);
    }
  }

  lemma AckKeeps(chunks: seq<Chunk>, s: State, a: nat, b: nat)
    requires InvAt(chunks, s, a, b) && |s.acks| > 0
    ensures Inv(chunks, Next(chunks, s, ReceiveAck))
  {
    var c, s' := s.acked, Next(chunks, s, ReceiveAck);
    if b > 0 {
      assert s.acks[0] == Ack(chunks, c - 1);
      NeighboursDiffer(c - 1);
      assert InvAt(chunks, s', a, b - 1);
    } else {
      assert s.acks[0] == Ack(chunks, c);
      assert InvAt(chunks, s', |s'.data|, |s'.acks|);
    }
  }

  lemma DataLinkKeeps(chunks: seq<Chunk>, s: State, a: nat, b: nat, i: nat)
    requires InvAt(chunks, s, a, b)
    ensures Inv(chunks, s.(data := Drop(s.data, i))) && Inv(chunks, s.(data := Twice(s.data, i)))
  {
    DropKinds(s.data, a, Data(chunks, s.acked - 1), Data(chunks, s.acked), i);
    assert InvAt(chunks, s.(data := Drop(s.data, i)), if i < a then a - 1 else a, b);
    TwiceKinds(s.data, a, Data(chunks, s.acked - 1), Data(chunks, s.acked), i);
    assert InvAt(chunks, s.(data := Twice(s.data, i)), if i < a then a + 1 else a, b);
  }

  lemma AckLinkKeeps(chunks: seq<Chunk>, s: State, a: nat, b: nat, i: nat)
    requires InvAt(chunks, s, a, b)
    ensures Inv(chunks, s.(acks := Drop(s.acks, i))) && Inv(chunks, s.(acks := Twice(s.acks, i)))
  {
    DropKinds(s.acks, b, Ack(chunks, s.acked - 1), Ack(chunks, s.acked), i);
    assert InvAt(chunks, s.(acks := Drop(s.acks, i)), a, if i < b then b - 1 else b);
    TwiceKinds(s.acks, b, Ack(chunks, s.acked - 1), Ack(chunks, s.acked), i);
    assert InvAt(chunks, s.(acks := Twice(s.acks, i)), a, if i < b then b + 1 else b);
  }

  /** Every step keeps the invariant. */
  lemma NextKeeps(chunks: seq<Chunk>, s: State, step: Step)
    requires Inv(chunks, s)
    ensures Inv(chunks, Next(chunks, s, step))
  {
    var a: nat, b: nat :| InvAt(chunks, s, a, b);
    var s' := Next(chunks, s, step);
    match step {
      case Transmit => assert InvAt(chunks, s', a, b);
      case LoseData(i) => DataLinkKeeps(chunks, s, a, b, i);
      case RepeatData(i) => DataLinkKeeps(chunks, s, a, b, i);
      case ReceiveData => if |s.data| > 0 { ReceiveKeeps(chunks, s, a, b); }
      case LoseAck(i) => AckLinkKeeps(chunks, s, a, b, i);
      case RepeatAck(i) => AckLinkKeeps(chunks, s, a, b, i);
      case ReceiveAck => if |s.acks| > 0 { AckKeeps(chunks, s, a, b); }
      case OtherPacket(p) => assert s'.rx == s.rx && InvAt(chunks, s', a, b);
    }
  }

  /** In every reachable state the delivered chunks are a prefix of those sent, and at most one ahead of the
  acknowledged ones: none lost, repeated or reordered. */
  lemma {:induction false} DeliveredIsPrefix(chunks: seq<Chunk>, steps: seq<Step>)
    ensures var s := Run(chunks, steps);
            && s.acked <= |s.rx.delivered| <= s.acked + 1 && |s.rx.delivered| <= |chunks|
            && s.rx.delivered == chunks[..|s.rx.delivered|]
    ensures Inv(chunks, Run(chunks, steps))
  {
    if |steps| == 0 {
      assert InvAt(chunks, INITIAL, 0, 0);
    } else {
      DeliveredIsPrefix(chunks, steps[..|steps| - 1]);
      NextKeeps(chunks, Run(chunks, steps[..|steps| - 1]), steps[|steps| - 1]);
    }
  }

  // ---- the protocol never gets stuck --------------------------------------

  lemma RunOne(chunks: seq<Chunk>, steps: seq<Step>, step: Step)
    ensures Run(chunks, steps + [step]) == Next(chunks, Run(chunks, steps), step)
  {
    assert (steps + [step])[..|steps|] == steps;
  }

  lemma {:induction false} LinksCanEmpty(chunks: seq<Chunk>, steps: seq<Step>) returns (more: seq<Step>)
    ensures Run(chunks, steps + more) == Run(chunks, steps).(data := [], acks := [])
    decreases |Run(chunks, steps).data| + |Run(chunks, steps).acks|
  {
    var s := Run(chunks, steps);
    if |s.data| == 0 && |s.acks| == 0 {
      assert steps + [] == steps;
      return [];
    }
    var step := if |s.data| > 0 then LoseData(0) else LoseAck(0);
    RunOne(chunks, steps, step);
    var rest := LinksCanEmpty(chunks, steps + [step]);
    more := [step] + rest;
    assert steps + more == (steps + [step]) + rest;
  }

  /** With empty links, transmitting the current chunk gets it acknowledged, whether it was delivered before or not. */
  lemma OneExchange(chunks: seq<Chunk>, s: State)
    requires s.acked < |chunks| && s.data == [] && s.acks == []
    ensures var t := Next(chunks, Next(chunks, Next(chunks, s, Transmit), ReceiveData), ReceiveAck); t.acked == s.acked + 1
  {
    var p := DataPacket(chunks, s.acked);
    var sent := Next(chunks, s, Transmit);
    assert sent.data == [p];
    var got := Next(chunks, sent, ReceiveData);
    assert got.acks == [AckPacket(chunks, s.acked)];
  }

  lemma OneByOne(steps: seq<Step>, x: Step, y: Step, z: Step)
    ensures steps + [x] + [y] + [z] == steps + [x, y, z]
  {
  }

  lemma RunThree(chunks: seq<Chunk>, steps: seq<Step>, x: Step, y: Step, z: Step)
    ensures Run(chunks, steps + [x, y, z]) == Next(chunks, Next(chunks, Next(chunks, Run(chunks, steps), x), y), z)
  {
    var a := steps + [x];
    var b := a + [y];
    RunOne(chunks, steps, x);
    RunOne(chunks, a, y);
    RunOne(chunks, b, z);
    OneByOne(steps, x, y, z);
  }

  /** From every reachable state with a chunk left to acknowledge, some continuation acknowledges it. */
  lemma NeverStuck(chunks: seq<Chunk>, steps: seq<Step>) returns (more: seq<Step>)
    requires Run(chunks, steps).acked < |chunks|
    ensures Run(chunks, steps + more).acked == Run(chunks, steps).acked + 1
  {
    var clear := LinksCanEmpty(chunks, steps);
    OneExchange(chunks, Run(chunks, steps + clear));
    RunThree(chunks, steps + clear, Transmit, ReceiveData, ReceiveAck);
    more := clear + [Transmit, ReceiveData, ReceiveAck];
    assert steps + clear + [Transmit, ReceiveData, ReceiveAck] == steps + more;
  }

  // ---- the link must be FIFO ----------------------------------------------

  function Swapped(link: seq<Packet>): seq<Packet> {
    if |link| >= 2 then [link[1], link[0]] + link[2..] else link
  }

  /** A late copy of a chunk, in any reachable state: the read loop leaves it alone exactly if the chunk is a multiple
  of 15 chunks older than the last one delivered, and delivers it again otherwise. */
  lemma LateCopy(chunks: seq<Chunk>, steps: seq<Step>, j: nat)
    requires j < |Run(chunks, steps).rx.delivered|
    ensures |Run(chunks, steps).rx.delivered| <= |chunks|
    ensures var rx := Run(chunks, steps).rx;
            var rx' := Take(rx, DataPacket(chunks, j)).0;
            && rx'.delivered == (if (|rx.delivered| - 1 - j) % 15 == 0 then rx.delivered else rx.delivered + [chunks[j]])
            && (rx'.delivered == rx.delivered <==> (|rx.delivered| - 1 - j) % 15 == 0)
  {
    DeliveredIsPrefix(chunks, steps);
    LastDelivered(chunks, Run(chunks, steps));
    var rx := Run(chunks, steps).rx;
    LateTaken(chunks, rx, j);
  }

  lemma LateTaken(chunks: seq<Chunk>, rx: Receiver, j: nat)
    requires j < |rx.delivered| <= |chunks| && rx.last == LastNumber(|rx.delivered|)
    ensures var rx' := Take(rx, DataPacket(chunks, j)).0;
            && rx'.delivered == (if (|rx.delivered| - 1 - j) % 15 == 0 then rx.delivered else rx.delivered + [chunks[j]])
            && (rx'.delivered == rx.delivered <==> (|rx.delivered| - 1 - j) % 15 == 0)
  {
    SameNumber(|rx.delivered| - 1, j);
    assert |rx.delivered + [chunks[j]]| != |rx.delivered|;
  }

  lemma LastDelivered(chunks: seq<Chunk>, s: State)
    requires Inv(chunks, s)
    ensures s.rx.last == LastNumber(|s.rx.delivered|) && |s.rx.delivered| <= |chunks|
  {
  }

  /** Two chunks share a number exactly if they are a multiple of 15 apart. */
  lemma SameNumber(i: nat, j: nat)
    requires j <= i
    ensures NumberOf(i) == NumberOf(j) <==> (i - j) % 15 == 0
  {
    var q, d := i / 15 - j / 15, i % 15 - j % 15;
    assert i - j == q * 15 + d;
    if d >= 0 {
      ModOfSum(q, 15, d);
    } else {
      ModOfSum(q - 1, 15, d + 15);
    }
  }

  /** On a link that can reorder, the read loop delivers a late copy of an old chunk again. */
  lemma ReorderingRepeats(x: Chunk, y: Chunk)
    ensures var chunks := [x, y];
            var s := Run(chunks, [Transmit, Transmit, ReceiveData, ReceiveAck, Transmit]);
            var s' := s.(data := Swapped(s.data));
            Next(chunks, Next(chunks, s', ReceiveData), ReceiveData).rx.delivered == [x, y, x]
  {
    var chunks := [x, y];
    var p, q := DataPacket(chunks, 0), DataPacket(chunks, 1);
    var steps := [Transmit, Transmit, ReceiveData, ReceiveAck, Transmit];
    assert Run(chunks, steps[..1]) == State(0, [p], [], Receiver(0, [])) by {
      assert steps[..1][..0] == [];
    }
    assert Run(chunks, steps[..2]) == State(0, [p, p], [], Receiver(0, [])) by {
      assert steps[..2][..1] == steps[..1];
    }
    assert Run(chunks, steps[..3]) == State(0, [p], [AckPacket(chunks, 0)], Receiver(1, [x])) by {
      assert steps[..3][..2] == steps[..2];
    }
    assert Run(chunks, steps[..4]) == State(1, [p], [], Receiver(1, [x])) by {
      assert steps[..4][..3] == steps[..3];
    }
    assert Run(chunks, steps) == State(1, [p, q], [], Receiver(1, [x]));
  }
}
