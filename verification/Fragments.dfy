/** Joining the fragments of video packets into whole packets. */
module Fragments {
  import opened Basics
  import opened Bits

  /** What the session sees: a fragment arrives, or the session is torn down. */
  datatype Input = Arrives(payload: seq<byte>) | Teardown

  const HEADER: nat := 12

  /** A fragment with a whole header. */
  type Fragment = p: seq<byte> | |p| >= HEADER witness seq(12, _ => 0)

  /** Bit 0 of byte 8 marks the first fragment of a packet. */
  predicate Starts(p: Fragment) {
    p[8] % 2 == 1
  }

  class Bridge {
    var avoAgg: seq<byte>

    /** The packets handed to the decoder, in order. */
    var decoded: seq<seq<byte>>

    constructor ()
      ensures avoAgg == [] && decoded == []
    {
      avoAgg, decoded := [], [];
    }

    ghost function View(): State
      reads this
    {
      State(decoded, avoAgg)
    }

    /** A frame with a video packet: shorter than a header, it is ignored. */
    method HandleVideoFrame(payload: seq<byte>)
      modifies this
      ensures View() == Next(old(View()), Arrives(payload))
    {
      if |payload| < HEADER {
        return;
      }
      var startFrag := payload[8] % 2 != 0;
      if startFrag {
        if |avoAgg| > 0 {
          decoded := decoded + [avoAgg];
        }
        avoAgg := payload;
      } else {
        if |avoAgg| == 0 {
          decoded := decoded + [payload];
          return;
        }
        avoAgg := avoAgg + payload[HEADER..];
      }
    }

    method TeardownSession()
      modifies `avoAgg
      ensures View() == Next(old(View()), Teardown)
    {
      avoAgg := [];
    }
  }

  /** The packets decoded so far, and the one still being joined (empty when there is none). */
  datatype State = State(decoded: seq<seq<byte>>, pending: seq<byte>)

  function Next(s: State, i: Input): State {
    match i
    case Teardown => s.(pending := [])
    case Arrives(p) =>
      if |p| < HEADER then s
      else if Starts(p) then State(if |s.pending| > 0 then s.decoded + [s.pending] else s.decoded, p)
      else if |s.pending| == 0 then s.(decoded := s.decoded + [p])
      else s.(pending := s.pending + p[HEADER..])
  }

  function Run(s: State, inputs: seq<Input>): State
    decreases |inputs|
  {
    if |inputs| == 0 then s else Run(Next(s, inputs[0]), inputs[1..])
  }

  // ---- batch grouping -----------------------------------------------------

  /** How many continuations lead the list. */
  function Continuations(ps: seq<Fragment>): (n: nat)
    ensures n <= |ps|
  {
    if |ps| == 0 || Starts(ps[0]) then 0 else 1 + Continuations(ps[1..])
  }

  /** The bodies of fragments, one after the other. */
  function Bodies(ps: seq<Fragment>): seq<byte> {
    if |ps| == 0 then [] else ps[0][HEADER..] + Bodies(ps[1..])
  }

  /** The packets of a list of fragments: each start with the bodies of the continuations that follow it, and
  continuations without a start alone. */
  function Grouped(ps: seq<Fragment>): (r: seq<Fragment>)
    decreases |ps|
  {
    if |ps| == 0 then []
    else if !Starts(ps[0]) then [ps[0]] + Grouped(ps[1..])
    else
      var n := Continuations(ps[1..]);
      [ps[0] + Bodies(ps[1..1 + n])] + Grouped(ps[1 + n..])
  }

  /** Everything a state stands for: the decoded packets, and the pending one if there is one. */
  function All(s: State): seq<seq<byte>> {
    s.decoded + (if |s.pending| > 0 then [s.pending] else [])
  }

  function Arrivals(ps: seq<Fragment>): (r: seq<Input>)
    ensures |r| == |ps| && forall i :: 0 <= i < |ps| ==> r[i] == Arrives(ps[i])
  {
    seq(|ps|, i requires 0 <= i < |ps| => Arrives(ps[i]))
  }

  /** Joining continuations one by one adds their bodies to the pending packet. */
  lemma {:induction false} JoinBodies(s: State, ps: seq<Fragment>)
    requires |s.pending| >= HEADER
    ensures var n := Continuations(ps);
            Run(s, Arrivals(ps)) == Run(s.(pending := s.pending + Bodies(ps[..n])), Arrivals(ps[n..]))
    decreases |ps|
  {
    if |ps| == 0 || Starts(ps[0]) {
      assert s.pending + Bodies(ps[..0]) == s.pending;
      assert ps[0..] == ps;
    } else {
      var n := Continuations(ps);
      var s' := s.(pending := s.pending + ps[0][HEADER..]);
      assert Arrivals(ps)[1..] == Arrivals(ps[1..]);
      JoinBodies(s', ps[1..]);
      var rest := ps[1..][..n - 1];
      assert ps[..n][1..] == rest && ps[1..][n - 1..] == ps[n..];
      BodiesOf(ps[..n], ps[0], rest);
      Regroup(s.pending, ps[0][HEADER..], Bodies(rest));
    }
  }

  /** Without a teardown, the decoded packets and the pending one are the batch grouping. */
  lemma {:induction false} StreamIsGrouped(decoded: seq<seq<byte>>, ps: seq<Fragment>)
    ensures All(Run(State(decoded, []), Arrivals(ps))) == decoded + Grouped(ps)
    decreases |ps|
  {
    if |ps| > 0 {
      assert Arrivals(ps)[1..] == Arrivals(ps[1..]);
      if !Starts(ps[0]) {
        StreamIsGrouped(decoded + [ps[0]], ps[1..]);
      } else {
        var n := Continuations(ps[1..]);
        PendingIsGrouped(State(decoded, ps[0]), ps[1..]);
        assert ps[1..][..n] == ps[1..1 + n] && ps[1..][n..] == ps[1 + n..];
      }
    }
  }

  lemma {:induction false} PendingIsGrouped(s: State, ps: seq<Fragment>)
    requires |s.pending| >= HEADER
    ensures var n := Continuations(ps);
            All(Run(s, Arrivals(ps))) == s.decoded + ([s.pending + Bodies(ps[..n])] + Grouped(ps[n..]))
    decreases |ps|
  {
    var n := Continuations(ps);
    JoinBodies(s, ps);
    var joined, rest := s.(pending := s.pending + Bodies(ps[..n])), ps[n..];
    if |rest| == 0 {
      assert Run(joined, Arrivals(rest)) == joined;
    } else {
      StopsAtStart(ps);
      var k, s' := Continuations(rest[1..]), State(joined.decoded + [joined.pending], rest[0]);
      FirstArrival(joined, rest);
      PendingIsGrouped(s', rest[1..]);
      assert rest[1..][..k] == rest[1..1 + k] && rest[1..][k..] == rest[1 + k..];
      Regroup(s.decoded, [joined.pending], Grouped(rest));
    }
  }

  lemma FirstArrival(s: State, ps: seq<Fragment>)
    requires |ps| > 0 && Starts(ps[0]) && |s.pending| > 0
    ensures Run(s, Arrivals(ps)) == Run(State(s.decoded + [s.pending], ps[0]), Arrivals(ps[1..]))
  {
    assert Arrivals(ps)[1..] == Arrivals(ps[1..]);
  }

  lemma {:induction false} StopsAtStart(ps: seq<Fragment>)
    requires Continuations(ps) < |ps|
    ensures Starts(ps[Continuations(ps)])
  {
    if !Starts(ps[0]) {
      StopsAtStart(ps[1..]);
    }
  }

  // ---- conservation -------------------------------------------------------

  lemma {:induction false} BodiesSplit(a: seq<Fragment>, b: seq<Fragment>)
    ensures Bodies(a + b) == Bodies(a) + Bodies(b)
  {
    if |a| == 0 {
      assert a + b == b;
    } else {
      var p, rest := a[0], a[1..];
      BodiesSplit(rest, b);
      assert (a + b)[0] == p && (a + b)[1..] == rest + b;
      BodiesOf(a + b, p, rest + b);
      Regroup(p[HEADER..], Bodies(rest), Bodies(b));
    }
  }

  lemma BodiesOf(ps: seq<Fragment>, p: Fragment, rest: seq<Fragment>)
    requires |ps| > 0 && ps[0] == p && ps[1..] == rest
    ensures Bodies(ps) == p[HEADER..] + Bodies(rest)
  {
  }

  lemma FirstGroup(ps: seq<Fragment>, n: nat)
    requires 1 + n <= |ps|
    ensures (ps[0] + Bodies(ps[1..1 + n]))[HEADER..] + Bodies(ps[1 + n..]) == Bodies(ps)
  {
    SplitTail(ps, 1, 1 + n);
    JoinedBodies(ps, ps[0], ps[1..1 + n], ps[1 + n..]);
  }

  lemma JoinedBodies(ps: seq<Fragment>, p: Fragment, a: seq<Fragment>, b: seq<Fragment>)
    requires |ps| > 0 && ps[0] == p && ps[1..] == a + b
    ensures (p + Bodies(a))[HEADER..] + Bodies(b) == Bodies(ps)
  {
    BodiesSplit(a, b);
    BodiesOf(ps, p, a + b);
    SkipHeader(p, Bodies(a), Bodies(b));
  }

  lemma SkipHeader(p: Fragment, a: seq<byte>, b: seq<byte>)
    ensures (p + a)[HEADER..] + b == p[HEADER..] + (a + b)
  {
  }

  /** Grouping uses every body byte once, in order. */
  lemma {:induction false} BodiesKept(ps: seq<Fragment>)
    ensures Bodies(Grouped(ps)) == Bodies(ps)
    decreases |ps|
  {
    if |ps| > 0 {
      if !Starts(ps[0]) {
        BodiesKept(ps[1..]);
      } else {
        var n := Continuations(ps[1..]);
        BodiesKept(ps[1 + n..]);
        FirstGroup(ps, n);
      }
    }
  }

  // ---- teardowns ----------------------------------------------------------

  predicate HasStart(ps: seq<Fragment>) {
    exists i :: 0 <= i < |ps| && Starts(ps[i])
  }

  /** A packet is pending exactly if a start has arrived since the last teardown. */
  lemma {:induction false} PendingIff(s: State, ps: seq<Fragment>)
    requires |s.pending| == 0 || |s.pending| >= HEADER
    ensures |Run(s, Arrivals(ps)).pending| > 0 <==> |s.pending| > 0 || HasStart(ps)
    decreases |ps|
  {
    if |ps| > 0 {
      assert Arrivals(ps)[1..] == Arrivals(ps[1..]);
      PendingIff(Next(s, Arrives(ps[0])), ps[1..]);
      if HasStart(ps) && !Starts(ps[0]) {
        var i :| 0 <= i < |ps| && Starts(ps[i]);
        assert Starts(ps[1..][i - 1]);
      }
      if HasStart(ps[1..]) {
        var i :| 0 <= i < |ps[1..]| && Starts(ps[1..][i]);
        assert Starts(ps[i + 1]);
      }
    }
  }

  /** The packets of fragments that are not still open at the end. */
  function Completed(ps: seq<Fragment>): seq<Fragment> {
    var g := Grouped(ps);
    if HasStart(ps) && |g| > 0 then g[..|g| - 1] else g
  }

  /** The body bytes of the packet that is still open at the end. */
  function Dropped(ps: seq<Fragment>): seq<byte> {
    var g := Grouped(ps);
    if HasStart(ps) && |g| > 0 then g[|g| - 1][HEADER..] else []
  }

  /** Over a teardown every body byte is decoded or dropped, once and in order. */
  lemma TeardownBytes(ps: seq<Fragment>)
    ensures Bodies(Completed(ps)) + Dropped(ps) == Bodies(ps)
  {
    var g := Grouped(ps);
    BodiesKept(ps);
    if HasStart(ps) && |g| > 0 {
      var last := [g[|g| - 1]];
      assert g == g[..|g| - 1] + last;
      BodiesSplit(g[..|g| - 1], last);
      assert last[1..] == [];
    }
  }

  /** The inputs of several sessions in a row, each but the last torn down at its end. */
  function Sessions(runs: seq<seq<Fragment>>): seq<Input> {
    if |runs| == 0 then []
    else if |runs| == 1 then Arrivals(runs[0])
    else Arrivals(runs[0]) + [Teardown] + Sessions(runs[1..])
  }

  /** Over several sessions: every packet, except those left open at a teardown. */
  function Expected(runs: seq<seq<Fragment>>): seq<seq<byte>> {
    if |runs| == 0 then []
    else if |runs| == 1 then Grouped(runs[0])
    else Completed(runs[0]) + Expected(runs[1..])
  }

  lemma {:induction false} RunSplit(s: State, a: seq<Input>, b: seq<Input>)
    ensures Run(s, a + b) == Run(Run(s, a), b)
    decreases |a|
  {
    if |a| == 0 {
      assert a + b == b;
    } else {
      RunSplit(Next(s, a[0]), a[1..], b);
      assert (a + b)[1..] == a[1..] + b;
    }
  }

  lemma TornDown(decoded: seq<seq<byte>>, ps: seq<Fragment>)
    ensures Run(State(decoded, []), Arrivals(ps) + [Teardown]) == State(decoded + Completed(ps), [])
  {
    var s := Run(State(decoded, []), Arrivals(ps));
    StreamIsGrouped(decoded, ps);
    PendingIff(State(decoded, []), ps);
    RunSplit(State(decoded, []), Arrivals(ps), [Teardown]);
    assert Run(s, [Teardown]) == Run(Next(s, Teardown), []);
    if |s.pending| > 0 {
      assert (s.decoded + [s.pending])[..|s.decoded|] == s.decoded;
      var g := Grouped(ps);
      assert |g| > 0 by { GroupedStart(ps); }
      assert (decoded + g)[..|decoded + g| - 1] == decoded + g[..|g| - 1];
    }
  }

  lemma GroupedStart(ps: seq<Fragment>)
    requires HasStart(ps)
    ensures |Grouped(ps)| > 0
  {
  }

  /** Over sessions in a row, what was decoded and what is pending are the batch grouping of each session, without the
  packets left open at a teardown. */
  lemma {:induction false} SessionsAreGrouped(decoded: seq<seq<byte>>, runs: seq<seq<Fragment>>)
    ensures All(Run(State(decoded, []), Sessions(runs))) == decoded + Expected(runs)
    decreases |runs|
  {
    if |runs| == 0 {
      assert decoded + [] == decoded;
    } else if |runs| == 1 {
      StreamIsGrouped(decoded, runs[0]);
    } else {
      TornDown(decoded, runs[0]);
      RunSplit(State(decoded, []), Arrivals(runs[0]) + [Teardown], Sessions(runs[1..]));
      SessionsAreGrouped(decoded + Completed(runs[0]), runs[1..]);
    }
  }

  // ---- any sequence of inputs ---------------------------------------------

  /** The sessions in a sequence of inputs: it is cut at the teardowns, and payloads shorter than a header are left
  out. */
  function Split(inputs: seq<Input>): (runs: seq<seq<Fragment>>)
    ensures |runs| >= 1
  {
    if |inputs| == 0 then [[]]
    else
      var rest := Split(inputs[1..]);
      match inputs[0]
      case Teardown => [[]] + rest
      case Arrives(p) => if |p| < HEADER then rest else [[p] + rest[0]] + rest[1..]
  }

  /** The inputs of the sessions they are cut into do the same. */
  lemma {:induction false} SplitRuns(s: State, inputs: seq<Input>)
    ensures Run(s, inputs) == Run(s, Sessions(Split(inputs)))
    decreases |inputs|
  {
    if |inputs| > 0 {
      var rest := Split(inputs[1..]);
      SplitRuns(Next(s, inputs[0]), inputs[1..]);
      match inputs[0] {
        case Teardown => CutOff(rest);
        case Arrives(p) =>
          if |p| >= HEADER {
            PutFirst(p, rest);
          }
      }
    }
  }

  lemma CutOff(rest: seq<seq<Fragment>>)
    requires |rest| >= 1
    ensures Sessions([[]] + rest) == [Teardown] + Sessions(rest)
  {
    var runs := [[]] + rest;
    assert runs[0] == [] && runs[1..] == rest;
    assert Arrivals([]) == [];
    assert [] + [Teardown] == [Teardown];
  }

  lemma PutFirst(p: Fragment, rest: seq<seq<Fragment>>)
    requires |rest| >= 1
    ensures Sessions([[p] + rest[0]] + rest[1..]) == [Arrives(p)] + Sessions(rest)
  {
    var runs := [[p] + rest[0]] + rest[1..];
    ArrivesFirst(p, rest[0]);
    assert runs[0] == [p] + rest[0] && runs[1..] == rest[1..] && |runs| == |rest|;
    if |rest| > 1 {
      Regroup([Arrives(p)], Arrivals(rest[0]), [Teardown]);
      Regroup([Arrives(p)], Arrivals(rest[0]) + [Teardown], Sessions(rest[1..]));
    }
  }

  lemma ArrivesFirst(p: Fragment, ps: seq<Fragment>)
    ensures Arrivals([p] + ps) == [Arrives(p)] + Arrivals(ps)
  {
  }

  /** For every sequence of fragments and teardowns, what was decoded and what is pending are the batch grouping of
  each session, without the packets left open at a teardown. */
  lemma InputsAreGrouped(inputs: seq<Input>)
    ensures All(Run(State([], []), inputs)) == Expected(Split(inputs))
  {
    SplitRuns(State([], []), inputs);
    SessionsAreGrouped([], Split(inputs));
    assert [] + Expected(Split(inputs)) == Expected(Split(inputs));
  }

  // ---- cutting ------------------------------------------------------------

  /** A packet cut for sending: its first fragment, whole, and the later ones, each with a header of its own. */
  datatype Cut = Cut(first: Fragment, later: seq<Fragment>)

  /** Bit 0 of byte 8 is set in the first fragment's header and clear in the others'. */
  predicate Marked(c: Cut) {
    c.first[8] % 2 == 1 && forall i :: 0 <= i < |c.later| ==> c.later[i][8] % 2 == 0
  }

  /** The packet that was cut. */
  function Original(c: Cut): Fragment {
    c.first + Bodies(c.later)
  }

  function Originals(cs: seq<Cut>): (r: seq<Fragment>) {
    if |cs| == 0 then [] else [Original(cs[0])] + Originals(cs[1..])
  }

  function Sent(cs: seq<Cut>): (r: seq<Fragment>) {
    if |cs| == 0 then [] else [cs[0].first] + cs[0].later + Sent(cs[1..])
  }

  /** The fragments of packets sent one after the other are joined to those packets. */
  lemma {:induction false} CutsRejoin(cs: seq<Cut>)
    requires forall i :: 0 <= i < |cs| ==> Marked(cs[i])
    ensures Grouped(Sent(cs)) == Originals(cs)
    ensures |cs| > 0 ==> Starts(Sent(cs)[0])
  {
    if |cs| > 0 {
      var c, rest := cs[0], Sent(cs[1..]);
      CutsRejoin(cs[1..]);
      LeadingContinuations(c.later, rest);
      FirstCut(c.first, c.later, rest);
    }
  }

  lemma {:induction false} LeadingContinuations(a: seq<Fragment>, b: seq<Fragment>)
    requires (forall i :: 0 <= i < |a| ==> !Starts(a[i])) && (|b| > 0 ==> Starts(b[0]))
    ensures Continuations(a + b) == |a|
  {
    if |a| > 0 {
      LeadingContinuations(a[1..], b);
      assert (a + b)[0] == a[0] && (a + b)[1..] == a[1..] + b;
    } else {
      assert a + b == b;
    }
  }

  lemma FirstCut(p: Fragment, a: seq<Fragment>, b: seq<Fragment>)
    requires Starts(p) && Continuations(a + b) == |a|
    ensures Grouped([p] + a + b) == [p + Bodies(a)] + Grouped(b)
  {
    var ps := [p] + a + b;
    assert ps[0] == p && ps[1..] == a + b && ps[1..1 + |a|] == a && ps[1 + |a|..] == b;
  }
}
