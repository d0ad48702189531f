/** Walking the system event log, with a limit, and paging through it. */
module SelWalk {
  import opened Basics
  import opened Bits
  import opened Endian
  import opened SdrWalk

  /** A log record is 16 bytes and read in one request. */
  type LogRecord = r: seq<byte> | |r| == 16 witness seq(16, _ => 0)

  /** The BMC: at each request it serves, or cancels the reservation with a reply of any further bytes. */
  datatype Turn = Served | Cancelled(extra: seq<byte>)

  datatype Sel = Sel(ids: Ids, log: seq<LogRecord>, turns: seq<Turn>, reservation: nat, live: bool) {
    ghost predicate Valid() {
      |log| == |ids|
    }
  }

  function ReserveAnswer(b: Sel): (r: (Sel, seq<byte>)) {
    var n := (b.reservation + 1) % 0x1_0000;
    (b.(reservation := n, live := true), OkReply(n, []))
  }

  function EntryAnswer(b: Sel, reservation: nat, rid: nat): (r: (Sel, seq<byte>)) {
    if reservation != b.reservation || !b.live then (b, [RESERVATION_CANCELLED])
    else if |b.turns| > 0 && b.turns[0].Cancelled? then
      (b.(turns := b.turns[1..], live := false), [RESERVATION_CANCELLED] + b.turns[0].extra)
    else
      var rest := b.(turns := if |b.turns| == 0 then [] else b.turns[1..]);
      var i := PlaceOf(b.ids, rid);
      if i >= |b.log| then (rest, [NO_SUCH_RECORD])
      else (rest, OkReply(NextId(b.ids, i), b.log[i]))
  }

  method ReserveSEL(b: Sel) returns (b': Sel, reservation: nat)
    ensures b' == b.(reservation := reservation, live := true)
  {
    var answer := ReserveAnswer(b);
    b' := answer.0;
    ReplyParts((b.reservation + 1) % 0x1_0000, []);
    reservation := UintLe(answer.1[1..3]);
  }

  /** One Get SEL Entry request. Here any reply with a completion code other than 0, however short, is an error
  that names the code. */
  method GetSELEntry(b: Sel, reservation: nat, rid: nat, ghost i: nat) returns (b': Sel, r: Result<Chunk>)
    requires b.Valid() && b.live && reservation == b.reservation && i < |b.ids| && i == PlaceOf(b.ids, rid)
    ensures b'.Valid() && b'.ids == b.ids && b'.log == b.log && |b'.turns| <= |b.turns|
    ensures r.Ok? ==> b'.live && b'.reservation == b.reservation && r.value == Chunk(NextId(b.ids, i), b.log[i])
    ensures r.Err? ==> r.error == Code(RESERVATION_CANCELLED) && |b'.turns| < |b.turns|
  {
    var answer := EntryAnswer(b, reservation, rid);
    b' := answer.0;
    var resp := answer.1;
    ReplyParts(NextId(b.ids, i), b.log[i]);
    if |resp| < 3 || resp[0] != 0 {
      return b', Err(Code(resp[0]));
    }
    var next, data := UintLe(resp[1..3]), resp[3..];
    if |data| < 16 {
      return b', Err(ShortReply);
    }
    r := Ok(Chunk(next, data));
  }

  /** How many entries a walk with this limit returns; no limit when it is not positive. */
  function Count(limit: int, n: nat): nat {
    if limit <= 0 || limit >= n then n else limit
  }

  /** However often the reservation is cancelled, the walk returns the first `limit` entries of the log, or all of
  them when there is no limit or the log is shorter. */
  method ScanSEL(b: Sel, limit: int) returns (b': Sel, out: seq<LogRecord>, ok: bool)
    requires b.Valid()
    ensures ok && out == b.log[..Count(limit, |b.log|)]
    ensures b'.Valid() && b'.log == b.log && b'.ids == b.ids
  {
    var reservation;
    b', reservation := ReserveSEL(b);
    out := [];
    var rid := 0;
    while true
      invariant b'.Valid() && b'.live && b'.reservation == reservation && b'.ids == b.ids && b'.log == b.log
      invariant |out| < |b.log| && out == b.log[..|out|] && (limit > 0 ==> |out| <= limit)
      invariant PlaceOf(b.ids, rid) == |out|
      decreases |b'.turns| + |b.log| - |out|
    {
      if limit > 0 && |out| >= limit {
        return b', out, true;
      }
      var r;
      b', r := GetSELEntry(b', reservation, rid, |out|);
      if r.Err? {
        if r.error == Code(RESERVATION_CANCELLED) {
          b', reservation := ReserveSEL(b');
          continue;
        }
        return b', out, false;
      }
      out := out + [r.value.bytes];
      if r.value.next == END_OF_LIST {
        return b', out, true;
      }
      rid := r.value.next;
      FindPlace(b.ids, |out|);
    }
  }

  // ---- pages --------------------------------------------------------------

  /** The entries of the page at `offset`. */
  function PageOf<T>(log: seq<T>, offset: nat, limit: nat): seq<T> {
    log[Clip(offset, |log|)..Clip(offset + limit, |log|)]
  }

  /** The handler: it walks `offset + limit` entries and drops the first `offset`. */
  method SelPage(b: Sel, offset: nat, limit: nat) returns (entries: seq<LogRecord>)
    requires b.Valid() && 1 <= limit
    ensures entries == PageOf(b.log, offset, limit)
  {
    var b', all, ok := ScanSEL(b, offset + limit);
    if offset > |all| {
      entries := [];
    } else {
      entries := all[offset..];
    }
  }

  /** The first `k` pages of a given size, one after the other. */
  function Pages<T>(log: seq<T>, limit: nat, k: nat): seq<T> {
    if k == 0 then [] else Pages(log, limit, k - 1) + PageOf(log, (k - 1) * limit, limit)
  }

  /** Consecutive pages hold the log's entries in order, each once; enough of them hold the whole log. */
  lemma {:induction false} PagesPartition<T>(log: seq<T>, limit: nat, k: nat)
    ensures Pages(log, limit, k) == log[..Clip(k * limit, |log|)]
    ensures k * limit >= |log| ==> Pages(log, limit, k) == log
  {
    if k > 0 {
      PagesPartition(log, limit, k - 1);
      assert k * limit == (k - 1) * limit + limit;
      NextPage(log, (k - 1) * limit, limit);
    }
  }

  lemma NextPage<T>(log: seq<T>, offset: nat, limit: nat)
    ensures log[..Clip(offset, |log|)] + PageOf(log, offset, limit) == log[..Clip(offset + limit, |log|)]
  {
  }
}
