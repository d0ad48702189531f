/** Walking the sensor data repository of a BMC that may cancel the reservation at any request. */
module SdrWalk {
  import opened Basics
  import opened Bits
  import opened Endian

  const RESERVATION_CANCELLED: byte := 0xC5
  const NO_SUCH_RECORD: byte := 0xCB
  const END_OF_LIST: nat := 0xFFFF

  /** A record: five header bytes, the last of which is the length of the body that follows. */
  type Record = r: seq<byte> | |r| >= 5 && |r| == r[4] as int + 5 witness [0, 0, 0, 0, 0]

  /** What the BMC does with a request: it serves at most `cap` bytes, or it answers that the reservation is
  cancelled, with some further bytes, and from then on holds other contents under the same record ids. */
  datatype Event = Serve(cap: nat) | Cancel(extra: seq<byte>, contents: seq<Record>)

  /** The record ids: ids after the first are neither 0, which asks for the first record, nor the end mark. */
  ghost predicate GoodIds(ids: seq<nat>) {
    && |ids| >= 1
    && (forall i :: 0 <= i < |ids| ==> ids[i] < 0x1_0000)
    && (forall i :: 1 <= i < |ids| ==> ids[i] != 0 && ids[i] != END_OF_LIST)
    && (forall i, j :: 0 <= i < j < |ids| ==> ids[i] != ids[j])
  }

  type Ids = ids: seq<nat> | GoodIds(ids) witness [1]

  /** The parsers keep full (type 1) and compact (type 2) sensor records whose body is long enough. */
  predicate IsSensor(rec: seq<byte>) {
    |rec| >= 6 && ((rec[3] == 1 && |rec| >= 48) || (rec[3] == 2 && |rec| >= 32))
  }

  function Keep(out: seq<seq<byte>>, rec: seq<byte>): seq<seq<byte>> {
    if IsSensor(rec) then out + [rec] else out
  }

  // ---- the walk, one request at a time ------------------------------------

  /** Reading record `i`, of which `part` has been read; or finished; or given up. */
  datatype Walk =
    | Reading(i: nat, records: seq<Record>, part: seq<byte>, out: seq<seq<byte>>)
    | Done(out: seq<seq<byte>>)
    | Failed(out: seq<seq<byte>>)

  function Slice(rec: seq<byte>, offset: nat, len: nat): seq<byte> {
    if offset >= |rec| then [] else if offset + len <= |rec| then rec[offset..offset + len] else rec[offset..]
  }

  function Total(part: seq<byte>): nat
    requires |part| >= 5
  {
    part[4] as int + 5
  }

  /** The record is read: keep it if it is a sensor, and go on to the next. */
  function Complete(w: Walk, rec: seq<byte>): Walk
    requires w.Reading?
  {
    var out := Keep(w.out, rec);
    if w.i + 1 >= |w.records| then Done(out) else Reading(w.i + 1, w.records, [], out)
  }

  /** The bytes a page request brings: the offset travels in one byte, a page is at most 16 bytes. */
  function Page(rec: Record, part: seq<byte>, cap: nat): seq<byte>
    requires |part| >= 5
  {
    var n := Min(16, Total(part) - |part|);
    if n < 0 then [] else Slice(rec, |part| % 256, Min(n, cap))
  }

  function Served(w: Walk, cap: nat): Walk
    requires w.Reading? && w.i < |w.records|
  {
    var rec := w.records[w.i];
    if |w.part| < 5 then
      var first := Slice(rec, 0, Min(5, cap));
      if |first| < 5 then Failed(w.out)
      else if Total(first) <= 5 then Complete(w, first) else w.(part := first)
    else
      var more := Page(rec, w.part, cap);
      var part := w.part + more;
      if |more| == 0 || |part| >= Total(part) then Complete(w, part) else w.(part := part)
  }

  /** A cancellation whose reply has fewer than three bytes is taken for a short reply, not a cancellation. */
  predicate Bare(e: Event) {
    e.Cancel? && |e.extra| < 2
  }

  /** One request. After a cancellation the current record is read again from its start. */
  function Request(w: Walk, e: Event): Walk
    requires w.Reading? && w.i < |w.records|
  {
    match e
    case Serve(cap) => Served(w, cap)
    case Cancel(extra, contents) =>
      if Bare(e) then Failed(w.out)
      else if w.i < |contents| then Reading(w.i, contents, [], w.out) else Failed(w.out)
  }

  predicate Going(w: Walk) {
    w.Reading? && w.i < |w.records|
  }

  /** The walk over a schedule of events; it may end before the schedule does. */
  function Run(w: Walk, events: seq<Event>): Walk
    decreases |events|
  {
    if !Going(w) || |events| == 0 then w else Run(Request(w, events[0]), events[1..])
  }

  function Start(records: seq<Record>): Walk {
    Reading(0, records, [], [])
  }

  /** What is left to read: records, and bytes of the current one. */
  function RecordsLeft(w: Walk): int {
    if w.Reading? then |w.records| - w.i else -1
  }

  function BytesLeft(w: Walk): nat {
    if w.Reading? && |w.part| <= 260 then 260 - |w.part| else 0
  }

  /** What the walk comes to when the BMC serves full pages from here on. */
  function Finish(w: Walk): Walk
    decreases RecordsLeft(w), BytesLeft(w)
  {
    if !Going(w) then w else Finish(Request(w, Serve(16)))
  }

  /** What the walk comes to under the events still to come. */
  function Fate(w: Walk, events: seq<Event>): Walk {
    Finish(Run(w, events))
  }

  /** `ScanSensors` against a BMC with these contents and this finite schedule. */
  function Scan(records: seq<Record>, events: seq<Event>): Walk {
    Fate(Start(records), events)
  }

  /** What happens at the next request; when nothing is scheduled, full service. */
  function Upcoming(events: seq<Event>): Event {
    if |events| == 0 then Serve(16) else events[0]
  }

  function Later(events: seq<Event>): seq<Event> {
    if |events| == 0 then [] else events[1..]
  }

  lemma FateStep(w: Walk, events: seq<Event>)
    requires Going(w)
    ensures Fate(w, events) == Fate(Request(w, Upcoming(events)), Later(events))
  {
    if |events| == 0 {
      assert Run(Request(w, Serve(16)), []) == Request(w, Serve(16));
    }
  }

  lemma FateOfEnded(w: Walk, events: seq<Event>)
    requires !Going(w)
    ensures Fate(w, events) == w
  {
  }

  // ---- pages --------------------------------------------------------------

  /** A proper prefix of a record, header included. */
  ghost predicate PartRead(rec: Record, part: seq<byte>) {
    5 <= |part| < |rec| && part == rec[..|part|]
  }

  /** How many bytes a page holds. */
  function PageLen(rec: Record, part: seq<byte>, cap: nat): nat
    requires |part| < |rec|
  {
    Min(Min(16, |rec| - |part|), cap)
  }

  /** The page holds the bytes that come next in the record. */
  ghost predicate Agrees(rec: Record, part: seq<byte>, cap: nat)
    requires 5 <= |part| < |rec|
  {
    Page(rec, part, cap) == rec[|part|..|part| + PageLen(rec, part, cap)]
  }

  /** A page is the right one exactly if its offset fits in a byte, or the bytes 256 earlier happen to be the same. */
  lemma PageIff(rec: Record, part: seq<byte>, cap: nat)
    requires 5 <= |part| < |rec| && part[4] == rec[4]
    ensures var n := PageLen(rec, part, cap);
            && |Page(rec, part, cap)| == n
            && (Agrees(rec, part, cap) <==>
                  |part| < 256 || rec[|part| - 256..|part| - 256 + n] == rec[|part|..|part| + n])
  {
    assert |part| % 256 == if |part| < 256 then |part| else |part| - 256;
  }

  /** The right page continues the part already read. */
  lemma PageContinues(rec: Record, part: seq<byte>, cap: nat)
    requires PartRead(rec, part) && cap >= 1 && Agrees(rec, part, cap)
    ensures var more := Page(rec, part, cap); |more| > 0 && (part + more == rec || PartRead(rec, part + more))
  {
    var n := PageLen(rec, part, cap);
    assert part + rec[|part|..|part| + n] == rec[..|part| + n];
  }

  /** A request that is served a page at an offset of at most 255, with at least one byte. */
  ghost predicate Early(w: Walk, e: Event)
    requires Going(w)
  {
    e.Serve? && |w.part| >= 5 ==> e.cap >= 1 && |w.part| < 256
  }

  /** Every page of the walk is served early. */
  ghost predicate EarlyPages(w: Walk, events: seq<Event>)
    decreases |events|, RecordsLeft(w), BytesLeft(w)
  {
    Going(w) ==> Early(w, Upcoming(events)) && EarlyPages(Request(w, Upcoming(events)), Later(events))
  }

  // ---- what the walk returns ----------------------------------------------

  /** The contents the BMC holds at some time: at first, or after a cancellation. */
  function Versions(records: seq<Record>, events: seq<Event>): set<seq<Record>> {
    {records} + set k | 0 <= k < |events| && events[k].Cancel? :: events[k].contents
  }

  /** Cancellations keep the `n` record ids, and their contents are among the versions. */
  ghost predicate Known(events: seq<Event>, n: nat, versions: set<seq<Record>>) {
    forall k :: 0 <= k < |events| && events[k].Cancel? ==> |events[k].contents| == n && events[k].contents in versions
  }

  /** The sensor records among `recs`, in order. */
  function Sensors(recs: seq<Record>): seq<seq<byte>> {
    if |recs| == 0 then [] else Keep(Sensors(recs[..|recs| - 1]), recs[|recs| - 1])
  }

  /** Each record is, whole, the record at its place in one of the versions. */
  ghost predicate Whole(read: seq<Record>, versions: set<seq<Record>>) {
    forall k :: 0 <= k < |read| ==> Held(read[k], k, versions)
  }

  /** Some version has the record at that place. */
  ghost predicate Held(rec: Record, k: nat, versions: set<seq<Record>>) {
    exists v :: v in versions && k < |v| && v[k] == rec
  }

  /** The walk has read the records before the current one, each from one version, and of the current one a
  proper prefix. */
  ghost predicate Inv(w: Walk, n: nat, versions: set<seq<Record>>, read: seq<Record>) {
    && w.out == Sensors(read) && Whole(read, versions) && |read| <= n
    && (w.Done? ==> |read| == n)
    && (w.Reading? ==>
          && |read| == w.i < n && |w.records| == n && w.records in versions
          && (w.part == [] || PartRead(w.records[w.i], w.part)))
  }

  lemma KeepsWhole(read: seq<Record>, versions: set<seq<Record>>, rec: Record)
    requires Whole(read, versions) && Held(rec, |read|, versions)
    ensures Whole(read + [rec], versions)
  {
    forall k | 0 <= k < |read + [rec]|
      ensures Held((read + [rec])[k], k, versions)
    {
      if k < |read| {
        assert Held(read[k], k, versions);
      }
    }
  }

  lemma SensorsAppend(read: seq<Record>, rec: Record)
    ensures Sensors(read + [rec]) == Keep(Sensors(read), rec)
  {
    assert (read + [rec])[..|read|] == read;
  }

  /** A request that makes the walk give up: a bare cancellation, or a header served in fewer than five bytes. */
  predicate Fatal(w: Walk, e: Event)
    requires Going(w)
  {
    Bare(e) || (e.Serve? && |w.part| < 5 && e.cap < 5)
  }

  /** Every early request keeps the invariant, and only a fatal one makes the walk give up. */
  lemma RequestKeeps(w: Walk, e: Event, n: nat, versions: set<seq<Record>>, read: seq<Record>)
    returns (read': seq<Record>)
    requires Inv(w, n, versions, read) && Going(w) && Early(w, e)
    requires e.Cancel? ==> |e.contents| == n && e.contents in versions
    ensures Inv(Request(w, e), n, versions, read')
    ensures Request(w, e).Failed? <==> Fatal(w, e)
  {
    read' := read;
    if e.Serve? {
      var rec := w.records[w.i];
      assert Held(rec, |read|, versions);
      KeepsWhole(read, versions, rec);
      SensorsAppend(read, rec);
      if |w.part| < 5 {
        assert e.cap >= 5 ==> Slice(rec, 0, 5) == rec[..5];
        if e.cap >= 5 && |rec| == 5 {
          assert rec[..5] == rec;
          read' := read + [rec];
        }
      } else {
        PageIff(rec, w.part, e.cap);
        PageContinues(rec, w.part, e.cap);
        if w.part + Page(rec, w.part, e.cap) == rec {
          read' := read + [rec];
        }
      }
    }
  }

  /** A fatal request comes while the walk is still going on. */
  ghost predicate GivesUp(w: Walk, events: seq<Event>) {
    exists k :: 0 <= k < |events| && FatalAt(w, events, k)
  }

  ghost predicate FatalAt(w: Walk, events: seq<Event>, k: nat)
    requires k < |events|
  {
    Going(Run(w, events[..k])) && Fatal(Run(w, events[..k]), events[k])
  }

  /** To the end of the walk: the invariant is kept, and the walk gives up exactly at a fatal request. */
  lemma {:induction false} FateKeeps(w: Walk, events: seq<Event>, n: nat, versions: set<seq<Record>>, read: seq<Record>)
    returns (read': seq<Record>)
    requires Inv(w, n, versions, read) && !w.Failed? && Known(events, n, versions) && EarlyPages(w, events)
    ensures Inv(Fate(w, events), n, versions, read') && !Fate(w, events).Reading?
    ensures Fate(w, events).Failed? <==> GivesUp(w, events)
    decreases |events|, RecordsLeft(w), BytesLeft(w)
  {
    read' := read;
    if !Going(w) {
      FateOfEnded(w, events);
      NothingFatal(w, events);
    } else {
      var e := Upcoming(events);
      FateStep(w, events);
      read' := RequestKeeps(w, e, n, versions, read);
      if Fatal(w, e) {
        FateOfEnded(Request(w, e), Later(events));
        assert Run(w, events[..0]) == w && FatalAt(w, events, 0);
      } else {
        read' := FateKeeps(Request(w, e), Later(events), n, versions, read');
        if |events| > 0 {
          ShiftFatal(w, events);
        }
      }
    }
  }

  lemma NothingFatal(w: Walk, events: seq<Event>)
    requires !Going(w)
    ensures !GivesUp(w, events)
  {
    forall k | 0 <= k < |events|
      ensures !FatalAt(w, events, k)
    {
      assert Run(w, events[..k]) == w;
    }
  }

  /** Looking for the fatal request one event later. */
  lemma ShiftFatal(w: Walk, events: seq<Event>)
    requires Going(w) && |events| > 0 && !Fatal(w, events[0])
    ensures GivesUp(w, events) <==> GivesUp(Request(w, events[0]), events[1..])
  {
    var w', rest := Request(w, events[0]), events[1..];
    forall k | 1 <= k < |events|
      ensures FatalAt(w, events, k) <==> FatalAt(w', rest, k - 1)
    {
      assert events[..k][1..] == rest[..k - 1];
    }
    assert Run(w, events[..0]) == w;
    if GivesUp(w, events) {
      var k :| 0 <= k < |events| && FatalAt(w, events, k);
      assert FatalAt(w', rest, k - 1);
    }
    if GivesUp(w', rest) {
      var k :| 0 <= k < |rest| && FatalAt(w', rest, k);
      assert FatalAt(w, events, k + 1);
    }
  }

  /** Whatever the BMC cancels, as long as no page is served at an offset above 255, the walk returns sensor records
  in list order, each read whole from one version of the repository; and it returns every one unless it gives up,
  which it does exactly at a fatal request. */
  lemma ScanExact(records: seq<Record>, events: seq<Event>) returns (read: seq<Record>)
    requires |records| >= 1 && EarlyPages(Start(records), events)
    requires forall k :: 0 <= k < |events| && events[k].Cancel? ==> |events[k].contents| == |records|
    ensures var w := Scan(records, events);
            && (w.Done? || w.Failed?) && w.out == Sensors(read) && Whole(read, Versions(records, events))
            && (w.Done? ==> |read| == |records|)
            && (w.Failed? <==> GivesUp(Start(records), events))
  {
    read := FateKeeps(Start(records), events, |records|, Versions(records, events), []);
  }

  // ---- schedules that serve every page early ------------------------------

  /** A walk whose part lengths are 5 more than a multiple of 16, or whose records are at most 256 bytes. */
  ghost predicate Tracked(w: Walk, n: nat, full: bool) {
    w.Reading? ==>
      && w.i < |w.records| == n && (!full ==> ShortRecords(w.records))
      && (w.part == [] || (PartRead(w.records[w.i], w.part) && (full ==> |w.part| % 16 == 5)))
  }

  ghost predicate ShortRecords(records: seq<Record>) {
    forall i :: 0 <= i < |records| ==> |records[i]| <= 256
  }

  /** The BMC serves full pages, or, with records of at most 256 bytes, any page of at least one byte. */
  ghost predicate Steady(e: Event, n: nat, full: bool) {
    match e
    case Serve(cap) => cap >= if full then 16 else 1
    case Cancel(_, contents) => |contents| == n && (!full ==> ShortRecords(contents))
  }

  lemma SteadyStep(w: Walk, e: Event, n: nat, full: bool)
    requires Tracked(w, n, full) && Going(w) && Steady(e, n, full)
    ensures Early(w, e) && Tracked(Request(w, e), n, full)
  {
    if e.Serve? {
      var rec := w.records[w.i];
      if |w.part| < 5 {
        assert e.cap >= 5 ==> Slice(rec, 0, 5) == rec[..5];
      } else {
        SteadyPage(rec, w.part, e.cap, full);
      }
    }
  }

  lemma SteadyPage(rec: Record, part: seq<byte>, cap: nat, full: bool)
    requires PartRead(rec, part) && cap >= if full then 16 else 1
    requires full ==> |part| % 16 == 5
    requires !full ==> |rec| <= 256
    ensures |part| < 256
    ensures var part' := part + Page(rec, part, cap);
            |part'| > |part| && (part' == rec || (PartRead(rec, part') && (full ==> |part'| % 16 == 5)))
  {
    PageIff(rec, part, cap);
    PageContinues(rec, part, cap);
  }

  /** Full pages are always early, whatever the length of the records; so are all pages of short records. */
  lemma {:induction false} SteadyIsEarly(w: Walk, events: seq<Event>, n: nat, full: bool)
    requires Tracked(w, n, full) && forall k :: 0 <= k < |events| ==> Steady(events[k], n, full)
    ensures EarlyPages(w, events)
    decreases |events|, RecordsLeft(w), BytesLeft(w)
  {
    if Going(w) {
      SteadyStep(w, Upcoming(events), n, full);
      SteadyIsEarly(Request(w, Upcoming(events)), Later(events), n, full);
    }
  }

  // ---- one record, exactly ------------------------------------------------

  /** Reading a record on from offset `k`: every page starts below 256, or brings the right bytes all the same. */
  ghost predicate Unwrapped(rec: Record, k: nat, events: seq<Event>)
    decreases |events|, |rec| - k
  {
    k < |rec| && Upcoming(events).Serve? && Upcoming(events).cap >= 1 ==>
      var n := Min(Min(16, |rec| - k), Upcoming(events).cap);
      (k < 256 || rec[k - 256..k - 256 + n] == rec[k..k + n]) && Unwrapped(rec, k + n, Later(events))
  }

  ghost predicate AllServed(events: seq<Event>) {
    forall k :: 0 <= k < |events| ==> events[k].Serve? && events[k].cap >= 1
  }

  /** From a part that has the record's header on: the record comes out right exactly if the part is right so far and
  no page still to come wraps to other bytes. */
  lemma {:induction false} AssembledIff(rec: Record, part: seq<byte>, events: seq<Event>)
    requires IsSensor(rec) && 5 <= |part| < |rec| && part[..5] == rec[..5] && AllServed(events)
    ensures Fate(Reading(0, [rec], part, []), events) == Done([rec])
       <==> part == rec[..|part|] && Unwrapped(rec, |part|, events)
    decreases |events|, 260 - |part|
  {
    var cap := Upcoming(events).cap;
    var more := Page(rec, part, cap);
    var part' := part + more;
    UnwrappedStep(rec, part, cap, events, |part'|);
    AfterPage(rec, part, cap, events, part');
    PrefixStep(rec, part, more, part');
    if |part'| < |rec| {
      AssembledIff(rec, part', Later(events));
    } else {
      assert rec[..|part'|] == rec;
    }
  }

  lemma UnwrappedStep(rec: Record, part: seq<byte>, cap: nat, events: seq<Event>, k: nat)
    requires 5 <= |part| < |rec| && part[..5] == rec[..5] && Upcoming(events) == Serve(cap) && cap >= 1
    requires k == |part| + |Page(rec, part, cap)|
    ensures |part| < k <= |rec|
    ensures Unwrapped(rec, |part|, events) <==> Page(rec, part, cap) == rec[|part|..k] && (k < |rec| ==> Unwrapped(rec, k, Later(events)))
  {
    SameHeader(rec, part);
    PageIff(rec, part, cap);
    var n := Min(Min(16, |rec| - |part|), cap);
    assert k == |part| + n;
    UnwrappedNext(rec, |part|, events, n);
  }

  lemma UnwrappedNext(rec: Record, k: nat, events: seq<Event>, n: nat)
    requires k < |rec| && Upcoming(events).Serve? && Upcoming(events).cap >= 1 && n == Min(Min(16, |rec| - k), Upcoming(events).cap)
    ensures Unwrapped(rec, k, events)
       <==> (k < 256 || rec[k - 256..k - 256 + n] == rec[k..k + n]) && (k + n < |rec| ==> Unwrapped(rec, k + n, Later(events)))
  {
  }

  lemma SameHeader(rec: Record, part: seq<byte>)
    requires 5 <= |part| && part[..5] == rec[..5]
    ensures part[3] == rec[3] && part[4] == rec[4]
  {
    assert part[3] == part[..5][3] && part[4] == part[..5][4];
  }

  /** One page: the walk goes on with a longer part, or is done with what it has put together. */
  lemma AfterPage(rec: Record, part: seq<byte>, cap: nat, events: seq<Event>, part': seq<byte>)
    requires IsSensor(rec) && 5 <= |part| < |rec| && part[..5] == rec[..5] && part' == part + Page(rec, part, cap)
    requires Upcoming(events) == Serve(cap) && cap >= 1
    ensures part'[..5] == rec[..5] && |part| < |part'| <= |rec|
    ensures Fate(Reading(0, [rec], part, []), events)
         == if |part'| < |rec| then Fate(Reading(0, [rec], part', []), Later(events)) else Done([part'])
  {
    var w := Reading(0, [rec], part, []);
    SameHeader(rec, part);
    PageIff(rec, part, cap);
    FateStep(w, events);
    if |part'| == |rec| {
      FateOfEnded(Complete(w, part'), Later(events));
    }
  }

  /** A single sensor record, served without cancellations: it comes out right exactly if no page from offset 256 on
  brings other bytes than the record has there. */
  lemma OneRecordExactly(rec: Record, events: seq<Event>)
    requires IsSensor(rec) && AllServed(events) && Upcoming(events).cap >= 5
    ensures Scan([rec], events) == Done([rec]) <==> Unwrapped(rec, 5, Later(events))
  {
    FateStep(Start([rec]), events);
    assert Slice(rec, 0, 5) == rec[..5];
    AssembledIff(rec, rec[..5], Later(events));
  }

  lemma PrefixStep(rec: Record, part: seq<byte>, more: seq<byte>, part': seq<byte>)
    requires part' == part + more && |part'| <= |rec|
    ensures part' == rec[..|part'|] <==> part == rec[..|part|] && more == rec[|part|..|part'|]
  {
    assert rec[..|part'|] == rec[..|part|] + rec[|part|..|part'|];
    assert part'[..|part|] == part && part'[|part|..] == more;
  }

  // ---- where it falls short -----------------------------------------------

  /** A cancellation that is answered with its completion code alone ends the walk with nothing read. */
  lemma BareCancellationEnds(rec: Record)
    ensures Scan([rec], [Cancel([], [rec])]) == Failed([])
  {
    assert Run(Start([rec]), [Cancel([], [rec])]) == Run(Failed([]), []);
  }

  function Sevens(n: nat): (events: seq<Event>)
    ensures |events| == n && forall k :: 0 <= k < n ==> events[k] == Serve(7)
  {
    seq(n, _ => Serve(7))
  }

  lemma {:induction false} SevenAtATime(rec: Record, read: nat, n: nat)
    requires |rec| == 260 && 5 <= read && read + 7 * n <= 257
    ensures Run(Reading(0, [rec], rec[..read], []), Sevens(n)) == Reading(0, [rec], rec[..read + 7 * n], [])
    decreases n
  {
    if n > 0 {
      SevenMore(rec, read);
      SevensLater(n);
      SevenAtATime(rec, read + 7, n - 1);
    }
  }

  lemma SevenMore(rec: Record, read: nat)
    requires |rec| == 260 && 5 <= read <= 250
    ensures Request(Reading(0, [rec], rec[..read], []), Serve(7)) == Reading(0, [rec], rec[..read + 7], [])
  {
    assert Page(rec, rec[..read], 7) == rec[read..read + 7];
    assert rec[..read] + rec[read..read + 7] == rec[..read + 7];
  }

  lemma SevensLater(n: nat)
    requires n > 0
    ensures Sevens(n)[0] == Serve(7) && Sevens(n)[1..] == Sevens(n - 1)
  {
  }

  /** A record of the maximal 260 bytes read seven bytes at a time: its last page starts at offset 257, which
  travels as 1, so the record ends in a copy of its own bytes 1 to 3. */
  lemma ShortPagesWrap(rec: Record)
    requires |rec| == 260 && rec[3] == 1
    ensures Scan([rec], Sevens(37)) == Done([rec[..257] + rec[1..4]])
  {
    FirstSeven(rec, 36);
    SevenAtATime(rec, 5, 36);
    LastPageWraps(rec);
  }

  lemma FirstSeven(rec: Record, n: nat)
    requires |rec| == 260
    ensures Run(Start([rec]), Sevens(n + 1)) == Run(Reading(0, [rec], rec[..5], []), Sevens(n))
  {
    assert Slice(rec, 0, 5) == rec[..5];
    assert Request(Start([rec]), Serve(7)) == Reading(0, [rec], rec[..5], []);
    SevensLater(n + 1);
  }

  lemma LastPageWraps(rec: Record)
    requires |rec| == 260 && rec[3] == 1
    ensures Finish(Reading(0, [rec], rec[..257], [])) == Done([rec[..257] + rec[1..4]])
  {
    var w, out := Reading(0, [rec], rec[..257], []), rec[..257] + rec[1..4];
    assert Page(rec, rec[..257], 16) == rec[1..4];
    assert IsSensor(out);
    assert Request(w, Serve(16)) == Done([out]);
  }

  // ---- the client ---------------------------------------------------------

  /** The BMC as the client meets it: contents, what is to come, and the current reservation. */
  datatype Bmc = Bmc(ids: Ids, records: seq<Record>, events: seq<Event>, reservation: nat, live: bool)

  function NextId(ids: Ids, i: nat): (id: nat)
    ensures id < 0x1_0000
  {
    if i + 1 < |ids| then ids[i + 1] else END_OF_LIST
  }

  /** The place of the record that a request for `rid` means: 0 asks for the first one. */
  function PlaceOf(ids: seq<nat>, rid: nat): (i: nat)
    ensures i < |ids| ==> rid == 0 || ids[i] == rid
    ensures i <= |ids|
  {
    if rid == 0 then 0 else Find(ids, rid)
  }

  function Find(ids: seq<nat>, rid: nat): (i: nat)
    ensures i <= |ids| && (i < |ids| ==> ids[i] == rid)
    ensures forall j :: 0 <= j < i ==> ids[j] != rid
  {
    if |ids| == 0 || ids[0] == rid then 0 else 1 + Find(ids[1..], rid)
  }

  /** A reply that carries out a request: completion code 0, the id of the next record, and bytes. */
  function OkReply(next: nat, data: seq<byte>): (r: seq<byte>)
    ensures |r| == 3 + |data|
  {
    [0] + Le(next, 2) + data
  }

  lemma ReplyParts(next: nat, data: seq<byte>)
    requires next < 0x1_0000
    ensures var r := OkReply(next, data); r[0] == 0 && UintLe(r[1..3]) == next && r[3..] == data
  {
    assert OkReply(next, data)[1..3] == Le(next, 2);
    Widths();
    LeFits(next, 2);
  }

  function AnswerReserve(b: Bmc): (r: (Bmc, seq<byte>)) {
    var n := (b.reservation + 1) % 0x1_0000;
    (b.(reservation := n, live := true), [0] + Le(n, 2))
  }

  function AnswerGet(b: Bmc, reservation: nat, rid: nat, offset: byte, len: byte): (r: (Bmc, seq<byte>)) {
    if reservation != b.reservation || !b.live then (b, [RESERVATION_CANCELLED])
    else
      match Upcoming(b.events)
      case Cancel(extra, contents) =>
        (b.(records := contents, events := Later(b.events), live := false), [RESERVATION_CANCELLED] + extra)
      case Serve(cap) =>
        var i := PlaceOf(b.ids, rid);
        if i >= |b.records| then (b.(events := Later(b.events)), [NO_SUCH_RECORD])
        else
          var next := NextId(b.ids, i);
          (b.(events := Later(b.events)), OkReply(next, Slice(b.records[i], offset, Min(len, cap))))
  }

  datatype Error = ShortReply | Code(cc: byte)
  datatype Result<T> = Ok(value: T) | Err(error: Error)

  method Reserve(b: Bmc) returns (b': Bmc, reservation: nat)
    ensures b' == AnswerReserve(b).0 && reservation == b'.reservation
  {
    var answer := AnswerReserve(b);
    b' := answer.0;
    var resp := answer.1;
    ReplyParts(b'.reservation, []);
    assert resp == OkReply(b'.reservation, []);
    reservation := UintLe(resp[1..3]);
  }

  /** Bytes of a record, and the id of the record after it. */
  datatype Chunk = Chunk(next: nat, bytes: seq<byte>)

  /** One Get SDR request. Served, it brings the bytes at the offset and the id of the next record. A cancellation is
  recognised unless its reply is bare: the length of a reply is tested before its completion code. Without a live
  reservation, or for an unknown record, the reply is a bare completion code, and so an error without a code. */
  method GetSDR(b: Bmc, reservation: nat, rid: nat, offset: byte, len: byte) returns (b': Bmc, r: Result<Chunk>)
    ensures reservation != b.reservation || !b.live ==> b' == b && r == Err(ShortReply)
    ensures reservation == b.reservation && b.live && Upcoming(b.events).Cancel? ==>
              && b' == b.(records := Upcoming(b.events).contents, events := Later(b.events), live := false)
              && r == Err(if Bare(Upcoming(b.events)) then ShortReply else Code(RESERVATION_CANCELLED))
    ensures reservation == b.reservation && b.live && Upcoming(b.events).Serve? ==>
              var i := PlaceOf(b.ids, rid);
              && b' == b.(events := Later(b.events))
              && r == if i >= |b.records| then Err(ShortReply)
                      else Ok(Chunk(NextId(b.ids, i), Slice(b.records[i], offset, Min(len, Upcoming(b.events).cap))))
  {
    ghost var i := PlaceOf(b.ids, rid);
    if Upcoming(b.events).Serve? && i < |b.records| {
      ReplyParts(NextId(b.ids, i), Slice(b.records[i], offset, Min(len, Upcoming(b.events).cap)));
    }
    var answer := AnswerGet(b, reservation, rid, offset, len);
    b' := answer.0;
    var resp := answer.1;
    if |resp| < 3 {
      return b', Err(ShortReply);
    }
    if resp[0] != 0 {
      return b', Err(Code(resp[0]));
    }
    r := Ok(Chunk(UintLe(resp[1..3]), resp[3..]));
  }

  /** The client holds the current reservation, and the walk stands where the client does. */
  ghost predicate InStep(b: Bmc, reservation: nat, rid: nat, w: Walk) {
    && b.live && reservation == b.reservation && |b.records| == |b.ids|
    && w.Reading? && w.records == b.records && w.i < |b.ids| && w.i == PlaceOf(b.ids, rid)
    && forall k :: 0 <= k < |b.events| && b.events[k].Cancel? ==> |b.events[k].contents| == |b.ids|
  }

  lemma FateOfFailed(out: seq<seq<byte>>, events: seq<Event>)
    ensures Fate(Failed(out), events) == Failed(out) && Fate(Done(out), events) == Done(out)
  {
  }

  /** How a request ends for the walk: it brings bytes, or a cancellation, or the end. */
  ghost predicate Ended(b: Bmc, w: Walk, b': Bmc, r: Result<Chunk>, fate: Walk) {
    match r
    case Ok(c) => true
    case Err(e) =>
      && |b'.events| < |b.events| && |b'.records| == |b.ids| && b'.ids == b.ids && w.Reading?
      && (forall k :: 0 <= k < |b'.events| && b'.events[k].Cancel? ==> |b'.events[k].contents| == |b.ids|)
      && fate == if e == Code(RESERVATION_CANCELLED) then Fate(Reading(w.i, b'.records, [], w.out), b'.events) else Failed(w.out)
  }

  /** A page request: what the client gets is what the walk sees. */
  method GetPage(b: Bmc, reservation: nat, rid: nat, offset: byte, len: byte, ghost w: Walk) returns (b': Bmc, r: Result<Chunk>)
    requires InStep(b, reservation, rid, w)
    ensures Ended(b, w, b', r, Fate(w, b.events))
    ensures r.Ok? ==>
              && InStep(b', reservation, rid, w) && b'.ids == b.ids && b'.events == Later(b.events) && Upcoming(b.events).Serve?
              && r.value == Chunk(NextId(b.ids, w.i), Slice(w.records[w.i], offset, Min(len, Upcoming(b.events).cap)))
  {
    b', r := GetSDR(b, reservation, rid, offset, len);
    if Upcoming(b.events).Cancel? {
      CancelledHere(b, w, b', r);
    }
  }

  lemma CancelledHere(b: Bmc, w: Walk, b': Bmc, r: Result<Chunk>)
    requires Upcoming(b.events).Cancel? && Going(w) && w.i < |Upcoming(b.events).contents|
    requires b'.records == Upcoming(b.events).contents && b'.events == Later(b.events)
    requires r == Err(if |Upcoming(b.events).extra| < 2 then ShortReply else Code(RESERVATION_CANCELLED))
    ensures Fate(w, b.events) == if r.error == Code(RESERVATION_CANCELLED) then Fate(Reading(w.i, b'.records, [], w.out), b'.events)
                                 else Failed(w.out)
  {
    FateStep(w, b.events);
    FateOfFailed(w.out, b'.events);
  }

  /** Where the walk stands after bytes of a record have come. */
  function Progress(w: Walk, part: seq<byte>): Walk
    requires w.Reading? && |part| >= 5
  {
    if |part| >= Total(part) then Complete(w, part) else w.(part := part)
  }

  lemma HeaderFate(w: Walk, b: Bmc, first: seq<byte>)
    requires Going(w) && w.part == [] && Upcoming(b.events).Serve? && first == Slice(w.records[w.i], 0, Min(5, Upcoming(b.events).cap))
    ensures Fate(w, b.events) == if |first| < 5 then Failed(w.out) else Fate(Progress(w, first), Later(b.events))
  {
    FateStep(w, b.events);
    FateOfFailed(w.out, Later(b.events));
  }

  lemma PageFate(w: Walk, b: Bmc, part: seq<byte>, more: seq<byte>)
    requires Going(w) && 5 <= |part| < Total(part) && Upcoming(b.events).Serve?
    requires more == Slice(w.records[w.i], |part| % 256, Min(Min(16, Total(part) - |part|), Upcoming(b.events).cap))
    ensures Fate(w.(part := part), b.events)
         == Fate(if |more| == 0 then Complete(w, part) else Progress(w, part + more), Later(b.events))
  {
    FateStep(w.(part := part), b.events);
    assert |more| == 0 ==> part + more == part;
  }

  /** Assembles one record page by page. */
  method GetSDRRecord(b: Bmc, reservation: nat, rid: nat, ghost w: Walk) returns (b': Bmc, r: Result<Chunk>)
    requires InStep(b, reservation, rid, w) && w.part == []
    ensures Ended(b, w, b', r, Fate(w, b.events))
    ensures r.Ok? ==>
              && InStep(b', reservation, rid, w) && b'.ids == b.ids && |b'.events| <= |b.events|
              && r.value.next == NextId(b.ids, w.i) && Fate(w, b.events) == Fate(Complete(w, r.value.bytes), b'.events)
  {
    b', r := GetPage(b, reservation, rid, 0, 5, w);
    if r.Err? {
      return;
    }
    var next, out := r.value.next, r.value.bytes;
    HeaderFate(w, b, out);
    if |out| < 5 {
      return b', Err(ShortReply);
    }
    var total := out[4] as int + 5;
    while |out| < total
      invariant |out| >= 5 && total == Total(out) && |b'.events| <= |b.events| && b'.ids == b.ids
      invariant InStep(b', reservation, rid, w)
      invariant Fate(w, b.events) == Fate(Progress(w, out), b'.events)
      decreases total - |out|
    {
      var remain := total - |out|;
      var n := 16;
      if remain < n {
        n := remain;
      }
      ghost var v, was := w.(part := out), b';
      b', r := GetPage(b', reservation, rid, |out| % 256, n, v);
      if r.Err? {
        return;
      }
      var more := r.value.bytes;
      PageFate(w, was, out, more);
      if |more| == 0 {
        return b', Ok(Chunk(next, out));
      }
      out := out + more;
    }
    r := Ok(Chunk(next, out));
  }

  lemma {:induction false} FindPlace(ids: seq<nat>, i: nat)
    requires i < |ids| && forall j, k :: 0 <= j < k < |ids| ==> ids[j] != ids[k]
    ensures Find(ids, ids[i]) == i
  {
  }

  /** After a record the client asks for the next one in the list, and stops at its end. */
  lemma Onward(b: Bmc, reservation: nat, rid: nat, w: Walk, bytes: seq<byte>)
    requires InStep(b, reservation, rid, w) && rid == if w.i == 0 then 0 else b.ids[w.i]
    ensures var next := NextId(b.ids, w.i);
            if w.i + 1 < |b.ids| then
              && next == b.ids[w.i + 1] != END_OF_LIST && next != rid
              && Complete(w, bytes) == Reading(w.i + 1, b.records, [], Keep(w.out, bytes))
              && InStep(b, reservation, next, Complete(w, bytes))
            else next == END_OF_LIST && Complete(w, bytes) == Done(Keep(w.out, bytes))
  {
    if w.i + 1 < |b.ids| {
      FindPlace(b.ids, w.i + 1);
    }
  }

  /** Whether a record is one the parsers keep: by its type, and by the length of its body. */
  method ParseSDR(rec: seq<byte>) returns (ok: bool)
    ensures ok == IsSensor(rec)
  {
    if |rec| < 6 {
      return false;
    }
    var body := rec[5..];
    match rec[3] {
      case 1 => ok := |body| >= 43;
      case 2 => ok := |body| >= 27;
      case _ => ok := false;
    }
  }

  /** Walks the repository: on a recognised cancellation it reserves again and rereads the same record. */
  method ScanSensors(b: Bmc) returns (b': Bmc, out: seq<seq<byte>>, ok: bool)
    requires |b.records| == |b.ids|
    requires forall k :: 0 <= k < |b.events| && b.events[k].Cancel? ==> |b.events[k].contents| == |b.ids|
    ensures Scan(b.records, b.events) == if ok then Done(out) else Failed(out)
  {
    var reservation;
    b', reservation := Reserve(b);
    out := [];
    var rid := 0;
    ghost var i := 0;
    while true
      invariant i < |b.ids| && b'.ids == b.ids && |b'.records| == |b.ids|
      invariant InStep(b', reservation, rid, Reading(i, b'.records, [], out))
      invariant Scan(b.records, b.events) == Fate(Reading(i, b'.records, [], out), b'.events)
      invariant rid == if i == 0 then 0 else b.ids[i]
      decreases |b'.events| + |b.ids| - i
    {
      ghost var w := Reading(i, b'.records, [], out);
      var r;
      b', r := GetSDRRecord(b', reservation, rid, w);
      if r.Err? {
        if r.error == Code(RESERVATION_CANCELLED) {
          b', reservation := Reserve(b');
          continue;
        }
        return b', out, false;
      }
      FateOfFailed(Keep(out, r.value.bytes), b'.events);
      Onward(b', reservation, rid, w, r.value.bytes);
      if |r.value.bytes| >= 5 {
        var sensor := ParseSDR(r.value.bytes);
        if sensor {
          out := out + [r.value.bytes];
        }
      }
      if r.value.next == END_OF_LIST {
        return b', out, true;
      }
      if r.value.next == rid {
        return b', out, true;
      }
      rid := r.value.next;
      i := i + 1;
    }
  }
}
