/** The virtual-media session: it answers the BMC's sector requests from a backing image. */
module VirtualMedia {
  import opened Basics
  import opened Bits
  import opened Endian
  import opened Frames

  const VDISK_READ_DATA := 0x0300
  const CLIENT_STATUS := 0x0410
  const VDISK_READ := 0x8300
  const VDISK_WRITE := 0x8310

  const STATUS_OK := 0
  const STATUS_ERROR := 2
  const STATUS_DENIED := 3

  // ---- requests and replies -----------------------------------------------

  /** The fixed part of a sector request: disk id, first block, number of blocks, blocking factor. */
  datatype Sectors = Sectors(id: nat, start: nat, count: nat, factor: nat)

  function RangeOf(payload: seq<byte>): (r: Sectors)
    requires |payload| >= 14
  {
    Sectors(UintBe(payload[0..2]), UintBe(payload[2..6]), UintBe(payload[6..10]), UintBe(payload[10..14]))
  }

  /** What the session sends: sector data, or a status. */
  datatype Reply = Data(id: nat, start: nat, count: nat, data: seq<byte>) | Status(id: nat, status: nat)

  function FrameOf(r: Reply): Frame {
    match r
    case Data(id, start, count, data) => Frame(VDISK_READ_DATA, Be(id, 2) + Be(start, 4) + Be(count, 4) + data)
    case Status(id, status) => Frame(CLIENT_STATUS, Be(id, 2) + Be(status, 4))
  }

  function FramesOf(rs: seq<Reply>): (fs: seq<Frame>)
    ensures |fs| == |rs| && forall i :: 0 <= i < |rs| ==> fs[i] == FrameOf(rs[i])
  {
    seq(|rs|, i requires 0 <= i < |rs| => FrameOf(rs[i]))
  }

  function RequestBytes(r: Sectors): (b: seq<byte>)
    ensures |b| == 14
  {
    Be(r.id, 2) + Be(r.start, 4) + Be(r.count, 4) + Be(r.factor, 4)
  }

  /** Where the three leading fields lie, and what follows them. */
  lemma Sections(a: seq<byte>, b: seq<byte>, c: seq<byte>, d: seq<byte>)
    requires |a| == 2 && |b| == 4 && |c| == 4
    ensures var p := a + b + c + d; p[0..2] == a && p[2..6] == b && p[6..10] == c && p[10..] == d
  {
  }

  /** A request is read as it was written, whatever data follows. */
  lemma RequestRoundTrip(r: Sectors, data: seq<byte>)
    requires r.id < 0x1_0000 && r.start < 0x1_0000_0000 && r.count < 0x1_0000_0000 && r.factor < 0x1_0000_0000
    ensures RangeOf(RequestBytes(r) + data) == r && (RequestBytes(r) + data)[14..] == data
  {
    var rest := Be(r.factor, 4) + data;
    Sections(Be(r.id, 2), Be(r.start, 4), Be(r.count, 4), rest);
    assert RequestBytes(r) + data == Be(r.id, 2) + Be(r.start, 4) + Be(r.count, 4) + rest;
    assert (RequestBytes(r) + data)[10..14] == Be(r.factor, 4);
    FieldsRoundTrip(r.id, r.start, r.count);
    FieldsRoundTrip(r.id, r.factor, r.count);
  }

  lemma FieldsRoundTrip(id: nat, x: nat, y: nat)
    requires id < 0x1_0000 && x < 0x1_0000_0000 && y < 0x1_0000_0000
    ensures UintBe(Be(id, 2)) == id && UintBe(Be(x, 4)) == x && UintBe(Be(y, 4)) == y
  {
    Widths();
    BeFits(id, 2);
    BeFits(x, 4);
    BeFits(y, 4);
  }

  /** A data frame carries its disk, its first block, its number of blocks and its data. */
  lemma DataFrameFields(id: nat, start: nat, count: nat, data: seq<byte>)
    requires id < 0x1_0000 && start < 0x1_0000_0000 && count < 0x1_0000_0000
    ensures var p := FrameOf(Data(id, start, count, data)).payload;
            UintBe(p[0..2]) == id && UintBe(p[2..6]) == start && UintBe(p[6..10]) == count && p[10..] == data
  {
    Sections(Be(id, 2), Be(start, 4), Be(count, 4), data);
    FieldsRoundTrip(id, start, count);
  }

  /** A status frame carries its disk and its status. */
  lemma StatusFrameFields(id: nat, status: nat)
    requires id < 0x1_0000 && status < 0x1_0000_0000
    ensures var p := FrameOf(Status(id, status)).payload;
            |p| == 6 && UintBe(p[0..2]) == id && UintBe(p[2..6]) == status
  {
    FieldsRoundTrip(id, status, 0);
    assert (Be(id, 2) + Be(status, 4))[0..2] == Be(id, 2) && (Be(id, 2) + Be(status, 4))[2..6] == Be(status, 4);
  }

  /** Where the fields of a request lie, most significant byte first: its disk, its first block, how many blocks, and how
  many to a chunk. */
  lemma RequestFields(p: seq<byte>)
    requires |p| >= 14
    ensures RangeOf(p).id == 0x100 * p[0] as int + p[1] as int
    ensures RangeOf(p).start == 0x100_0000 * p[2] as int + 0x1_0000 * p[3] as int + 0x100 * p[4] as int + p[5] as int
    ensures RangeOf(p).count == 0x100_0000 * p[6] as int + 0x1_0000 * p[7] as int + 0x100 * p[8] as int + p[9] as int
    ensures RangeOf(p).factor == 0x100_0000 * p[10] as int + 0x1_0000 * p[11] as int + 0x100 * p[12] as int + p[13] as int
  {
    BigAt(p, 0);
    BigAt(p, 2);
    BigAt(p, 6);
    BigAt(p, 10);
  }

  // ---- the backing file ---------------------------------------------------

  /** `ReadAt`: the bytes of the file from `off` on, as far as there are any; the rest of the buffer is left as is. */
  function Fill(file: seq<byte>, buf: seq<byte>, len: nat, off: nat): (r: seq<byte>)
    requires len <= |buf|
    ensures |r| == |buf|
  {
    seq(|buf|, (i: nat) requires i < |buf| => if i < len && off + i < |file| then file[off + i] else buf[i])
  }

  /** `WriteAt`: the file grows, with zeros in any gap, when the range reaches past its end. */
  function Splice(file: seq<byte>, off: nat, data: seq<byte>): (r: seq<byte>) {
    if off + |data| <= |file| then file[..off] + data + file[off + |data|..]
    else if off <= |file| then file[..off] + data
    else file + seq(off - |file|, _ => 0) + data
  }

  /** A CD has sectors of 2048 bytes, a disk or floppy of 512. */
  type BlockSize = n: nat | n == 512 || n == 2048 witness 512

  /** The bytes of `n` blocks. */
  function Span(n: nat, bs: BlockSize): (b: nat) {
    if bs == 2048 then 2048 * n else 512 * n
  }

  lemma SpanIs(n: nat, bs: BlockSize)
    ensures Span(n, bs) == n * bs
  {
  }

  // ---- what a read sends --------------------------------------------------

  function ChunkOf(remaining: nat, factor: nat): (c: nat)
    ensures c <= remaining && c <= factor && (c == remaining || c == factor)
  {
    if remaining > factor then factor else remaining
  }

  /** The data replies of a read, sent from a buffer that is reused from chunk to chunk. */
  function ReadReplies(file: seq<byte>, bs: BlockSize, id: nat, cur: nat, remaining: nat, factor: nat, buf: seq<byte>): (rs: seq<Reply>)
    requires factor > 0 && |buf| == Span(factor, bs)
    decreases remaining
  {
    if remaining == 0 then []
    else
      var chunk := ChunkOf(remaining, factor);
      ChunkFits(chunk, factor, bs);
      var buf' := Fill(file, buf, Span(chunk, bs), Span(cur, bs));
      [Data(id, cur, chunk, buf'[..Span(chunk, bs)])] + ReadReplies(file, bs, id, cur + chunk, remaining - chunk, factor, buf')
  }

  lemma ChunkFits(chunk: nat, factor: nat, bs: BlockSize)
    requires chunk <= factor
    ensures Span(chunk, bs) <= Span(factor, bs)
  {
  }

  lemma NextChunk(sent: seq<Reply>, file: seq<byte>, bs: BlockSize, id: nat, cur: nat, remaining: nat, factor: nat, buf: seq<byte>)
    requires factor > 0 && |buf| == Span(factor, bs) && remaining > 0
    ensures var chunk := ChunkOf(remaining, factor);
            && 0 <= Span(chunk, bs) <= |buf| && Span(remaining - chunk, bs) == Span(remaining, bs) - Span(chunk, bs)
            && var buf' := Fill(file, buf, Span(chunk, bs), Span(cur, bs));
               sent + ReadReplies(file, bs, id, cur, remaining, factor, buf)
               == (sent + [Data(id, cur, chunk, buf'[..Span(chunk, bs)])])
                  + ReadReplies(file, bs, id, cur + chunk, remaining - chunk, factor, buf')
  {
    ChunkFits(ChunkOf(remaining, factor), factor, bs);
  }

  // ---- the state, and what each request does to it ------------------------

  /** A mounted image: its bytes, block size, access, and what was done with it. */
  datatype Disk = Disk(file: seq<byte>, bs: BlockSize, readOnly: bool, dirty: bool, read: nat, written: nat)

  datatype Drive = NoDisk | Mounted(disk: Disk)

  /** A read with blocking factor 0 that never gets through its range. */
  predicate Stalls(r: Sectors) {
    r.factor == 0 && r.count > 0
  }

  /** A read: the chunks and a status, or an error without a disk. A read that stalls sends empty chunks until the
  connection fails, after `patience` of them. */
  function ServeRead(v: Drive, payload: seq<byte>, patience: nat): (r: (Drive, seq<Reply>)) {
    if |payload| < 14 then (v, [])
    else
      var r := RangeOf(payload);
      match v
      case NoDisk => (v, [Status(r.id, STATUS_ERROR)])
      case Mounted(d) =>
        if Stalls(r) then (v, Copies(Data(r.id, r.start, 0, []), patience))
        else (Mounted(d.(read := d.read + Span(r.count, d.bs))), Chunks(d, r) + [Status(r.id, STATUS_OK)])
  }

  function Chunks(d: Disk, r: Sectors): (rs: seq<Reply>)
    requires r.factor > 0 || r.count == 0
  {
    if r.count == 0 then []
    else ReadReplies(d.file, d.bs, r.id, r.start, r.count, r.factor, seq(Span(r.factor, d.bs), _ => 0))
  }

  /** A write: refused without a writable disk, an error when it carries less data than it announces. */
  function ServeWrite(v: Drive, payload: seq<byte>): (r: (Drive, seq<Reply>)) {
    if |payload| < 14 then (v, [])
    else
      var r := RangeOf(payload);
      if v.NoDisk? || v.disk.readOnly then (v, [Status(r.id, STATUS_DENIED)])
      else
        var d, len := v.disk, Span(r.count, v.disk.bs);
        if |payload| - 14 < len then (v, [Status(r.id, STATUS_ERROR)])
        else
          (Mounted(d.(file := Splice(d.file, Span(r.start, d.bs), payload[14..14 + len]), dirty := true, written := d.written + len)),
           [Status(r.id, STATUS_OK)])
  }

  // ---- runs ---------------------------------------------------------------

  predicate IsSectorRequest(f: Frame) {
    f.kind == VDISK_READ || f.kind == VDISK_WRITE
  }

  /** A sector request, and what the session does with it. */
  function Serve(v: Drive, f: Frame, patience: nat): (r: (Drive, seq<Reply>))
    requires IsSectorRequest(f)
    ensures r.0.Mounted? == v.Mounted?
  {
    if f.kind == VDISK_READ then ServeRead(v, f.payload, patience) else ServeWrite(v, f.payload)
  }

  /** A request that ends the session: a read without its fixed part is an error, and so is the failed connection of a
  read that stalls. */
  predicate Ends(mounted: bool, f: Frame) {
    f.kind == VDISK_READ && (|f.payload| < 14 || (mounted && Stalls(RangeOf(f.payload))))
  }

  predicate IsOver(mounted: bool, fs: seq<Frame>) {
    exists k :: 0 <= k < |fs| && Ends(mounted, fs[k])
  }

  /** A run of the session: what becomes of the drive, and the replies to each request up to the end. */
  function Run(v: Drive, fs: seq<Frame>, patience: nat): (r: (Drive, seq<seq<Reply>>))
    requires forall i :: 0 <= i < |fs| ==> IsSectorRequest(fs[i])
    ensures r.0.Mounted? == v.Mounted?
  {
    if |fs| == 0 then (v, [])
    else
      var before := Run(v, fs[..|fs| - 1], patience);
      if IsOver(v.Mounted?, fs[..|fs| - 1]) then before
      else
        var last := Serve(before.0, fs[|fs| - 1], patience);
        (last.0, before.1 + [last.1])
  }

  lemma OverNext(mounted: bool, fs: seq<Frame>, k: nat)
    requires k < |fs|
    ensures IsOver(mounted, fs[..k + 1]) <==> IsOver(mounted, fs[..k]) || Ends(mounted, fs[k])
  {
    var before, after := fs[..k], fs[..k + 1];
    assert after[k] == fs[k] && forall e :: 0 <= e < k ==> after[e] == before[e];
    if IsOver(mounted, after) {
      var e :| 0 <= e < |after| && Ends(mounted, after[e]);
      assert e < k ==> Ends(mounted, before[e]);
    }
    if IsOver(mounted, before) {
      var e :| 0 <= e < |before| && Ends(mounted, before[e]);
      assert Ends(mounted, after[e]);
    }
  }

  /** One more request, before the end of the session. */
  lemma RunOne(v: Drive, fs: seq<Frame>, k: nat, patience: nat)
    requires k < |fs| && (forall i :: 0 <= i < |fs| ==> IsSectorRequest(fs[i])) && !IsOver(v.Mounted?, fs[..k])
    ensures var before, last := Run(v, fs[..k], patience), Serve(Run(v, fs[..k], patience).0, fs[k], patience);
            Run(v, fs[..k + 1], patience) == (last.0, before.1 + [last.1])
  {
    assert fs[..k + 1][..k] == fs[..k];
  }

  /** After its end the session stands still. */
  lemma {:induction false} RunStands(v: Drive, fs: seq<Frame>, k: nat, patience: nat)
    requires k <= |fs| && (forall i :: 0 <= i < |fs| ==> IsSectorRequest(fs[i])) && IsOver(v.Mounted?, fs[..k])
    ensures Run(v, fs, patience) == Run(v, fs[..k], patience)
  {
    if k < |fs| {
      var init := fs[..|fs| - 1];
      assert init[..k] == fs[..k];
      var e :| 0 <= e < k && Ends(v.Mounted?, fs[..k][e]);
      assert Ends(v.Mounted?, init[e]);
      RunStands(v, init, k, patience);
    } else {
      assert fs[..k] == fs;
    }
  }

  function Joined(rss: seq<seq<Reply>>): seq<Reply> {
    if |rss| == 0 then [] else Joined(rss[..|rss| - 1]) + rss[|rss| - 1]
  }

  lemma JoinedOne(rss: seq<seq<Reply>>, rs: seq<Reply>)
    ensures Joined(rss + [rs]) == Joined(rss) + rs
  {
    assert (rss + [rs])[..|rss|] == rss;
  }

  // ---- blocking factor 0 --------------------------------------------------

  /** The chunk loop's counters after `n` turns. */
  function Turns(cur: nat, remaining: nat, factor: nat, n: nat): (r: (nat, nat))
    decreases n
  {
    if n == 0 || remaining == 0 then (cur, remaining)
    else Turns(cur + ChunkOf(remaining, factor), remaining - ChunkOf(remaining, factor), factor, n - 1)
  }

  /** The loop ends exactly if there is nothing to read or the blocking factor is positive; with factor 0 it stands
  still for ever. */
  lemma LoopEndsIff(cur: nat, remaining: nat, factor: nat)
    ensures (exists n: nat :: Turns(cur, remaining, factor, n).1 == 0) <==> remaining == 0 || factor > 0
  {
    if factor > 0 {
      TurnsEnd(cur, remaining, factor);
      assert Turns(cur, remaining, factor, remaining).1 == 0;
    } else {
      forall n: nat ensures Turns(cur, remaining, factor, n).1 == remaining { StandsStill(cur, remaining, n); }
      assert remaining == 0 ==> Turns(cur, remaining, factor, 0).1 == 0;
    }
  }

  lemma {:induction false} TurnsEnd(cur: nat, remaining: nat, factor: nat)
    requires factor > 0
    ensures forall n: nat :: n >= remaining ==> Turns(cur, remaining, factor, n) == (cur + remaining, 0)
    decreases remaining
  {
    if remaining > 0 {
      TurnsEnd(cur + ChunkOf(remaining, factor), remaining - ChunkOf(remaining, factor), factor);
    }
  }

  lemma {:induction false} StandsStill(cur: nat, remaining: nat, n: nat)
    ensures Turns(cur, remaining, 0, n) == (cur, remaining)
    decreases n
  {
    if n > 0 && remaining > 0 {
      StandsStill(cur, remaining, n - 1);
    }
  }

  class Media {
    var file: seq<byte>
    const blockSize: BlockSize
    const readOnly: bool
    var dirty: bool
    var bytesRead: nat
    var bytesWritten: nat

    constructor (file: seq<byte>, blockSize: BlockSize, readOnly: bool)
      ensures View() == Disk(file, blockSize, readOnly, false, 0, 0)
    {
      this.file, this.blockSize, this.readOnly := file, blockSize, readOnly;
      dirty, bytesRead, bytesWritten := false, 0, 0;
    }

    ghost function View(): Disk
      reads this
    {
      Disk(file, blockSize, readOnly, dirty, bytesRead, bytesWritten)
    }
  }

  class Session {
    var media: Media?

    /** The frames written to the connection, and the replies they carry. */
    var sent: seq<Frame>
    ghost var replies: seq<Reply>

    constructor (media: Media?)
      ensures Valid() && this.media == media && replies == []
    {
      this.media, sent, replies := media, [], [];
    }

    ghost predicate Valid()
      reads `sent, `replies
    {
      sent == FramesOf(replies)
    }

    ghost function View(): Drive
      reads this, media
    {
      if media == null then NoDisk else Mounted(media.View())
    }

    method Send(r: Reply)
      requires Valid()
      modifies `sent, `replies
      ensures Valid() && replies == old(replies) + [r]
    {
      sent := sent + [FrameOf(r)];
      replies := replies + [r];
    }

    /** Sends the requested blocks in chunks of the blocking factor, then a status. A read that stalls goes on until
    the connection fails. */
    method RespondVdiskRead(payload: seq<byte>, patience: nat) returns (ok: bool)
      requires Valid()
      modifies `sent, `replies, media
      ensures ok == !(|payload| < 14 || (media != null && Stalls(RangeOf(payload))))
      ensures var r := ServeRead(old(View()), payload, patience); Valid() && View() == r.0 && replies == old(replies) + r.1
    {
      if |payload| < 14 {
        return false;
      }
      ok := true;
      var r := RangeOf(payload);
      if media == null {
        Send(Status(r.id, STATUS_ERROR));
        return;
      }
      if r.count > 0 {
        if r.factor == 0 {
          ReadStalled(r, patience);
          return false;
        }
        ReadChunks(media, r);
      }
      Send(Status(r.id, STATUS_OK));
    }

    /** The chunk loop with blocking factor 0, as long as the connection takes its frames: no turn changes the
    counters. */
    method ReadStalled(r: Sectors, patience: nat)
      requires Valid() && Stalls(r)
      modifies `sent, `replies
      ensures Valid() && replies == old(replies) + Copies(Data(r.id, r.start, 0, []), patience)
    {
      var remaining, current := r.count, r.start;
      for n := 0 to patience
        invariant remaining == r.count && current == r.start
        invariant Valid() && replies == old(replies) + Copies(Data(r.id, r.start, 0, []), n)
      {
        var chunk := remaining;
        if chunk > r.factor {
          chunk := r.factor;
        }
        assert Copies(Data(r.id, r.start, 0, []), n + 1) == Copies(Data(r.id, r.start, 0, []), n) + [Data(r.id, r.start, 0, [])];
        Send(Data(r.id, current, chunk, []));
        remaining := remaining - chunk;
        current := current + chunk;
      }
    }

    /** The chunk loop. */
    method ReadChunks(m: Media, r: Sectors)
      requires Valid() && r.factor > 0 && r.count > 0
      modifies `sent, `replies, m`bytesRead
      ensures m.bytesRead == old(m.bytesRead) + Span(r.count, m.blockSize)
      ensures Valid() && replies == old(replies) + Chunks(m.View(), r)
    {
      SpanIs(r.factor, m.blockSize);
      var buf: seq<byte> := seq(r.factor * m.blockSize, _ => 0);
      ghost var total := m.bytesRead + Span(r.count, m.blockSize);
      ghost var goal := replies + ReadReplies(m.file, m.blockSize, r.id, r.start, r.count, r.factor, buf);
      var remaining, current := r.count, r.start;
      while remaining > 0
        invariant 0 <= remaining && 0 <= current && |buf| == Span(r.factor, m.blockSize)
        invariant m.bytesRead + Span(remaining, m.blockSize) == total
        invariant Valid() && goal == replies + ReadReplies(m.file, m.blockSize, r.id, current, remaining, r.factor, buf)
        decreases remaining
      {
        remaining, current, buf := ReadChunk(m, r, remaining, current, buf);
      }
      assert goal == replies;
    }

    /** One chunk: read into the buffer, sent, and counted. */
    method ReadChunk(m: Media, r: Sectors, remaining: nat, current: nat, buf: seq<byte>)
      returns (remaining': nat, current': nat, buf': seq<byte>)
      requires Valid() && r.factor > 0 && remaining > 0 && |buf| == Span(r.factor, m.blockSize)
      modifies `sent, `replies, m`bytesRead
      ensures (current', remaining') == Turns(current, remaining, r.factor, 1)
      ensures remaining' < remaining && |buf'| == Span(r.factor, m.blockSize)
      ensures m.bytesRead + Span(remaining', m.blockSize) == old(m.bytesRead) + Span(remaining, m.blockSize)
      ensures Valid() && replies + ReadReplies(m.file, m.blockSize, r.id, current', remaining', r.factor, buf')
           == old(replies) + ReadReplies(m.file, m.blockSize, r.id, current, remaining, r.factor, buf)
    {
      NextChunk(replies, m.file, m.blockSize, r.id, current, remaining, r.factor, buf);
      var chunk := remaining;
      if chunk > r.factor {
        chunk := r.factor;
      }
      SpanIs(chunk, m.blockSize);
      SpanIs(current, m.blockSize);
      var length := chunk * m.blockSize;
      buf' := Fill(m.file, buf, length, current * m.blockSize);
      Send(Data(r.id, current, chunk, buf'[..length]));
      m.bytesRead := m.bytesRead + length;
      remaining' := remaining - chunk;
      current' := current + chunk;
    }

    /** Writes the blocks to the backing file, or refuses, and answers with a status. */
    method RespondVdiskWrite(payload: seq<byte>)
      requires Valid()
      modifies `sent, `replies, media
      ensures var r := ServeWrite(old(View()), payload); Valid() && View() == r.0 && replies == old(replies) + r.1
    {
      if |payload| < 14 {
        return;
      }
      var id := UintBe(payload[0..2]);
      if media == null || media.readOnly {
        Send(Status(id, STATUS_DENIED));
        return;
      }
      var start, count, data := UintBe(payload[2..6]), UintBe(payload[6..10]), payload[14..];
      SpanIs(count, media.blockSize);
      SpanIs(start, media.blockSize);
      var expectedLen := count * media.blockSize;
      if |data| < expectedLen {
        Send(Status(id, STATUS_ERROR));
        return;
      }
      assert data[..expectedLen] == payload[14..14 + expectedLen];
      media.file := Splice(media.file, start * media.blockSize, data[..expectedLen]);
      media.dirty := true;
      media.bytesWritten := media.bytesWritten + expectedLen;
      Send(Status(id, STATUS_OK));
    }

    /** Dispatches a sector request; false ends the session. */
    method Handle(f: Frame, patience: nat) returns (ok: bool)
      requires Valid() && IsSectorRequest(f)
      modifies `sent, `replies, media
      ensures ok == !Ends(media != null, f)
      ensures var r := Serve(old(View()), f, patience); Valid() && View() == r.0 && replies == old(replies) + r.1
    {
      if f.kind == VDISK_READ {
        ok := RespondVdiskRead(f.payload, patience);
      } else {
        RespondVdiskWrite(f.payload);
        ok := true;
      }
    }

    /** The request loop: it answers frame after frame, until one ends the session. */
    method RunFrames(fs: seq<Frame>, patience: nat)
      requires Valid() && forall i :: 0 <= i < |fs| ==> IsSectorRequest(fs[i])
      modifies `sent, `replies, media
      ensures var r := Run(old(View()), fs, patience); Valid() && View() == r.0 && replies == old(replies) + Joined(r.1)
    {
      ghost var v, before := View(), replies;
      for k := 0 to |fs|
        invariant Valid() && !IsOver(v.Mounted?, fs[..k]) && Reached(v, fs[..k], patience, before, View(), replies)
      {
        ghost var view, rs := View(), replies;
        var ok := Handle(fs[k], patience);
        ReachedNext(v, fs, k, patience, before, view, rs, View(), replies);
        OverNext(v.Mounted?, fs, k);
        if !ok {
          RunStands(v, fs, k + 1, patience);
          return;
        }
      }
      assert fs[..|fs|] == fs;
    }
  }

  /** The state of a session that had sent `before` and has run through `fs`. */
  ghost predicate Reached(v: Drive, fs: seq<Frame>, patience: nat, before: seq<Reply>, view: Drive, rs: seq<Reply>)
    requires forall i :: 0 <= i < |fs| ==> IsSectorRequest(fs[i])
  {
    view == Run(v, fs, patience).0 && rs == before + Joined(Run(v, fs, patience).1)
  }

  lemma ReachedNext(v: Drive, fs: seq<Frame>, k: nat, patience: nat, before: seq<Reply>, view: Drive, rs: seq<Reply>,
                    view': Drive, rs': seq<Reply>)
    requires k < |fs| && (forall i :: 0 <= i < |fs| ==> IsSectorRequest(fs[i])) && !IsOver(v.Mounted?, fs[..k])
    requires Reached(v, fs[..k], patience, before, view, rs)
    requires (view', rs') == (Serve(view, fs[k], patience).0, rs + Serve(view, fs[k], patience).1)
    ensures Reached(v, fs[..k + 1], patience, before, view', rs') && view'.Mounted? == v.Mounted?
  {
    var done, last := Run(v, fs[..k], patience).1, Serve(view, fs[k], patience).1;
    RunOne(v, fs, k, patience);
    JoinedOne(done, last);
    Regroup(before, Joined(done), last);
  }
}
