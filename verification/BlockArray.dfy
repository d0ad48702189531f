/** The virtual-media session as a block array: over any run of requests inside the image it reads and writes an
array of blocks. */
module BlockArray {
  import opened Basics
  import opened Bits
  import opened Frames
  import opened VirtualMedia

  type Blocks = seq<seq<byte>>

  function BlockAt(file: seq<byte>, bs: BlockSize, i: nat): (b: seq<byte>) {
    Cut(file, Span(i, bs), bs)
  }

  function Cut(file: seq<byte>, x: int, bs: nat): (b: seq<byte>) {
    if 0 <= x && x + bs <= |file| then file[x..x + bs] else []
  }

  /** The first `n` blocks of an image. */
  function BlocksOf(file: seq<byte>, bs: BlockSize, n: nat): (b: Blocks)
    ensures |b| == n
  {
    seq(n, i requires 0 <= i < n => BlockAt(file, bs, i))
  }

  function Flat(b: Blocks): seq<byte> {
    if |b| == 0 then [] else b[0] + Flat(b[1..])
  }

  /** Where a range of blocks lies in the bytes. */
  lemma Offsets(from: nat, len: nat, n: nat, bs: BlockSize)
    requires from + len <= n
    ensures Span(from, bs) + Span(len, bs) == Span(from + len, bs) <= Span(n, bs)
    ensures len > 0 ==> Span(from + 1, bs) == Span(from, bs) + bs && Span(len, bs) == bs + Span(len - 1, bs)
  {
  }

  lemma RangeHead(file: seq<byte>, bs: BlockSize, n: nat, from: nat, len: nat)
    requires from + len <= n && len > 0
    ensures var b := BlocksOf(file, bs, n)[from..from + len];
            b[0] == BlockAt(file, bs, from) && b[1..] == BlocksOf(file, bs, n)[from + 1..from + 1 + (len - 1)]
  {
    assert BlocksOf(file, bs, n)[from] == BlockAt(file, bs, from);
  }

  /** A range of blocks inside the file, joined, is the range of bytes. */
  lemma {:induction false} FlatRange(file: seq<byte>, bs: BlockSize, n: nat, from: nat, len: nat)
    requires from + len <= n && Span(from + len, bs) <= |file|
    ensures 0 <= Span(from, bs) <= Span(from, bs) + Span(len, bs) <= |file|
    ensures Flat(BlocksOf(file, bs, n)[from..from + len]) == file[Span(from, bs)..Span(from, bs) + Span(len, bs)]
    decreases len
  {
    Offsets(from, len, from + len, bs);
    if len > 0 {
      FlatRange(file, bs, n, from + 1, len - 1);
      assert Span(from + 1, bs) == Span(from, bs) + bs;
      FlatNext(file, bs, n, from, len, Span(from, bs), Span(len - 1, bs));
    }
  }

  lemma FlatNext(file: seq<byte>, bs: BlockSize, n: nat, from: nat, len: nat, x: nat, z: nat)
    requires from + len <= n && len > 0 && x == Span(from, bs) && x + bs + z <= |file|
    requires Flat(BlocksOf(file, bs, n)[from + 1..from + 1 + (len - 1)]) == file[x + bs..x + bs + z]
    ensures Flat(BlocksOf(file, bs, n)[from..from + len]) == file[x..x + bs + z]
  {
    RangeHead(file, bs, n, from, len);
    assert BlockAt(file, bs, from) == file[x..x + bs];
    FlatStep(file, bs, BlocksOf(file, bs, n)[from..from + len], x, z);
  }

  /** The blocks of a range that reaches past the end of the file, joined, are shorter than the range. */
  lemma {:induction false} FlatShort(file: seq<byte>, bs: BlockSize, n: nat, from: nat, len: nat)
    requires from + len <= n && 1 <= len && |file| < Span(from + len, bs)
    ensures |Flat(BlocksOf(file, bs, n)[from..from + len])| < Span(len, bs)
    decreases len
  {
    var b := BlocksOf(file, bs, n)[from..from + len];
    Offsets(from, len, from + len, bs);
    RangeHead(file, bs, n, from, len);
    if len > 1 {
      FlatShort(file, bs, n, from + 1, len - 1);
    }
  }

  lemma FlatStep(file: seq<byte>, bs: BlockSize, b: Blocks, x: int, z: int)
    requires |b| > 0 && 0 <= x && 0 <= z && x + bs + z <= |file|
    requires b[0] == file[x..x + bs] && Flat(b[1..]) == file[x + bs..x + bs + z]
    ensures Flat(b) == file[x..x + bs + z]
  {
    JoinSlices(file, x, x + bs, x + bs + z);
  }

  // ---- reads tile the range -----------------------------------------------

  /** The data replies of a read from a block array: consecutive chunks of at most `factor` blocks. */
  function Tiles(b: Blocks, id: nat, cur: nat, remaining: nat, factor: nat): (rs: seq<Reply>)
    requires factor > 0 && cur + remaining <= |b|
    decreases remaining
  {
    if remaining == 0 then []
    else
      var chunk := ChunkOf(remaining, factor);
      [Data(id, cur, chunk, Flat(b[cur..cur + chunk]))] + Tiles(b, id, cur + chunk, remaining - chunk, factor)
  }

  /** Inside the file the data replies of a read tile the range, whatever the buffer held. */
  lemma {:induction false} ReadsTile(file: seq<byte>, bs: BlockSize, n: nat, id: nat, cur: nat, remaining: nat, factor: nat, buf: seq<byte>)
    requires factor > 0 && |buf| == Span(factor, bs) && cur + remaining <= n && Span(cur + remaining, bs) <= |file|
    ensures ReadReplies(file, bs, id, cur, remaining, factor, buf) == Tiles(BlocksOf(file, bs, n), id, cur, remaining, factor)
    decreases remaining
  {
    if remaining > 0 {
      var chunk := ChunkOf(remaining, factor);
      FirstTile(file, bs, n, cur, remaining, chunk, buf);
      var buf' := Fill(file, buf, Span(chunk, bs), Span(cur, bs));
      ReadsTile(file, bs, n, id, cur + chunk, remaining - chunk, factor, buf');
    }
  }

  lemma FirstTile(file: seq<byte>, bs: BlockSize, n: nat, cur: nat, remaining: nat, chunk: nat, buf: seq<byte>)
    requires chunk <= remaining && cur + remaining <= n && Span(cur + remaining, bs) <= |file| && Span(chunk, bs) <= |buf|
    ensures Fill(file, buf, Span(chunk, bs), Span(cur, bs))[..Span(chunk, bs)] == Flat(BlocksOf(file, bs, n)[cur..cur + chunk])
  {
    Offsets(cur, chunk, cur + remaining, bs);
    FlatRange(file, bs, n, cur, chunk);
    FilledFrom(file, buf, Span(chunk, bs), Span(cur, bs));
  }

  /** The data replies of a read tile the requested range exactly if the range lies inside the file. */
  lemma ReadsTileIff(file: seq<byte>, bs: BlockSize, n: nat, id: nat, cur: nat, remaining: nat, factor: nat, buf: seq<byte>)
    requires factor > 0 && remaining > 0 && |buf| == Span(factor, bs) && cur + remaining <= n
    ensures ReadReplies(file, bs, id, cur, remaining, factor, buf) == Tiles(BlocksOf(file, bs, n), id, cur, remaining, factor)
       <==> (cur + remaining) * bs <= |file|
  {
    SpanIs(cur + remaining, bs);
    if Span(cur + remaining, bs) <= |file| {
      ReadsTile(file, bs, n, id, cur, remaining, factor, buf);
    } else {
      FlatShort(file, bs, n, cur, remaining);
      ReadBytes(file, bs, id, cur, remaining, factor, buf);
      TileBytes(BlocksOf(file, bs, n), id, cur, remaining, factor);
    }
  }

  lemma TileBytes(b: Blocks, id: nat, cur: nat, remaining: nat, factor: nat)
    requires factor > 0 && cur + remaining <= |b|
    ensures DataBytes(Tiles(b, id, cur, remaining, factor)) == |Flat(b[cur..cur + remaining])|
  {
    TilesJoin(b, id, cur, remaining, factor);
    DataIsContents(Tiles(b, id, cur, remaining, factor));
  }

  lemma {:induction false} DataIsContents(rs: seq<Reply>)
    ensures DataBytes(rs) == |Contents(rs)|
  {
    if |rs| > 0 {
      DataIsContents(rs[1..]);
    }
  }

  lemma FirstData(id: nat, cur: nat, chunk: nat, data: seq<byte>, rest: seq<Reply>)
    ensures DataBytes([Data(id, cur, chunk, data)] + rest) == |data| + DataBytes(rest)
  {
    assert ([Data(id, cur, chunk, data)] + rest)[1..] == rest;
  }

  lemma FilledFrom(file: seq<byte>, buf: seq<byte>, len: nat, off: nat)
    requires len <= |buf| && off + len <= |file|
    ensures Fill(file, buf, len, off)[..len] == file[off..off + len]
  {
  }

  // ---- writes replace blocks ----------------------------------------------

  /** Writing whole blocks in range replaces just those blocks. */
  lemma WriteReplaces(file: seq<byte>, bs: BlockSize, n: nat, start: nat, count: nat, data: seq<byte>)
    requires Span(n, bs) <= |file| && start + count <= n && |data| == Span(count, bs)
    ensures Span(start, bs) + |data| <= |file| && |Splice(file, Span(start, bs), data)| == |file|
    ensures BlocksOf(Splice(file, Span(start, bs), data), bs, n)
         == BlocksOf(file, bs, n)[..start] + BlocksOf(data, bs, count) + BlocksOf(file, bs, n)[start + count..]
  {
    Offsets(start, count, n, bs);
    forall i | 0 <= i < n
      ensures BlockAt(Splice(file, Span(start, bs), data), bs, i)
           == if start <= i < start + count then BlockAt(data, bs, i - start) else BlockAt(file, bs, i)
    {
      ReplacedBlock(file, bs, n, start, count, data, i);
    }
    BlocksSpliced(file, Splice(file, Span(start, bs), data), data, bs, n, start, count);
  }

  lemma BlocksSpliced(file: seq<byte>, file': seq<byte>, data: seq<byte>, bs: BlockSize, n: nat, start: nat, count: nat)
    requires start + count <= n
    requires forall i :: 0 <= i < n ==>
               BlockAt(file', bs, i) == if start <= i < start + count then BlockAt(data, bs, i - start) else BlockAt(file, bs, i)
    ensures BlocksOf(file', bs, n) == BlocksOf(file, bs, n)[..start] + BlocksOf(data, bs, count) + BlocksOf(file, bs, n)[start + count..]
  {
    Spliced(BlocksOf(file, bs, n), BlocksOf(data, bs, count), BlocksOf(file', bs, n), start);
  }

  lemma Spliced(b: Blocks, m: Blocks, r: Blocks, start: nat)
    requires |r| == |b| && start + |m| <= |b|
    requires forall i :: 0 <= i < |b| ==> r[i] == if start <= i < start + |m| then m[i - start] else b[i]
    ensures r == b[..start] + m + b[start + |m|..]
  {
  }

  lemma ReplacedBlock(file: seq<byte>, bs: BlockSize, n: nat, start: nat, count: nat, data: seq<byte>, i: nat)
    requires Span(n, bs) <= |file| && start + count <= n && |data| == Span(count, bs) && i < n
    requires Span(start, bs) + |data| <= |file|
    ensures BlockAt(Splice(file, Span(start, bs), data), bs, i)
         == if start <= i < start + count then BlockAt(data, bs, i - start) else BlockAt(file, bs, i)
  {
    var inside := start <= i < start + count;
    Where(start, count, i, n, bs);
    CutSpliced(file, Span(start, bs), data, Span(i, bs), bs, inside);
  }

  /** Where block `i` lies, seen from a range of blocks. */
  lemma Where(start: nat, count: nat, i: nat, n: nat, bs: BlockSize)
    requires i < n
    ensures Span(i, bs) + bs <= Span(n, bs)
    ensures start <= i < start + count ==>
              && Span(start, bs) <= Span(i, bs) && Span(i, bs) + bs <= Span(start, bs) + Span(count, bs)
              && Span(i, bs) - Span(start, bs) == Span(i - start, bs)
    ensures i < start ==> Span(i, bs) + bs <= Span(start, bs)
    ensures i >= start + count ==> Span(start, bs) + Span(count, bs) <= Span(i, bs)
  {
  }

  lemma CutSpliced(file: seq<byte>, off: nat, data: seq<byte>, x: nat, bs: nat, inside: bool)
    requires off + |data| <= |file| && x + bs <= |file|
    requires inside ==> off <= x && x + bs <= off + |data|
    requires !inside ==> x + bs <= off || off + |data| <= x
    ensures Cut(Splice(file, off, data), x, bs) == if inside then Cut(data, x - off, bs) else Cut(file, x, bs)
  {
    var r := Splice(file, off, data);
    assert |r| == |file|;
    assert forall k :: 0 <= k < |file| ==> r[k] == if off <= k < off + |data| then data[k - off] else file[k];
  }

  // ---- runs ---------------------------------------------------------------

  /** A request inside an image of `n` blocks. */
  predicate InImage(f: Frame, n: nat) {
    && (f.kind == VDISK_READ || f.kind == VDISK_WRITE) && |f.payload| >= 14
    && RangeOf(f.payload).start + RangeOf(f.payload).count <= n
    && (f.kind == VDISK_READ ==> RangeOf(f.payload).factor > 0)
  }

  /** A write that is carried out. */
  predicate Accepted(f: Frame, bs: BlockSize, readOnly: bool) {
    f.kind == VDISK_WRITE && !readOnly && |f.payload| >= 14 && |f.payload| - 14 >= Span(RangeOf(f.payload).count, bs)
  }

  /** The blocks a write carries. */
  function Carried(f: Frame, bs: BlockSize): Blocks
    requires |f.payload| >= 14
  {
    BlocksOf(f.payload[14..], bs, RangeOf(f.payload).count)
  }

  /** A request to an array of blocks. */
  function Access(b: Blocks, bs: BlockSize, readOnly: bool, f: Frame): (r: (Blocks, seq<Reply>))
    requires InImage(f, |b|)
    ensures |r.0| == |b|
  {
    var r := RangeOf(f.payload);
    if f.kind == VDISK_READ then (b, Tiles(b, r.id, r.start, r.count, r.factor) + [Status(r.id, STATUS_OK)])
    else if Accepted(f, bs, readOnly) then
      (b[..r.start] + Carried(f, bs) + b[r.start + r.count..], [Status(r.id, STATUS_OK)])
    else (b, [Status(r.id, if readOnly then STATUS_DENIED else STATUS_ERROR)])
  }

  function AccessAll(b: Blocks, bs: BlockSize, readOnly: bool, fs: seq<Frame>): (r: (Blocks, seq<seq<Reply>>))
    requires forall i :: 0 <= i < |fs| ==> InImage(fs[i], |b|)
    ensures |r.0| == |b|
  {
    if |fs| == 0 then (b, [])
    else
      var before := AccessAll(b, bs, readOnly, fs[..|fs| - 1]);
      var last := Access(before.0, bs, readOnly, fs[|fs| - 1]);
      (last.0, before.1 + [last.1])
  }

  /** An image of at least `n` blocks. */
  ghost predicate Holds(d: Disk, n: nat) {
    Span(n, d.bs) <= |d.file|
  }

  lemma CarriedBlocks(payload: seq<byte>, bs: BlockSize, count: nat)
    requires |payload| >= 14 && 0 <= Span(count, bs) <= |payload| - 14
    ensures BlocksOf(payload[14..14 + Span(count, bs)], bs, count) == BlocksOf(payload[14..], bs, count)
  {
    var data := payload[14..14 + Span(count, bs)];
    forall i | 0 <= i < count
      ensures BlockAt(data, bs, i) == BlockAt(payload[14..], bs, i)
    {
      Offsets(i, 1, count, bs);
      SameCut(payload[14..], data, Span(i, bs), bs);
    }
  }

  lemma SameCut(file: seq<byte>, part: seq<byte>, x: int, bs: nat)
    requires 0 <= x && x + bs <= |part| <= |file| && part == file[..|part|]
    ensures Cut(part, x, bs) == Cut(file, x, bs)
  {
  }

  /** One request inside the image does to the session what it does to the array, and is answered alike. */
  lemma ServeIsAccess(d: Disk, n: nat, f: Frame, patience: nat)
    requires Holds(d, n) && InImage(f, n)
    ensures var r := Serve(Mounted(d), f, patience);
            var a := Access(BlocksOf(d.file, d.bs, n), d.bs, d.readOnly, f);
            && r.1 == a.1 && r.0.Mounted? && r.0.disk.bs == d.bs && r.0.disk.readOnly == d.readOnly
            && Holds(r.0.disk, n) && BlocksOf(r.0.disk.file, d.bs, n) == a.0
  {
    if f.kind == VDISK_READ {
      ReadIsTiled(d, n, RangeOf(f.payload));
    } else if Accepted(f, d.bs, d.readOnly) {
      WriteIsReplaced(d.file, d.bs, n, RangeOf(f.payload), f.payload);
    }
  }

  lemma WriteIsReplaced(file: seq<byte>, bs: BlockSize, n: nat, r: Sectors, payload: seq<byte>)
    requires Span(n, bs) <= |file| && r.start + r.count <= n && |payload| >= 14 + Span(r.count, bs)
    ensures var file' := Splice(file, Span(r.start, bs), payload[14..14 + Span(r.count, bs)]);
            && |file'| == |file|
            && BlocksOf(file', bs, n)
            == BlocksOf(file, bs, n)[..r.start] + BlocksOf(payload[14..], bs, r.count) + BlocksOf(file, bs, n)[r.start + r.count..]
  {
    CarriedBlocks(payload, bs, r.count);
    WriteReplaces(file, bs, n, r.start, r.count, payload[14..14 + Span(r.count, bs)]);
  }

  lemma ReadIsTiled(d: Disk, n: nat, r: Sectors)
    requires Holds(d, n) && r.start + r.count <= n && r.factor > 0
    ensures Chunks(d, r) == Tiles(BlocksOf(d.file, d.bs, n), r.id, r.start, r.count, r.factor)
  {
    if r.count > 0 {
      ReadsTile(d.file, d.bs, n, r.id, r.start, r.count, r.factor, seq(Span(r.factor, d.bs), _ => 0));
    }
  }

  /** Over any run of requests inside the image, the session is the block array: the same blocks, the same
  replies. */
  lemma {:induction false} SessionIsBlockArray(d: Disk, n: nat, fs: seq<Frame>, patience: nat)
    requires Holds(d, n) && forall i :: 0 <= i < |fs| ==> InImage(fs[i], n) && IsSectorRequest(fs[i])
    ensures var r := Run(Mounted(d), fs, patience);
            var a := AccessAll(BlocksOf(d.file, d.bs, n), d.bs, d.readOnly, fs);
            && r.1 == a.1 && r.0.Mounted? && r.0.disk.bs == d.bs && r.0.disk.readOnly == d.readOnly
            && Holds(r.0.disk, n) && BlocksOf(r.0.disk.file, d.bs, n) == a.0
  {
    if |fs| > 0 {
      var init := fs[..|fs| - 1];
      SessionIsBlockArray(d, n, init, patience);
      assert !IsOver(true, init);
      ServeIsAccess(Run(Mounted(d), init, patience).0.disk, n, fs[|fs| - 1], patience);
    }
  }

  /** The newest contents of block `i`: from the last accepted write that covers it, or as it was at first. */
  function Newest(b: Blocks, bs: BlockSize, readOnly: bool, fs: seq<Frame>, i: nat): seq<byte>
    requires i < |b| && forall k :: 0 <= k < |fs| ==> InImage(fs[k], |b|)
  {
    if |fs| == 0 then b[i]
    else
      var f := fs[|fs| - 1];
      assert InImage(f, |b|);
      var r := RangeOf(f.payload);
      if Accepted(f, bs, readOnly) && r.start <= i < r.start + r.count then Carried(f, bs)[i - r.start]
      else Newest(b, bs, readOnly, fs[..|fs| - 1], i)
  }

  /** The array holds in every block what was last written there. */
  lemma {:induction false} LastWriteWins(b: Blocks, bs: BlockSize, readOnly: bool, fs: seq<Frame>, i: nat)
    requires i < |b| && forall k :: 0 <= k < |fs| ==> InImage(fs[k], |b|)
    ensures AccessAll(b, bs, readOnly, fs).0[i] == Newest(b, bs, readOnly, fs, i)
  {
    if |fs| > 0 {
      var init := fs[..|fs| - 1];
      LastWriteWins(b, bs, readOnly, init, i);
      AccessAt(AccessAll(b, bs, readOnly, init).0, bs, readOnly, fs[|fs| - 1], i);
    }
  }

  /** Block `i` after one request. */
  lemma AccessAt(b: Blocks, bs: BlockSize, readOnly: bool, f: Frame, i: nat)
    requires i < |b| && InImage(f, |b|)
    ensures var r := RangeOf(f.payload);
            Access(b, bs, readOnly, f).0[i] ==
            if Accepted(f, bs, readOnly) && r.start <= i < r.start + r.count then Carried(f, bs)[i - r.start] else b[i]
  {
  }

  /** The chunks of a read, joined, are the requested blocks in order, each of at most `factor` blocks. */
  function Contents(rs: seq<Reply>): seq<byte> {
    if |rs| == 0 then [] else DataOf(rs[0]) + Contents(rs[1..])
  }

  /** The sector data of a reply. */
  function DataOf(r: Reply): seq<byte> {
    if r.Data? then r.data else []
  }

  lemma {:induction false} FlatSplit(a: Blocks, b: Blocks)
    ensures Flat(a + b) == Flat(a) + Flat(b)
  {
    if |a| == 0 {
      assert a + b == b;
    } else {
      FlatSplit(a[1..], b);
      assert (a + b)[1..] == a[1..] + b && (a + b)[0] == a[0];
      Regroup(a[0], Flat(a[1..]), Flat(b));
    }
  }

  lemma FlatJoin(b: Blocks, x: nat, y: nat, z: nat)
    requires x <= y <= z <= |b|
    ensures Flat(b[x..z]) == Flat(b[x..y]) + Flat(b[y..z])
  {
    FlatSplit(b[x..y], b[y..z]);
    JoinSlices(b, x, y, z);
  }

  lemma FirstContents(r: Reply, rest: seq<Reply>)
    ensures Contents([r] + rest) == DataOf(r) + Contents(rest)
  {
    assert ([r] + rest)[1..] == rest;
  }

  lemma TilesJoin(b: Blocks, id: nat, cur: nat, remaining: nat, factor: nat)
    requires factor > 0 && cur + remaining <= |b|
    ensures Contents(Tiles(b, id, cur, remaining, factor)) == Flat(b[cur..cur + remaining])
  {
    TilesWhole(b, id, cur, remaining, factor);
  }

  ghost predicate Whole(b: Blocks, id: nat, cur: nat, remaining: nat, factor: nat)
    requires factor > 0 && cur + remaining <= |b|
  {
    Contents(Tiles(b, id, cur, remaining, factor)) == Flat(b[cur..cur + remaining])
  }

  lemma {:induction false} TilesWhole(b: Blocks, id: nat, cur: nat, remaining: nat, factor: nat)
    requires factor > 0 && cur + remaining <= |b|
    ensures Whole(b, id, cur, remaining, factor)
    decreases remaining
  {
    if remaining == 0 {
      assert b[cur..cur + remaining] == [];
    } else {
      var chunk := ChunkOf(remaining, factor);
      TilesWhole(b, id, cur + chunk, remaining - chunk, factor);
      WholeOn(b, id, cur, remaining, factor, chunk);
    }
  }

  lemma WholeOn(b: Blocks, id: nat, cur: nat, remaining: nat, factor: nat, chunk: nat)
    requires factor > 0 && cur + remaining <= |b| && remaining > 0 && chunk == ChunkOf(remaining, factor)
    requires Whole(b, id, cur + chunk, remaining - chunk, factor)
    ensures Whole(b, id, cur, remaining, factor)
  {
    var r := Data(id, cur, chunk, Flat(b[cur..cur + chunk]));
    JoinsOn(b, Tiles(b, id, cur, remaining, factor), r, Tiles(b, id, cur + chunk, remaining - chunk, factor), cur, cur + chunk, cur + remaining);
  }

  lemma JoinsOn(b: Blocks, rs: seq<Reply>, r: Reply, rest: seq<Reply>, x: nat, y: nat, z: nat)
    requires x <= y <= z <= |b| && rs == [r] + rest
    requires DataOf(r) == Flat(b[x..y]) && Contents(rest) == Flat(b[y..z])
    ensures Contents(rs) == Flat(b[x..z])
  {
    FlatJoin(b, x, y, z);
    FirstContents(r, rest);
  }

  // ---- access and counters, for any requests ------------------------------

  /** A read-only image never changes, whatever is requested. */
  lemma {:induction false} ReadOnlyKeeps(d: Disk, fs: seq<Frame>, patience: nat)
    requires d.readOnly && forall i :: 0 <= i < |fs| ==> IsSectorRequest(fs[i])
    ensures var v := Run(Mounted(d), fs, patience).0;
            v.Mounted? && v.disk.readOnly && v.disk.file == d.file && v.disk.dirty == d.dirty && v.disk.written == d.written
  {
    if |fs| > 0 {
      ReadOnlyKeeps(d, fs[..|fs| - 1], patience);
    }
  }

  /** Bytes of sector data in some replies. */
  function DataBytes(rs: seq<Reply>): nat {
    if |rs| == 0 then 0 else DataIn(rs[0]) + DataBytes(rs[1..])
  }

  function DataIn(r: Reply): nat {
    if r.Data? then |r.data| else 0
  }

  function DataSent(replies: seq<seq<Reply>>): nat {
    if |replies| == 0 then 0 else DataSent(replies[..|replies| - 1]) + DataBytes(replies[|replies| - 1])
  }

  /** Bytes that writes accepted before the end of the session carry. */
  function BytesAccepted(fs: seq<Frame>, bs: BlockSize, readOnly: bool): nat {
    if |fs| == 0 then 0
    else
      var f, before := fs[|fs| - 1], BytesAccepted(fs[..|fs| - 1], bs, readOnly);
      if !IsOver(true, fs[..|fs| - 1]) && Accepted(f, bs, readOnly) then before + Span(RangeOf(f.payload).count, bs) else before
  }

  lemma {:induction false} DataAppend(a: seq<Reply>, b: seq<Reply>)
    ensures DataBytes(a + b) == DataBytes(a) + DataBytes(b)
  {
    if |a| == 0 {
      assert a + b == b;
    } else {
      DataAppend(a[1..], b);
      assert (a + b)[1..] == a[1..] + b;
    }
  }

  lemma {:induction false} ReadBytes(file: seq<byte>, bs: BlockSize, id: nat, cur: nat, remaining: nat, factor: nat, buf: seq<byte>)
    requires factor > 0 && |buf| == Span(factor, bs)
    ensures DataBytes(ReadReplies(file, bs, id, cur, remaining, factor, buf)) == Span(remaining, bs)
    decreases remaining
  {
    if remaining > 0 {
      var chunk := ChunkOf(remaining, factor);
      ChunkFits(chunk, factor, bs);
      var buf' := Fill(file, buf, Span(chunk, bs), Span(cur, bs));
      ReadBytes(file, bs, id, cur + chunk, remaining - chunk, factor, buf');
      FirstData(id, cur, chunk, buf'[..Span(chunk, bs)], ReadReplies(file, bs, id, cur + chunk, remaining - chunk, factor, buf'));
    }
  }

  lemma OneReply(f: Reply)
    ensures DataBytes([f]) == DataIn(f)
  {
    assert [f][1..] == [];
  }

  /** One request adds to the counters what it sends and what it writes. */
  lemma ServeCounts(d: Disk, f: Frame, patience: nat)
    requires IsSectorRequest(f)
    ensures var r := Serve(Mounted(d), f, patience);
            && r.0.Mounted? && r.0.disk.bs == d.bs && r.0.disk.readOnly == d.readOnly
            && r.0.disk.read == d.read + DataBytes(r.1)
            && r.0.disk.written == d.written + (if Accepted(f, d.bs, d.readOnly) then Span(RangeOf(f.payload).count, d.bs) else 0)
  {
    if |f.payload| >= 14 {
      var r := RangeOf(f.payload);
      OneReply(Status(r.id, STATUS_OK));
      OneReply(Status(r.id, STATUS_ERROR));
      OneReply(Status(r.id, STATUS_DENIED));
      if f.kind == VDISK_READ {
        if Stalls(r) {
          EmptyChunks(r, patience);
        } else {
          ReadCounts(d, r);
        }
      }
    }
  }

  lemma {:induction false} EmptyChunks(r: Sectors, n: nat)
    ensures DataBytes(Copies(Data(r.id, r.start, 0, []), n)) == 0
  {
    if n > 0 {
      EmptyChunks(r, n - 1);
      assert Copies(Data(r.id, r.start, 0, []), n)[1..] == Copies(Data(r.id, r.start, 0, []), n - 1);
    }
  }

  lemma ReadCounts(d: Disk, r: Sectors)
    requires r.factor > 0 || r.count == 0
    ensures DataBytes(Chunks(d, r) + [Status(r.id, STATUS_OK)]) == Span(r.count, d.bs)
  {
    OneReply(Status(r.id, STATUS_OK));
    DataAppend(Chunks(d, r), [Status(r.id, STATUS_OK)]);
    if r.count > 0 {
      ReadBytes(d.file, d.bs, r.id, r.start, r.count, r.factor, seq(Span(r.factor, d.bs), _ => 0));
    }
  }

  /** Over any run, the counters are the bytes sent and the bytes accepted. */
  lemma {:induction false} CountersAgree(d: Disk, fs: seq<Frame>, patience: nat)
    requires forall i :: 0 <= i < |fs| ==> IsSectorRequest(fs[i])
    ensures var r := Run(Mounted(d), fs, patience);
            && r.0.Mounted? && r.0.disk.bs == d.bs && r.0.disk.readOnly == d.readOnly
            && r.0.disk.read == d.read + DataSent(r.1)
            && r.0.disk.written == d.written + BytesAccepted(fs, d.bs, d.readOnly)
  {
    if |fs| > 0 {
      var init := fs[..|fs| - 1];
      CountersAgree(d, init, patience);
      ServeCounts(Run(Mounted(d), init, patience).0.disk, fs[|fs| - 1], patience);
    }
  }

  // ---- past the end of the image ------------------------------------------

  /** The first block of chunk `j`. */
  function ChunkStart(cur: nat, factor: nat, j: nat): nat
    decreases j
  {
    if j == 0 then cur else ChunkStart(cur + factor, factor, j - 1)
  }

  lemma {:induction false} ChunkStartIs(cur: nat, factor: nat, j: nat)
    ensures ChunkStart(cur, factor, j) == cur + j * factor
    decreases j
  {
    if j > 0 {
      ChunkStartIs(cur + factor, factor, j - 1);
      assert j * factor == (j - 1) * factor + factor;
    }
  }

  /** Byte `k` of the data of reply `j`; -1 when there is none. */
  function ByteAt(fs: seq<Reply>, j: int, k: nat): int {
    if 0 <= j < |fs| && k < |DataOf(fs[j])| then DataOf(fs[j])[k] else -1
  }

  /** What that byte is when its place in the file is `at`: the byte of the file, and past the end of the file the same
  byte of the reply before, or of the buffer at first. */
  function Expected(file: seq<byte>, fs: seq<Reply>, buf: seq<byte>, j: nat, k: nat, at: int): int {
    if 0 <= at < |file| then file[at] else if j > 0 then ByteAt(fs, j - 1, k) else if k < |buf| then buf[k] else -1
  }

  /** What each chunk carries: byte `k` of chunk `j` is the byte of the file at its place, and past the end of the
  file it is byte `k` of the chunk before, or of the buffer at first. */
  lemma ChunkCarries(file: seq<byte>, bs: BlockSize, id: nat, cur: nat, remaining: nat, factor: nat,
                     buf: seq<byte>, j: nat, k: nat)
    requires factor > 0 && |buf| == Span(factor, bs)
    requires ByteAt(ReadReplies(file, bs, id, cur, remaining, factor, buf), j, k) >= 0
    ensures var fs := ReadReplies(file, bs, id, cur, remaining, factor, buf);
            ByteAt(fs, j, k) == Expected(file, fs, buf, j, k, (cur + j * factor) * bs + k)
  {
    ChunkStartIs(cur, factor, j);
    SpanIs(cur + j * factor, bs);
    CarriesAt(file, bs, id, cur, remaining, factor, buf, j, k, Span(ChunkStart(cur, factor, j), bs) + k);
  }

  lemma {:induction false} CarriesAt(file: seq<byte>, bs: BlockSize, id: nat, cur: nat, remaining: nat, factor: nat,
                                     buf: seq<byte>, j: nat, k: nat, at: nat)
    requires factor > 0 && |buf| == Span(factor, bs) && at == Span(ChunkStart(cur, factor, j), bs) + k
    requires ByteAt(ReadReplies(file, bs, id, cur, remaining, factor, buf), j, k) >= 0
    ensures var fs := ReadReplies(file, bs, id, cur, remaining, factor, buf);
            ByteAt(fs, j, k) == Expected(file, fs, buf, j, k, at)
    decreases remaining, 1
  {
    if j == 0 {
      FirstChunk(file, bs, id, cur, remaining, factor, buf, k);
    } else {
      FullChunk(file, bs, id, cur, remaining, factor, buf);
      CarriesLater(file, bs, id, cur, remaining, factor, buf, j, k, at);
    }
  }

  lemma {:induction false} CarriesLater(file: seq<byte>, bs: BlockSize, id: nat, cur: nat, remaining: nat, factor: nat,
                                        buf: seq<byte>, j: nat, k: nat, at: nat)
    requires 0 < factor < remaining && |buf| == Span(factor, bs) && j > 0 && at == Span(ChunkStart(cur, factor, j), bs) + k
    requires ByteAt([FullReply(file, bs, id, cur, factor, buf)] + LaterReplies(file, bs, id, cur, remaining, factor, buf), j, k) >= 0
    ensures var fs := [FullReply(file, bs, id, cur, factor, buf)] + LaterReplies(file, bs, id, cur, remaining, factor, buf);
            ByteAt(fs, j, k) == Expected(file, fs, buf, j, k, at)
    decreases remaining, 0
  {
    var buf' := Fill(file, buf, |buf|, Span(cur, bs));
    var first, rest := FullReply(file, bs, id, cur, factor, buf), LaterReplies(file, bs, id, cur, remaining, factor, buf);
    ShiftBytes(file, first, rest, buf, buf', j, k, at);
    CarriesAt(file, bs, id, cur + factor, remaining - factor, factor, buf', j - 1, k, at);
  }

  /** The first of several chunks, and the replies after it. */
  function FullReply(file: seq<byte>, bs: BlockSize, id: nat, cur: nat, factor: nat, buf: seq<byte>): Reply {
    Data(id, cur, factor, Fill(file, buf, |buf|, Span(cur, bs)))
  }

  function LaterReplies(file: seq<byte>, bs: BlockSize, id: nat, cur: nat, remaining: nat, factor: nat, buf: seq<byte>): seq<Reply>
    requires 0 < factor < remaining && |buf| == Span(factor, bs)
  {
    ReadReplies(file, bs, id, cur + factor, remaining - factor, factor, Fill(file, buf, |buf|, Span(cur, bs)))
  }

  lemma FirstChunk(file: seq<byte>, bs: BlockSize, id: nat, cur: nat, remaining: nat, factor: nat, buf: seq<byte>, k: nat)
    requires factor > 0 && |buf| == Span(factor, bs)
    requires ByteAt(ReadReplies(file, bs, id, cur, remaining, factor, buf), 0, k) >= 0
    ensures var fs := ReadReplies(file, bs, id, cur, remaining, factor, buf);
            ByteAt(fs, 0, k) == Expected(file, fs, buf, 0, k, Span(cur, bs) + k)
  {
    var len := Span(ChunkOf(remaining, factor), bs);
    assert ByteAt(ReadReplies(file, bs, id, cur, remaining, factor, buf), 0, k) == Fill(file, buf, len, Span(cur, bs))[k];
  }

  /** A read of more than one chunk: its first is a full one. */
  lemma FullChunk(file: seq<byte>, bs: BlockSize, id: nat, cur: nat, remaining: nat, factor: nat, buf: seq<byte>)
    requires factor > 0 && |buf| == Span(factor, bs) && |ReadReplies(file, bs, id, cur, remaining, factor, buf)| > 1
    ensures remaining > factor
    ensures ReadReplies(file, bs, id, cur, remaining, factor, buf)
         == [FullReply(file, bs, id, cur, factor, buf)] + LaterReplies(file, bs, id, cur, remaining, factor, buf)
  {
    var buf' := Fill(file, buf, |buf|, Span(cur, bs));
    assert buf'[..|buf|] == buf';
  }

  /** With one reply before, that has filled the buffer. */
  lemma ShiftBytes(file: seq<byte>, first: Reply, rest: seq<Reply>, buf: seq<byte>, buf': seq<byte>, j: nat, k: nat, at: int)
    requires j > 0 && DataOf(first) == buf'
    ensures ByteAt([first] + rest, j, k) == ByteAt(rest, j - 1, k)
    ensures Expected(file, [first] + rest, buf, j, k, at) == Expected(file, rest, buf', j - 1, k, at)
  {
  }

  /** A block wholly past the end of the file is answered with what the buffer held before: reading two sectors of a
  one-sector floppy image, one at a time, sends the first sector twice. */
  lemma StaleBlock(file: seq<byte>, id: nat)
    requires |file| == 512
    ensures ReadReplies(file, 512, id, 0, 2, 1, seq(512, _ => 0)) == [Data(id, 0, 1, file), Data(id, 1, 1, file)]
  {
    var buf: seq<byte> := seq(512, _ => 0);
    assert Fill(file, buf, 512, 0) == file;
    assert Fill(file, file, 512, 512) == file;
    assert file[..512] == file;
    assert ReadReplies(file, 512, id, 2, 0, 1, file) == [];
    assert ReadReplies(file, 512, id, 1, 1, 1, file) == [Data(id, 1, 1, file)];
  }
}
