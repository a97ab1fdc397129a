/** The migration thread, the producer's appends and the reloads keep the file a true copy of the stream. */
module DiskProofs {
  import opened Bytes
  import opened CacheModel
  import opened RingProofs

  // ---------------------------------------------------------------------------------------------------------------
  // What the migrator has still to look at

  /** Of the `left` slots from place `p` on that the migrator has still to look at, those with content are one run of
      cells, [FirstToCome, StopToCome). */
  function FirstToCome(c: Cache, p: nat): int
    requires |c.cells| <= c.nslots
  {
    var blank := c.nslots - |c.cells|;
    if p > blank then p - blank else 0
  }

  function StopToCome(c: Cache, p: nat, left: nat): int
    requires |c.cells| <= c.nslots
  {
    var blank := c.nslots - |c.cells|;
    if p + left >= c.nslots then |c.cells| else if p + left > blank then p + left - blank else 0
  }

  /** That run starts at stream offset `due` and reaches what was pushed since the recording started; past the newest
      cell the migrator has only EMPTY slots to look at. */
  predicate ToCome(c: Cache, p: nat, left: nat, due: nat) {
    && |c.cells| <= c.nslots && p < c.nslots && left <= c.nslots
    && (p + left > c.nslots ==> c.nslots - |c.cells| <= p && p + left <= 2 * c.nslots - |c.cells|)
    && var first, stop := FirstToCome(c, p), StopToCome(c, p, left);
       if first < stop then c.cells[first].offset == due && c.lDk <= c.cells[stop - 1].End()
       else c.lDk <= due <= c.hRb
  }

  /** The read position in the file is where the ring ends. */
  predicate Linked(c: Cache) {
    c.FileStart() + c.rPos == c.hRb
  }

  /** Where reads stand during the migration: nothing was read yet from a ring that held something at the start, or the
      ring was empty at the start and reads are linked. */
  predicate ReadsStand(c: Cache, i: nat) {
    if c.mDk < c.lDk then c.rPos == 0 && c.hRb == c.lDk && (i < c.nslots ==> c.mNext == i && c.cells != [])
    else Linked(c)
  }

  /** A file that begins at stream offset `base` holds the first `pos` bytes of it, and the stream from `from` on. */
  ghost predicate CopyFile(file: seq<Byte>, base: nat, from: nat, pos: nat, stream: seq<Byte>) {
    && base <= from <= |stream| && base + pos <= |stream|
    && FileHas(file, 0, stream[base..base + pos]) && FileHas(file, from - base, stream[from..])
  }

  /** What the file holds while the ring is being copied: the copied prefix, and what was pushed since the start. */
  ghost predicate CopyGood(c: Cache, stream: seq<Byte>, i: nat) {
    && |stream| == c.hOffset && i <= c.nslots
    && c.mDk <= c.lDk <= c.hRb <= c.hOffset && c.mDk + c.mPos <= c.hRb
    && c.wPos == c.hOffset - c.mDk
    && CopyFile(c.file, c.mDk, c.lDk, c.mPos, stream)
    && ToCome(c, c.mNext, c.nslots - i, c.mDk + c.mPos)
    && ReadsStand(c, i)
  }

  /** The file is the stream from its first byte on, and ends with it. */
  ghost predicate WholeFile(c: Cache, stream: seq<Byte>) {
    && |stream| == c.hOffset && c.FileStart() <= c.hOffset
    && c.wPos == c.hOffset - c.FileStart()
    && FileHas(c.file, 0, stream[c.FileStart()..])
  }

  /** What the file holds once the ring is copied: the stream from the lowest disk offset on. */
  ghost predicate FileGood(c: Cache, stream: seq<Byte>) {
    c.lDk == c.mDk && c.rPos <= c.wPos && WholeFile(c, stream)
  }

  ghost predicate DiskGood(c: Cache, stream: seq<Byte>) {
    && (c.recording ==> c.hDk == INVALID_OFFSET || c.hDk == c.hOffset)
    && match c.migration {
         case NotStarted => c.mPos == 0 && c.rPos == 0 && c.hDk == INVALID_OFFSET
         case Copying(i) => CopyGood(c, stream, i)
         case Finished => FileGood(c, stream)
       }
  }

  // ---------------------------------------------------------------------------------------------------------------
  // Which reloads are safe

  /** A reload of up to `rounds` slots, from the tail on, spares what the migrator has still to look at: it does not get
      as far as the slot the migrator looks at next. There are three ways to do no harm beyond that: the migrator is
      done; it stands at the tail, having copied all that was ever read; or its last slot is emptied, not read into, in
      a recording that was started on an empty ring. */
  predicate Spares(c: Cache, rounds: nat, drain: bool) {
    c.migration.Copying? ==>
      || c.migration.i >= c.nslots
      || (if c.migration.i + 1 == c.nslots && c.mDk == c.lDk then Reads(c, rounds, drain)
          else Touched(c, rounds, drain)) <= c.mNext
      || (c.mNext == 0 && c.mDk + c.mPos == c.hRb)
  }

  /** A reload that reads takes what the ring needs next, and the migrator is spared. */
  predicate ReloadSafe(c: Cache, rounds: nat, drain: bool) {
    (Reads(c, rounds, drain) == 0 || Linked(c)) && Spares(c, rounds, drain)
  }

  // ---------------------------------------------------------------------------------------------------------------
  // Files

  /** Appending at the end of what the file holds of the stream, while the stream grows by the same data. */
  lemma AppendToFile(file: seq<Byte>, pos: nat, from: nat, stream: seq<Byte>, data: seq<Byte>)
    requires from <= |stream| && FileHas(file, pos, stream[from..])
    ensures FileHas(WriteAt(file, pos + |stream| - from, data), pos, (stream + data)[from..])
  {
  }

  /** Extending a stretch [from, to) of the stream held at 0 by the piece [to, to + k). */
  lemma ExtendFile(file: seq<Byte>, from: nat, to: nat, k: nat, stream: seq<Byte>)
    requires from <= to <= to + k <= |stream| && FileHas(file, 0, stream[from..to])
    ensures FileHas(WriteAt(file, to - from, stream[to..to + k]), 0, stream[from..to + k])
  {
  }

  /** Writing a piece of the stream at its place does not disturb what the file holds of the stream's end. */
  lemma WriteInPlace(file: seq<Byte>, base: nat, from: nat, stream: seq<Byte>, at: nat, k: nat)
    requires base <= from <= |stream| && FileHas(file, from - base, stream[from..])
    requires base <= at <= at + k <= |stream|
    ensures FileHas(WriteAt(file, at - base, stream[at..at + k]), from - base, stream[from..])
  {
    var r, rest := WriteAt(file, at - base, stream[at..at + k]), stream[from..];
    if rest != [] && k > 0 {
      forall j | 0 <= j < |rest|
        ensures r[from - base + j] == rest[j]
      {
        assert file[from - base..from - base + |rest|][j] == rest[j];
      }
    }
  }

  /** The piece of the stream due at `pos` extends the copied prefix, and leaves the stream's end in the file true. */
  lemma CopyFileNext(file: seq<Byte>, base: nat, from: nat, pos: nat, stream: seq<Byte>, bytes: seq<Byte>)
    requires CopyFile(file, base, from, pos, stream)
    requires base + pos + |bytes| <= |stream| && bytes == stream[base + pos..base + pos + |bytes|]
    ensures CopyFile(WriteAt(file, pos, bytes), base, from, pos + |bytes|, stream)
  {
    hide WriteAt, FileHas;
    ExtendFile(file, base, base + pos, |bytes|, stream);
    WriteInPlace(file, base, from, stream, base + pos, |bytes|);
  }

  lemma CopyFileDone(file: seq<Byte>, base: nat, from: nat, pos: nat, stream: seq<Byte>)
    requires CopyFile(file, base, from, pos, stream) && from <= base + pos
    ensures FileHas(file, 0, stream[base..])
  {
    hide FileHas;
    var low, all := stream[base..from], stream[base..base + pos];
    assert low == all[..|low|];
    FileHasPrefix(file, all, |low|);
    assert stream[base..] == low + stream[from..];
    FileHasJoin(file, 0, low, stream[from..]);
  }

  lemma CopyFileAppend(file: seq<Byte>, base: nat, from: nat, pos: nat, stream: seq<Byte>, data: seq<Byte>)
    requires CopyFile(file, base, from, pos, stream)
    ensures CopyFile(WriteAt(file, |stream| - base, data), base, from, pos, stream + data)
  {
    hide WriteAt, FileHas;
    var low := stream[base..base + pos];
    assert (stream + data)[base..base + pos] == low;
    WriteAtKeeps(file, |stream| - base, data, 0, low);
    AppendToFile(file, from - base, from, stream, data);
  }

  // ---------------------------------------------------------------------------------------------------------------
  // Migration

  /** Recording starts with `mDk` at the oldest ring byte and the file laid out for the migration. */
  lemma StartRecordingDisk(c: Cache, stream: seq<Byte>)
    requires Good(c, stream) && DiskGood(c, stream) && c.part == [] && !c.drained
    ensures DiskGood(StartRecording(c), stream)
    ensures !c.recording ==> StartRecording(c).mDk == c.lRb && StartRecording(c).lDk == c.hRb
  {
    if !c.recording {
      var r := StartRecording(c);
      assert ToCome(r, 0, c.nslots, c.lRb) by {
        hide InOrder, Slices;
      }
      hide Contiguous, InOrder, Slices;
      NextOffsetInRing(c);
      assert stream[c.lRb..c.lRb] == [] && stream[c.hRb..] == [];
    }
  }

  lemma DiskWriteDisk(c: Cache, stream: seq<Byte>, data: seq<Byte>)
    requires DiskGood(c, stream) && c.recording && |stream| == c.hOffset && !c.migration.NotStarted?
    ensures DiskGood(DiskWrite(c, data), stream + data)
  {
    hide WriteAt, FileHas, CopyFile, ToCome;
    var r := DiskWrite(c, data);
    match c.migration {
      case Copying(i) =>
        CopyFileAppend(c.file, c.mDk, c.lDk, c.mPos, stream, data);
        SameToCome(c, r, c.mNext, c.nslots - i, c.mDk + c.mPos);
      case Finished =>
        AppendToFile(c.file, 0, c.lDk, stream, data);
    }
  }

  /** What is to come depends on the offsets of the cells only. */
  lemma SameToCome(c: Cache, c': Cache, p: nat, left: nat, due: nat)
    requires ToCome(c, p, left, due) && c'.nslots == c.nslots && c'.lDk == c.lDk && c'.hRb == c.hRb
    requires |c'.cells| == |c.cells|
    requires forall i :: 0 <= i < |c.cells| ==>
      c'.cells[i].offset == c.cells[i].offset && |c'.cells[i].bytes| == |c.cells[i].bytes|
    ensures ToCome(c', p, left, due)
  {
  }

  lemma ToComeElsewhere(c: Cache, c': Cache, p: nat, left: nat, due: nat)
    requires ToCome(c, p, left, due)
    requires c'.nslots == c.nslots && c'.lDk == c.lDk && c'.hRb == c.hRb && c'.cells == c.cells
    ensures ToCome(c', p, left, due)
  {
  }

  /** The slot the migrator looks at next is EMPTY or holds the very next piece of the stream, and then the slot after
      it is the one to look at. */
  lemma NextToCome(c: Cache, stream: seq<Byte>, p: nat, left: nat, due: nat)
    requires Good(c, stream) && c.part == [] && !c.drained && ToCome(c, p, left, due) && left > 0 && c.lDk <= c.hRb
    ensures var bytes := SlotBytes(c, p);
      && due + |bytes| <= c.hRb && bytes == stream[due..due + |bytes|]
      && ToCome(c, After(c.nslots, p), left - 1, due + |bytes|)
  {
    hide Good, ToCome, SlotBytes;
    GoodParts(c, stream);
    ToComeBounds(c, p, left, due);
    if p >= c.nslots - |c.cells| {
      NextCell(c, stream, p, left, due);
    } else {
      NextEmpty(c, p, left, due);
      hide Contiguous, InOrder, Slices;
    }
  }

  lemma ToComeBounds(c: Cache, p: nat, left: nat, due: nat)
    requires ToCome(c, p, left, due)
    ensures |c.cells| <= c.nslots && p < c.nslots
  {
  }

  lemma NextEmpty(c: Cache, p: nat, left: nat, due: nat)
    requires Shape(c) && c.part == [] && !c.drained && ToCome(c, p, left, due) && left > 0
    requires |c.cells| <= c.nslots && p < c.nslots - |c.cells|
    ensures SlotBytes(c, p) == [] && due <= c.hRb && ToCome(c, After(c.nslots, p), left - 1, due)
  {
    hide InOrder;
    assert FirstToCome(c, p) < StopToCome(c, p, left) ==> c.cells[0].offset == due;
  }

  lemma NextCell(c: Cache, stream: seq<Byte>, p: nat, left: nat, due: nat)
    requires Good(c, stream) && !c.drained && ToCome(c, p, left, due) && left > 0
    requires |c.cells| <= c.nslots && p >= c.nslots - |c.cells|
    ensures var bytes := SlotBytes(c, p);
      && due + |bytes| <= c.hRb && bytes == stream[due..due + |bytes|]
      && ToCome(c, After(c.nslots, p), left - 1, due + |bytes|)
  {
    hide InOrder;
    var k := p - (c.nslots - |c.cells|);
    assert IsSlice(c.cells[k], stream);
    hide Slices;
    assert k + 1 < |c.cells| ==> c.cells[k].End() == c.cells[k + 1].offset;
  }

  lemma CopyBounds(c: Cache, stream: seq<Byte>)
    requires DiskGood(c, stream) && c.migration.Copying?
    ensures |c.cells| <= c.nslots && c.mNext < c.nslots && c.migration.i <= c.nslots
  {
    hide FileHas;
  }

  lemma GoodParts(c: Cache, stream: seq<Byte>)
    requires Good(c, stream)
    ensures Shape(c) && Faithful(c, stream)
  {
  }

  lemma MigrateGood(c: Cache, stream: seq<Byte>)
    requires Good(c, stream) && c.migration.Copying? && |c.cells| <= c.nslots
    ensures Good(Migrate(c), stream)
    ensures Migrate(c).NextOffset() == c.NextOffset()
  {
    MigrateShape(c);
    GoodParts(c, stream);
    hide Good, Shape, Slices, WriteAt, SlotBytes;
    assert Faithful(Migrate(c), stream);
    hide Migrate, Faithful;
    PartsGood(Migrate(c), stream);
  }

  /** Copying a slot extends the migrated prefix and leaves the producer's part true. If the ring held something at the
      start it is written wholly below that part; if not, wholly inside it, over the same bytes. */
  lemma CopyDisk(c: Cache, stream: seq<Byte>)
    requires Good(c, stream) && DiskGood(c, stream) && c.migration.Copying? && c.migration.i < c.nslots
    requires c.part == [] && !c.drained
    ensures DiskGood(Migrate(c), stream)
    ensures c.mDk < c.lDk ==> Migrate(c).mPos <= c.lDk - c.mDk
  {
    CopyBounds(c, stream);
    hide Good, DiskGood, Migrate, WriteAt, CopyFile, SlotBytes, ToCome, ReadsStand, After, CopyGood;
    CopyingGood(c, stream);
    CopyNext(c, stream);
    CopyStands(c, stream);
    MigrateCopies(c);
    CopyGoodNext(c, Migrate(c), stream);
    CopyingGood(Migrate(c), stream);
  }

  lemma CopyGoodNext(c: Cache, r: Cache, stream: seq<Byte>)
    requires c.migration.Copying? && c.migration.i < c.nslots && CopyGood(c, stream, c.migration.i)
    requires r == c.(file := r.file, mPos := r.mPos, mNext := r.mNext, migration := Copying(c.migration.i + 1))
    requires CopyFile(r.file, c.mDk, c.lDk, r.mPos, stream) && c.mDk + r.mPos <= c.hRb
    requires ToCome(r, r.mNext, c.nslots - (c.migration.i + 1), c.mDk + r.mPos) && ReadsStand(r, c.migration.i + 1)
    ensures CopyGood(r, stream, c.migration.i + 1)
    ensures c.mDk < c.lDk ==> r.mPos <= c.lDk - c.mDk
  {
    hide CopyFile, ToCome;
  }

  lemma CopyNext(c: Cache, stream: seq<Byte>)
    requires Good(c, stream) && c.migration.Copying? && c.migration.i < c.nslots && c.part == [] && !c.drained
    requires |c.cells| <= c.nslots && CopyGood(c, stream, c.migration.i)
    ensures var r := Migrate(c);
      && CopyFile(r.file, c.mDk, c.lDk, r.mPos, stream)
      && ToCome(r, r.mNext, c.nslots - (c.migration.i + 1), c.mDk + r.mPos)
      && c.mDk + r.mPos <= c.hRb
  {
    hide Good, Migrate, CopyFile, SlotBytes, ToCome, ReadsStand, After;
    MigrateCopies(c);
    var i, due, bytes := c.migration.i, c.mDk + c.mPos, SlotBytes(c, c.mNext);
    NextToCome(c, stream, c.mNext, c.nslots - i, due);
    CopyFileNext(c.file, c.mDk, c.lDk, c.mPos, stream, bytes);
    ToComeElsewhere(c, Migrate(c), After(c.nslots, c.mNext), c.nslots - i - 1, due + |bytes|);
  }

  lemma CopyingGood(c: Cache, stream: seq<Byte>)
    requires c.migration.Copying?
    ensures DiskGood(c, stream) <==>
      (c.recording ==> c.hDk == INVALID_OFFSET || c.hDk == c.hOffset) && CopyGood(c, stream, c.migration.i)
  {
    hide CopyGood;
  }

  lemma MigrateCopies(c: Cache)
    requires c.migration.Copying? && c.migration.i < c.nslots && |c.cells| <= c.nslots
    ensures var bytes := SlotBytes(c, c.mNext);
      Migrate(c) == c.(file := WriteAt(c.file, c.mPos, bytes), mPos := c.mPos + |bytes|,
                      mNext := After(c.nslots, c.mNext),
                      migration := Copying(c.migration.i + 1))
  {
  }

  lemma CopyStands(c: Cache, stream: seq<Byte>)
    requires c.migration.Copying? && c.migration.i < c.nslots && |c.cells| <= c.nslots
    requires CopyGood(c, stream, c.migration.i)
    ensures ReadsStand(Migrate(c), c.migration.i + 1)
  {
    hide WriteAt, SlotBytes, CopyFile, ToCome;
  }

  lemma FinishDisk(c: Cache, stream: seq<Byte>)
    requires Good(c, stream) && DiskGood(c, stream) && c.migration.Copying? && c.migration.i == c.nslots
    ensures DiskGood(Migrate(c), stream) && Migrate(c).lDk == c.mDk
    ensures Linked(Migrate(c)) <==> c.mDk == c.lDk
  {
    hide Good, CopyFile, FileHas;
    assert c.lDk <= c.mDk + c.mPos;
    CopyFileDone(c.file, c.mDk, c.lDk, c.mPos, stream);
  }

  /** Steps that only relabel cells do not disturb the migration. */
  lemma RelabelDisk(c: Cache, c': Cache, stream: seq<Byte>)
    requires DiskGood(c, stream)
    requires |c'.cells| == |c.cells|
    requires forall i :: 0 <= i < |c.cells| ==>
      c'.cells[i].offset == c.cells[i].offset && c'.cells[i].bytes == c.cells[i].bytes
    requires c' == c.(cells := c'.cells, head := c'.head, fslots := c'.fslots, needDiscont := c'.needDiscont,
                      refs := c'.refs)
    ensures DiskGood(c', stream)
  {
    hide CopyFile, FileHas, ToCome;
    if c.migration.Copying? {
      SameToCome(c, c', c.mNext, c.nslots - c.migration.i, c.mDk + c.mPos);
    }
  }

  // ---------------------------------------------------------------------------------------------------------------
  // Reload

  /** With the link in place a read takes the next piece of the stream. */
  lemma ReadsNextPiece(c: Cache, stream: seq<Byte>)
    requires WholeFile(c, stream) && Linked(c) && c.hRb <= c.hOffset < INVALID_OFFSET
    requires c.rPos + ReadSize(c) <= |c.file| && ReadSize(c) > 0
    ensures c.hRb + ReadSize(c) <= c.hOffset
    ensures c.file[c.rPos..c.rPos + ReadSize(c)] == stream[c.hRb..c.hRb + ReadSize(c)]
  {
    hide FileHas;
    FileHasSlice(c.file, c.FileStart(), stream, c.hRb, ReadSize(c));
  }

  /** Linked reads always find the whole file true. */
  lemma LinkedWhole(c: Cache, stream: seq<Byte>)
    requires DiskGood(c, stream) && !c.migration.NotStarted? && Linked(c)
    ensures WholeFile(c, stream)
  {
    hide FileHas, ToCome;
  }

  lemma DiskReadGood(c: Cache, stream: seq<Byte>, drain: bool)
    requires Good(c, stream) && WholeFile(c, stream) && !c.migration.NotStarted? && Linked(c) && CanRead(c, drain)
    ensures Good(DiskRead(c), stream)
    ensures DiskRead(c).NextOffset() == c.NextOffset() && Linked(DiskRead(c))
  {
    GoodParts(c, stream);
    ReceivedBounds(c, stream);
    hide Good, Shape, Faithful, ReadSize, WholeFile, DiskRead;
    CanReadFits(c, drain);
    ReadsNextPiece(c, stream);
    DiskReadShape(c);
    ReadFaithful(c, stream);
    PartsGood(DiskRead(c), stream);
  }

  lemma ReceivedBounds(c: Cache, stream: seq<Byte>)
    requires Good(c, stream)
    ensures c.hRb <= c.hOffset == |stream| && c.hOffset < INVALID_OFFSET
    ensures c.recording <==> !c.migration.NotStarted?
  {
  }

  lemma PartsGood(c: Cache, stream: seq<Byte>)
    requires Shape(c) && Faithful(c, stream)
    ensures Good(c, stream)
  {
  }

  lemma ReadFaithful(c: Cache, stream: seq<Byte>)
    requires Faithful(c, stream) && c.rPos + ReadSize(c) <= |c.file| && c.hRb + ReadSize(c) <= |stream|
    requires c.file[c.rPos..c.rPos + ReadSize(c)] == stream[c.hRb..c.hRb + ReadSize(c)]
    ensures Faithful(DiskRead(c), stream)
    ensures Linked(c) ==> Linked(DiskRead(c))
  {
    hide Slices, ReadSize;
    AppendSlice(c.cells, Cell(Full, c.hRb, c.file[c.rPos..c.rPos + ReadSize(c)]), stream);
  }

  /** The tail is one of the slots still to come. */
  predicate TailToCome(c: Cache, p: nat, left: nat) {
    left > 0 && (p == 0 || p + left > c.nslots)
  }

  /** Emptying a tail slot that is not to come. */
  lemma RecycleToCome(c: Cache, p: nat, left: nat, due: nat)
    requires ToCome(c, p, left, due) && RecycleTail(c) != c && Contiguous(c.cells, c.lRb, c.hRb)
    requires !TailToCome(c, p, left) || (left == 1 && p == 0 && c.lDk <= due)
    ensures ToCome(RecycleTail(c), p, left, due)
  {
    assert due <= c.hRb;
  }

  /** Reading into a tail slot that is not to come, or that is EMPTY when the migrator gets to it with all it needs. */
  lemma ReadToCome(c: Cache, drain: bool, p: nat, left: nat, due: nat)
    requires ToCome(c, p, left, due) && CanRead(c, drain) && Contiguous(c.cells, c.lRb, c.hRb) && c.lDk <= c.hRb
    requires left == 0 || p > 0 || due == c.hRb
    ensures ToCome(DiskRead(c), Before(c.nslots, p), left, due)
  {
    hide ReadSize;
    CanReadFits(c, drain);
    assert p == 0 && left > 0 ==> StopToCome(c, p, left) == 0;
  }

  /** Emptying the tail slot, when the reload is safe. */
  lemma RecycleDisk(c: Cache, stream: seq<Byte>, rounds: nat, drain: bool)
    requires Good(c, stream) && DiskGood(c, stream) && !c.migration.NotStarted? && rounds > 0
    requires ReloadSafe(c, rounds, drain)
    ensures DiskGood(RecycleTail(c), stream)
    ensures Linked(RecycleTail(c)) <==> Linked(c)
  {
    GoodParts(c, stream);
    if c.migration.Copying? && RecycleTail(c) != c {
      TouchedOnce(c, rounds, drain);
      RecycleSpared(c, stream, rounds, drain);
      hide Good, Shape, Faithful, RecycleTail, Spares, Reads, Touched;
      CopyingGood(c, stream);
      CopyingGood(RecycleTail(c), stream);
    } else {
      hide Good, Shape, Faithful, Spares, FileHas;
    }
  }

  lemma TouchedOnce(c: Cache, rounds: nat, drain: bool)
    requires rounds > 0
    ensures RecycleTail(c) != c ==> Touched(c, rounds, drain) >= 1
    ensures CanRead(RecycleTail(c), drain) ==> Reads(c, rounds, drain) >= 1 && Touched(c, rounds, drain) >= 1
  {
    hide CanRead, RecycleTail;
  }

  lemma RecycleSpared(c: Cache, stream: seq<Byte>, rounds: nat, drain: bool)
    requires Shape(c) && c.migration.Copying? && DiskGood(c, stream) && RecycleTail(c) != c
    requires Spares(c, rounds, drain) && Touched(c, rounds, drain) >= 1
    ensures var r := RecycleTail(c);
      && CopyGood(r, stream, c.migration.i)
      && r == c.(cells := r.cells, lRb := r.lRb, head := r.head)
  {
    hide InOrder, CopyFile, Touched, Reads, ToCome;
    var i, left, due := c.migration.i, c.nslots - c.migration.i, c.mDk + c.mPos;
    FullToCome(c, c.mNext, left, due);
    RecycleToCome(c, c.mNext, left, due);
  }

  /** On a full ring nothing EMPTY is to come, and the migrator does not stand where the ring ends. */
  lemma FullToCome(c: Cache, p: nat, left: nat, due: nat)
    requires ToCome(c, p, left, due) && 0 < |c.cells| == c.nslots && Contiguous(c.cells, c.lRb, c.hRb)
    ensures p + left <= c.nslots && (left > 0 ==> due < c.hRb)
  {
    assert c.cells[FirstToCome(c, p)].offset < c.hRb;
  }

  /** Reading into the tail slot, when the reload is safe. */
  lemma ReadDisk(c: Cache, stream: seq<Byte>, rounds: nat, drain: bool)
    requires Good(c, stream) && DiskGood(c, stream) && !c.migration.NotStarted? && rounds > 0
    requires ReloadSafe(c, rounds, drain) && RecycleTail(c) == c && CanRead(c, drain)
    ensures DiskGood(DiskRead(c), stream)
  {
    TouchedOnce(c, rounds, drain);
    GoodParts(c, stream);
    LinkedWhole(c, stream);
    ReadsNextPiece(c, stream);
    if c.migration.Copying? {
      ReadSpared(c, stream, rounds, drain);
      hide Good, Shape, Faithful, DiskRead, Spares, Reads, Touched, CanRead;
      CopyingGood(c, stream);
      CopyingGood(DiskRead(c), stream);
    } else {
      hide Good, Shape, Faithful, Spares, FileHas, CanRead, Reads, Touched;
    }
  }

  lemma ReadSpared(c: Cache, stream: seq<Byte>, rounds: nat, drain: bool)
    requires Shape(c) && c.migration.Copying? && DiskGood(c, stream) && CanRead(c, drain) && Linked(c)
    requires Spares(c, rounds, drain) && Reads(c, rounds, drain) >= 1
    requires c.hRb + ReadSize(c) <= c.hOffset
    ensures var r := DiskRead(c);
      && CopyGood(r, stream, c.migration.i)
      && r.migration == c.migration && r.recording == c.recording && r.hDk == c.hDk && r.hOffset == c.hOffset
  {
    hide InOrder, CopyFile, Touched, Reads, ToCome, ReadSize;
    var left, due := c.nslots - c.migration.i, c.mDk + c.mPos;
    CanReadFits(c, drain);
    ReadToCome(c, drain, c.mNext, left, due);
  }

  /** A safe reload of any number of rounds keeps ring, file, link and the place of the consumer. */
  lemma {:induction false} ReloadGood(c: Cache, rounds: nat, drain: bool, stream: seq<Byte>)
    requires Good(c, stream) && DiskGood(c, stream) && !c.migration.NotStarted?
    requires ReloadSafe(c, rounds, drain) && rounds <= c.nslots
    ensures var r := ReloadRounds(c, rounds, drain);
      && Good(r, stream) && DiskGood(r, stream) && (Linked(c) ==> Linked(r))
      && r.migration == c.migration && r.NextOffset() == c.NextOffset()
      && r.hOffset == c.hOffset && r.lDk == c.lDk && r.mDk == c.mDk
    decreases rounds
  {
    hide Good, DiskGood, CanRead, ReadSize, ReloadSafe;
    if rounds > 0 {
      var c1 := RecycleTail(c);
      RecycleTailGood(c, stream);
      RecycleDisk(c, stream, rounds, drain);
      if CanRead(c1, drain) {
        CanReadFits(c1, drain);
        RecycledSafe(c, rounds, drain);
        SafeReads(c1, stream, rounds, drain);
        DiskReadGood(c1, stream, drain);
        ReadDisk(c1, stream, rounds, drain);
        ReadSafe(c1, rounds, drain);
        ReloadGood(DiskRead(c1), rounds - 1, drain, stream);
      }
    }
  }

  /** A reload never has more rounds than there are slots. */
  lemma CountFits(c: Cache, drain: bool)
    requires 1 <= c.nslots && 0 <= c.fslots <= c.nslots
    ensures ReloadCount(c, drain) <= c.nslots
  {
    var free := Wrap64(c.nslots - c.fslots);
    if free <= c.nslots {
      BitStorageSmall(free, c.nslots);
    }
  }

  /** A whole reload of a good cache. */
  lemma WholeReloadGood(c: Cache, drain: bool, stream: seq<Byte>)
    requires Good(c, stream) && DiskGood(c, stream) && !c.migration.NotStarted?
    requires ReloadSafe(c, ReloadCount(c, drain), drain)
    ensures var r := Reload(c, drain);
      && Good(r, stream) && DiskGood(r, stream) && (Linked(c) ==> Linked(r))
      && r.migration == c.migration && r.NextOffset() == c.NextOffset()
      && r.hOffset == c.hOffset && r.lDk == c.lDk && r.mDk == c.mDk
  {
    GoodParts(c, stream);
    assert 1 <= c.nslots && 0 <= c.fslots <= c.nslots by {
      hide Contiguous, InOrder, Faithful;
    }
    hide Good, Shape, Faithful, DiskGood, ReloadSafe, ReloadCount, ReloadRounds;
    CountFits(c, drain);
    ReloadGood(c, ReloadCount(c, drain), drain, stream);
  }

  /** Once the migration is finished a linked cache can always be reloaded. */
  lemma LinkedSafe(c: Cache, drain: bool)
    requires c.migration.Finished? && Linked(c)
    ensures ReloadSafe(c, ReloadCount(c, drain), drain)
  {
  }

  /** Emptying the tail slot before a read is part of that read. */
  lemma RecycledSafe(c: Cache, rounds: nat, drain: bool)
    requires ReloadSafe(c, rounds, drain) && rounds > 0 && CanRead(RecycleTail(c), drain)
    ensures var c1 := RecycleTail(c); RecycleTail(c1) == c1 && ReloadSafe(c1, rounds, drain)
  {
    hide CanRead, ReadSize;
    CanReadFits(RecycleTail(c), drain);
    assert RecycleTail(RecycleTail(c)) == RecycleTail(c);
  }

  lemma SafeReads(c: Cache, stream: seq<Byte>, rounds: nat, drain: bool)
    requires ReloadSafe(c, rounds, drain) && rounds > 0 && RecycleTail(c) == c && CanRead(c, drain)
    requires DiskGood(c, stream) && !c.migration.NotStarted?
    ensures Linked(c) && WholeFile(c, stream)
  {
    TouchedOnce(c, rounds, drain);
    LinkedWhole(c, stream);
  }

  /** After a read of a safe reload the rest of it is safe. */
  lemma ReadSafe(c: Cache, rounds: nat, drain: bool)
    requires ReloadSafe(c, rounds, drain) && 0 < rounds <= c.nslots && RecycleTail(c) == c && CanRead(c, drain)
    ensures c.rPos + ReadSize(c) <= |c.file| && ReloadSafe(DiskRead(c), rounds - 1, drain)
  {
    CanReadFits(c, drain);
    TouchedOnce(c, rounds, drain);
    hide CanRead, ReadSize;
  }

  lemma CanReadFits(c: Cache, drain: bool)
    requires CanRead(c, drain)
    ensures 0 < ReadSize(c) <= SLOT_SIZE && c.rPos + ReadSize(c) <= |c.file| && TailFree(c)
  {
  }
}
