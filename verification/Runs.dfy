/** Whole runs of the cache: every interleaving of the producer, the consumer, downstream, seeks and the migrator. */
module Runs {
  import opened Bytes
  import opened CacheModel
  import opened RingProofs
  import opened DiskProofs
  import opened SeekProofs

  /** Who does what: the producer writes (one round of a push), the consumer pops, downstream lets go of a buffer,
      the application seeks or asks for a recording, the migration thread copies. */
  datatype Step =
    | Write(data: seq<Byte>)
    | TakeOut(drain: bool)
    | LetGo(cell: nat)
    | SeekTo(offset: nat)
    | Record
    | Copy

  /** A cache, everything pushed into it so far, and everything popped out of it. */
  datatype Sys = Sys(cache: Cache, stream: seq<Byte>, out: seq<Buffer>)

  function Start(nslots: nat): Sys {
    Sys(New(nslots), [], [])
  }

  /** A push while recording reloads an empty ring: that must be safe. */
  predicate WriteSafe(c: Cache, data: seq<Byte>) {
    c.recording && c.fslots == 0 ==>
      var c1 := DiskWrite(c, data);
      ReloadSafe(c1, ReloadCount(c1, false), false)
  }

  /** A pop reloads the ring once the file is complete: that must be safe. */
  predicate PopSafe(c: Cache, drain: bool) {
    var c1 := if drain then FinishPart(c) else c;
    HeadFull(c1) && c1.DiskUsable() ==>
      var c2 := TakeHead(c1);
      ReloadSafe(c2, ReloadCount(c2, drain), drain)
  }

  predicate SeekAllowed(c: Cache, offset: nat) {
    var x := Clamp(c, offset);
    if c.lRb <= x < c.hRb then KeepsOrder(c, x)
    else c.DiskUsable() ==> x <= c.hOffset && NoneOut(c.cells)
  }

  /** A stream so short that no label can reach the invalid offset, whatever reloads read once more. */
  predicate Short(total: nat) {
    2 * total < INVALID_OFFSET
  }

  predicate Enabled(c: Cache, step: Step) {
    && |c.cells| <= c.nslots && c.head <= |c.cells|
    && match step
       case Write(data) =>
         && data != [] && c.hOffset + |data| < INVALID_OFFSET && !c.drained
         && (Short(c.hOffset + |data|) || WriteSafe(c, data))
       case TakeOut(drain) => Short(c.hOffset) || PopSafe(c, drain)
       case LetGo(i) => i < |c.cells| && c.cells[i].state == Pop
       case SeekTo(offset) => SeekAllowed(c, offset)
       case Record => c.recording || (c.part == [] && !c.drained)
       case Copy => c.migration.Copying?
  }

  /** A step whose reload is safe. */
  predicate Safe(c: Cache, step: Step): (safe: bool)
    ensures safe ==> Enabled(c, step)
  {
    && Enabled(c, step)
    && match step
       case Write(data) => WriteSafe(c, data)
       case TakeOut(drain) => PopSafe(c, drain)
       case _ => true
  }

  function Act(c: Cache, step: Step): Cache
    requires Enabled(c, step)
  {
    match step
    case Write(data) => if c.recording then Push(c, data) else PushRound(c, data).0
    case TakeOut(drain) => PopCache(c, drain)
    case LetGo(i) => Release(c, i)
    case SeekTo(offset) => Seek(c, offset)
    case Record => StartRecording(c)
    case Copy => Migrate(c)
  }

  /** The bytes a step adds to the stream. */
  function Pushed(c: Cache, step: Step): seq<Byte>
    requires Enabled(c, step)
  {
    match step
    case Write(data) => if c.recording then data else data[..|data| - |PushRound(c, data).1|]
    case _ => []
  }

  /** The buffers a step hands out. */
  function Popped(c: Cache, step: Step): seq<Buffer> {
    match step
    case TakeOut(drain) => (match PopBuffer(c, drain) case Some(b) => [b] case None => [])
    case _ => []
  }

  function Do(s: Sys, step: Step): Sys
    requires Enabled(s.cache, step)
  {
    Sys(Act(s.cache, step), s.stream + Pushed(s.cache, step), s.out + Popped(s.cache, step))
  }

  predicate CanRun(s: Sys, steps: seq<Step>)
    decreases |steps|
  {
    steps == [] || (Enabled(s.cache, steps[0]) && CanRun(Do(s, steps[0]), steps[1..]))
  }

  function Run(s: Sys, steps: seq<Step>): Sys
    requires CanRun(s, steps)
    decreases |steps|
  {
    if steps == [] then s else Run(Do(s, steps[0]), steps[1..])
  }

  /** A run whose reloads are all safe. */
  predicate SafeRun(s: Sys, steps: seq<Step>): (safe: bool)
    ensures safe ==> CanRun(s, steps)
    decreases |steps|
  {
    steps == [] || (Safe(s.cache, steps[0]) && SafeRun(Do(s, steps[0]), steps[1..]))
  }

  // ---------------------------------------------------------------------------------------------------------------
  // What every safe step keeps

  ghost predicate Inv(c: Cache, stream: seq<Byte>) {
    Good(c, stream) && DiskGood(c, stream)
  }

  lemma InBounds(c: Cache, stream: seq<Byte>)
    requires Inv(c, stream)
    ensures |c.cells| <= c.nslots && c.head <= |c.cells|
  {
  }

  lemma StartInv(nslots: nat)
    requires 1 <= nslots
    ensures Inv(New(nslots), [])
  {
  }

  lemma WriteInv(c: Cache, stream: seq<Byte>, data: seq<Byte>)
    requires Inv(c, stream) && Safe(c, Write(data))
    ensures Inv(Act(c, Write(data)), stream + Pushed(c, Write(data)))
    ensures Act(c, Write(data)).NextOffset() == c.NextOffset()
  {
    hide Inv, Push, PushRound, WriteSafe;
    if c.recording {
      RecordingWriteInv(c, stream, data);
    } else {
      PushRoundInv(c, stream, data);
    }
  }

  lemma RecordingFacts(c: Cache, stream: seq<Byte>)
    requires Good(c, stream) && c.recording
    ensures !c.migration.NotStarted? && |stream| == c.hOffset
  {
  }

  lemma RecordingWriteInv(c: Cache, stream: seq<Byte>, data: seq<Byte>)
    requires Inv(c, stream) && c.recording && c.hOffset + |data| < INVALID_OFFSET && WriteSafe(c, data)
    ensures Inv(Push(c, data), stream + data)
    ensures var r := Push(c, data);
      && r.NextOffset() == c.NextOffset() && r.migration == c.migration
      && r.lDk == c.lDk && r.mDk == c.mDk && (Linked(c) ==> Linked(r))
  {
    hide Good, DiskGood, Reload, ReloadSafe, ReloadCount, WriteAt;
    RecordingFacts(c, stream);
    DiskWriteGood(c, stream, data);
    DiskWriteDisk(c, stream, data);
    var c1 := DiskWrite(c, data);
    if c1.fslots == 0 {
      WholeReloadGood(c1, false, stream + data);
    }
  }

  lemma PushRoundInv(c: Cache, stream: seq<Byte>, data: seq<Byte>)
    requires Inv(c, stream) && !c.recording && !c.drained && data != [] && c.hOffset + |data| < INVALID_OFFSET
    ensures var (r, rest) := PushRound(c, data);
      && Inv(r, stream + data[..|data| - |rest|]) && rest == data[|data| - |rest|..]
      && !r.drained && r.hOffset == c.hOffset + |data| - |rest| && (r.recording ==> rest == [])
      && r.NextOffset() == c.NextOffset()
  {
    hide Good, DiskGood, PushRound;
    PushRoundGood(c, stream, data);
    PushRoundDisk(c, stream, data);
  }

  /** A whole push into the ring is its rounds: what each keeps, all keep. */
  lemma {:induction false} PushRingInv(c: Cache, stream: seq<Byte>, data: seq<Byte>)
    requires Inv(c, stream) && !c.recording && !c.drained && c.hOffset + |data| < INVALID_OFFSET
    ensures Inv(PushRing(c, data), stream + data)
    ensures PushRing(c, data).NextOffset() == c.NextOffset() && !PushRing(c, data).drained
    decreases |data|
  {
    hide Inv, PushRound;
    if data == [] {
      assert stream + data == stream;
    } else {
      var (c1, rest) := PushRound(c, data);
      var taken := data[..|data| - |rest|];
      PushRoundInv(c, stream, data);
      AppendInParts(stream, data, |data| - |rest|);
      if c1.recording {
        assert taken == data;
      } else {
        PushRingInv(c1, stream + taken, rest);
      }
    }
  }

  lemma PushInv(c: Cache, stream: seq<Byte>, data: seq<Byte>)
    requires Inv(c, stream) && !c.drained && c.hOffset + |data| < INVALID_OFFSET && WriteSafe(c, data)
    ensures Inv(Push(c, data), stream + data)
    ensures Push(c, data).NextOffset() == c.NextOffset() && !Push(c, data).drained
  {
    hide Inv, WriteSafe, Push, PushRing;
    PushIs(c, data);
    if c.recording {
      RecordingWriteInv(c, stream, data);
      PushNotDrained(c, data);
    } else {
      PushRingInv(c, stream, data);
    }
  }

  lemma PushIs(c: Cache, data: seq<Byte>)
    ensures !c.recording ==> Push(c, data) == PushRing(c, data)
  {
    hide PushRing;
  }

  lemma PushNotDrained(c: Cache, data: seq<Byte>)
    requires !c.drained && c.recording
    ensures !Push(c, data).drained
  {
    hide WriteAt, ReloadRounds;
    var c1 := DiskWrite(c, data);
    ReloadNotDrained(c1, ReloadCount(c1, false), false);
  }

  lemma {:induction false} ReloadNotDrained(c: Cache, rounds: nat, drain: bool)
    ensures ReloadRounds(c, rounds, drain).drained == c.drained
    decreases rounds
  {
    hide CanRead, ReadSize;
    if rounds > 0 {
      var c1 := RecycleTail(c);
      if CanRead(c1, drain) {
        CanReadFits(c1, drain);
        ReloadNotDrained(DiskRead(c1), rounds - 1, drain);
      }
    }
  }

  lemma FullStarts(c: Cache, stream: seq<Byte>)
    requires Good(c, stream) && !c.recording && !c.drained && !TailFree(RecycleTail(c))
    ensures c.part == [] && |stream| == c.hOffset
    ensures var r := StartRecording(c); r.recording && !r.migration.NotStarted? && r.hOffset == c.hOffset
  {
    hide Contiguous, InOrder, Slices;
  }

  lemma PushRoundDisk(c: Cache, stream: seq<Byte>, data: seq<Byte>)
    requires Inv(c, stream) && !c.recording && !c.drained && data != []
    ensures DiskGood(PushRound(c, data).0, stream + data[..|data| - |PushRound(c, data).1|])
  {
    hide Good, CopyGood, FileGood, WriteAt, StartRecording;
    NotCopying(c, stream);
    if TailFree(RecycleTail(c)) {
    } else {
      FullStarts(c, stream);
      StartRecordingDisk(c, stream);
      hide DiskGood;
      DiskWriteDisk(StartRecording(c), stream, data);
      assert data[..|data|] == data;
    }
  }

  lemma TakeAndReloadInv(c: Cache, stream: seq<Byte>, drain: bool)
    requires Inv(c, stream) && HeadFull(c)
    requires c.DiskUsable() ==> ReloadSafe(TakeHead(c), ReloadCount(TakeHead(c), drain), drain)
    ensures var r := TakeAndReload(c, drain);
      && Inv(r, stream) && r.NextOffset() == c.cells[c.head].End() && r.migration == c.migration
      && r.lDk == c.lDk && r.mDk == c.mDk && (Linked(c) ==> Linked(r))
  {
    hide Good, DiskGood, Reload, ReloadSafe, ReloadCount;
    TakeHeadGood(c, stream);
    TakeHeadDisk(c, stream);
    var c1 := TakeHead(c);
    if c1.DiskUsable() {
      FinishedWhenUsable(c1, stream);
      WholeReloadGood(c1, drain, stream);
    }
  }

  /** A pop hands out the very next piece of the stream, and moves the next offset to its end. */
  lemma TakeOutInv(c: Cache, stream: seq<Byte>, drain: bool)
    requires Inv(c, stream) && PopSafe(c, drain)
    ensures var r := PopCache(c, drain);
      && Inv(r, stream) && r.migration == c.migration
      && r.lDk == c.lDk && r.mDk == c.mDk && (c.migration.Finished? && Linked(c) ==> Linked(r))
    ensures match PopBuffer(c, drain)
            case Some(b) =>
              && b.offset == c.NextOffset() && b.End() == PopCache(c, drain).NextOffset() && |b.bytes| > 0
              && b.End() <= |stream| && b.bytes == stream[b.offset..b.End()]
            case None => PopCache(c, drain).NextOffset() == c.NextOffset()
  {
    hide Good, DiskGood, FinishPart, TakeAndReload, ReloadSafe, ReloadCount, Linked;
    var c1 := if drain then FinishPart(c) else c;
    FinishPartGood(c, stream);
    FinishPartDisk(c, stream);
    if HeadFull(c1) {
      HeadIsSlice(c1, stream);
      TakeAndReloadInv(c1, stream, drain);
    }
  }

  lemma FinishPartDisk(c: Cache, stream: seq<Byte>)
    requires Inv(c, stream)
    ensures DiskGood(FinishPart(c), stream)
    ensures var r := FinishPart(c);
      && r.migration == c.migration && r.lDk == c.lDk && r.mDk == c.mDk && (c.recording ==> r == c)
      && (c.migration.Finished? && Linked(c) ==> Linked(r))
  {
  }

  /** A pop from a linked cache is safe. */
  lemma LinkedPopSafe(c: Cache, stream: seq<Byte>, drain: bool)
    requires Inv(c, stream) && (c.migration.Finished? ==> Linked(c))
    ensures PopSafe(c, drain)
  {
    FinishPartDisk(c, stream);
    var c1 := if drain then FinishPart(c) else c;
    FinishPartGood(c, stream);
    if HeadFull(c1) && c1.DiskUsable() {
      FinishedWhenUsable(c1, stream);
      hide Good, DiskGood, FinishPart, ReloadSafe, ReloadCount;
      LinkedSafe(TakeHead(c1), drain);
    }
  }

  lemma TakeHeadDisk(c: Cache, stream: seq<Byte>)
    requires DiskGood(c, stream) && HeadFull(c)
    ensures DiskGood(TakeHead(c), stream)
  {
    RelabelDisk(c, TakeHead(c), stream);
    hide DiskGood;
  }

  lemma HeadIsSlice(c: Cache, stream: seq<Byte>)
    requires Good(c, stream) && c.head < |c.cells|
    ensures IsSlice(c.cells[c.head], stream) && |c.cells[c.head].bytes| > 0
  {
  }

  lemma NotCopying(c: Cache, stream: seq<Byte>)
    requires Inv(c, stream) && !c.recording
    ensures c.migration.NotStarted? && RecycleTail(c).migration == c.migration
  {
    hide Contiguous, InOrder, Faithful, DiskGood;
  }

  lemma FinishedWhenUsable(c: Cache, stream: seq<Byte>)
    requires Good(c, stream) && c.DiskUsable()
    ensures c.migration.Finished?
  {
  }

  lemma LetGoInv(c: Cache, stream: seq<Byte>, i: nat)
    requires Inv(c, stream) && Enabled(c, LetGo(i))
    ensures Inv(Release(c, i), stream) && Release(c, i).NextOffset() == c.NextOffset()
  {
    hide Good, DiskGood;
    ReleaseGood(c, stream, i);
    RelabelDisk(c, Release(c, i), stream);
  }

  lemma SeekToInv(c: Cache, stream: seq<Byte>, offset: nat)
    requires Inv(c, stream) && Enabled(c, SeekTo(offset))
    ensures Inv(Seek(c, offset), stream)
    ensures c.migration.Finished? && Linked(c) ==> Linked(Seek(c, offset))
    ensures Seek(c, offset).lDk == c.lDk
  {
    var x := Clamp(c, offset);
    hide Good, DiskGood, KeepsOrder, SeekDisk, SeekWrapped, SeekForward, SeekBack, Locate;
    if c.lRb <= x < c.hRb {
      SeekRingGood(c, stream, x);
      SeekRingDisk(c, stream, x);
      PartsGood(SeekRing(c, x), stream);
    } else if c.DiskUsable() {
      SeekDiskExact(c, stream, x);
    }
  }

  lemma SeekRingDisk(c: Cache, stream: seq<Byte>, x: nat)
    requires DiskGood(c, stream) && c.head <= |c.cells|
    ensures DiskGood(SeekRing(c, x), stream)
    ensures var r := SeekRing(c, x);
      r.hRb == c.hRb && r.lDk == c.lDk && r.mDk == c.mDk && r.rPos == c.rPos && r.migration == c.migration
  {
    hide DiskGood, SeekRing;
    SeekRingRelabels(c, x);
    RelabelDisk(c, SeekRing(c, x), stream);
  }

  lemma RecordInv(c: Cache, stream: seq<Byte>)
    requires Inv(c, stream) && Enabled(c, Record)
    ensures Inv(StartRecording(c), stream) && StartRecording(c).NextOffset() == c.NextOffset()
  {
    hide DiskGood, Contiguous, InOrder, Slices;
    if !c.recording {
      StartRecordingDisk(c, stream);
    } else {
      RecordingFacts(c, stream);
    }
  }

  lemma CopyInv(c: Cache, stream: seq<Byte>)
    requires Inv(c, stream) && Enabled(c, Copy)
    ensures Inv(Migrate(c), stream) && Migrate(c).NextOffset() == c.NextOffset()
  {
    MigrateGood(c, stream);
    if c.migration.i < c.nslots {
      hide Good, DiskGood;
      CopyDisk(c, stream);
    } else {
      assert c.migration.i == c.nslots;
      hide Good, DiskGood;
      FinishDisk(c, stream);
    }
  }

  /** Every safe step keeps the ring and the file true to the stream. */
  lemma StepInv(s: Sys, step: Step)
    requires Inv(s.cache, s.stream) && Safe(s.cache, step)
    ensures Inv(Do(s, step).cache, Do(s, step).stream)
  {
    hide Inv, PopCache, Push, PushRound, Seek, StartRecording, Migrate, PopBuffer, PopSafe, WriteSafe, SeekAllowed;
    assert s.stream + [] == s.stream;
    match step
    case Write(data) => WriteInv(s.cache, s.stream, data);
    case TakeOut(drain) => TakeOutInv(s.cache, s.stream, drain);
    case LetGo(i) => LetGoInv(s.cache, s.stream, i);
    case SeekTo(offset) => SeekToInv(s.cache, s.stream, offset);
    case Record => RecordInv(s.cache, s.stream);
    case Copy => CopyInv(s.cache, s.stream);
  }

  /** Whatever the interleaving, the ring stays an ordered, contiguous and true window on the stream, and the file, from
      its completion on, a true copy of the stream from the lowest disk offset. */
  lemma {:induction false} RunInv(s: Sys, steps: seq<Step>)
    requires Inv(s.cache, s.stream) && SafeRun(s, steps)
    ensures Inv(Run(s, steps).cache, Run(s, steps).stream)
    decreases |steps|
  {
    hide Inv, Do;
    if steps != [] {
      StepInv(s, steps[0]);
      RunInv(Do(s, steps[0]), steps[1..]);
    }
  }
}
