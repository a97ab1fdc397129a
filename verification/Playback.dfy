/** Recording and playing back from the file: what whole runs guarantee, and exactly where the guarantees stop. */
module Playback {
  import opened Bytes
  import opened CacheModel
  import opened RingProofs
  import opened DiskProofs
  import opened SeekProofs
  import opened Runs
  import opened OrderlyRuns
  import opened Delivery

  // ---------------------------------------------------------------------------------------------------------------
  // The migrated file

  /** The two caches agree on the recording that is going on. */
  predicate SameRecording(c: Cache, d: Cache) {
    && c.recording == d.recording && c.migrated == d.migrated && c.migration == d.migration
    && c.mDk == d.mDk && c.lDk == d.lDk
  }

  lemma {:induction false} ReloadSameRecording(c: Cache, rounds: nat, drain: bool)
    ensures SameRecording(c, ReloadRounds(c, rounds, drain))
    decreases rounds
  {
    hide CanRead, ReadSize;
    if rounds > 0 {
      var c1 := RecycleTail(c);
      if CanRead(c1, drain) {
        CanReadFits(c1, drain);
        ReloadSameRecording(DiskRead(c1), rounds - 1, drain);
      }
    }
  }

  lemma PushSameRecording(c: Cache, data: seq<Byte>)
    requires c.recording
    ensures SameRecording(c, Push(c, data))
  {
    hide WriteAt, ReloadRounds;
    var c1 := DiskWrite(c, data);
    ReloadSameRecording(c1, ReloadCount(c1, false), false);
  }

  lemma PopSameRecording(c: Cache, drain: bool)
    ensures SameRecording(c, PopCache(c, drain))
  {
    hide ReloadRounds;
    var c1 := if drain then FinishPart(c) else c;
    if HeadFull(c1) {
      var c2 := TakeHead(c1);
      ReloadSameRecording(c2, ReloadCount(c2, drain), drain);
    }
  }

  lemma SeekSameRecording(c: Cache, offset: nat)
    requires c.head <= |c.cells|
    ensures SameRecording(c, Seek(c, offset))
  {
    hide ReloadRounds, Landing, Locate;
    var x := Clamp(c, offset);
    if c.DiskUsable() && !(c.lRb <= x < c.hRb) {
      var f := Flush(c).(rPos := x - c.lDk, hRb := x, lRb := x);
      ReloadSameRecording(f, ReloadCount(f, false), false);
    }
  }

  /** Once recording has started, where the file begins in the stream never changes, and what is finished stays so. */
  lemma StepKeepsBase(s: Sys, step: Step)
    requires Orderly(s.cache) && Enabled(s.cache, step) && s.cache.recording
    ensures var r := Do(s, step).cache;
      && r.recording && r.mDk == s.cache.mDk && (s.cache.migration.Finished? ==> r.migration.Finished?)
      && (r.migration.Copying? ==> s.cache.migration.Copying? && r.lDk == s.cache.lDk)
  {
    assert !s.cache.migration.NotStarted? by {
      hide Contiguous, InOrder;
    }
    hide Orderly, Push, PopCache, Seek, WriteAt, SlotBytes;
    match step
    case Write(data) => PushSameRecording(s.cache, data);
    case TakeOut(drain) => PopSameRecording(s.cache, drain);
    case SeekTo(offset) => SeekSameRecording(s.cache, offset);
    case _ =>
  }

  lemma {:induction false} RunKeepsBase(s: Sys, steps: seq<Step>)
    requires Orderly(s.cache) && CanRun(s, steps) && s.cache.recording
    ensures var r := Run(s, steps);
      && Orderly(r.cache) && r.cache.recording && r.cache.mDk == s.cache.mDk
      && (r.cache.migration.Copying? ==> s.cache.migration.Copying? && r.cache.lDk == s.cache.lDk)
    decreases |steps|
  {
    hide Orderly, Do, Enabled;
    if steps != [] {
      DoOrderly(s, steps[0]);
      StepKeepsBase(s, steps[0]);
      RunKeepsBase(Do(s, steps[0]), steps[1..]);
    }
  }

  /** The step that turns recording on, an overflowing write or an explicit start, notes where the ring begins. */
  lemma StartsAtRing(s: Sys, step: Step)
    requires Orderly(s.cache) && Enabled(s.cache, step) && !s.cache.recording
    requires Do(s, step).cache.recording
    ensures var r := Do(s, step).cache;
      r.mDk == s.cache.lRb && r.lDk == s.cache.hRb == r.hRb && r.rPos == 0 && r.migration == Copying(0)
  {
    RingOnly(s.cache);
    if step.Write? || step.Record? {
      hide Orderly, WriteAt, WriteSafe;
    } else {
      hide Orderly;
      StaysOff(s.cache, step);
    }
  }

  /** Only a write or an explicit start turns recording on. */
  lemma StaysOff(c: Cache, step: Step)
    requires Enabled(c, step) && !step.Write? && !step.Record? && c.migration.NotStarted? && !c.recording
    ensures !Act(c, step).recording
  {
    hide Landing, Locate, SlotBytes, ReloadRounds, PopSafe, SeekAllowed, CaughtUpFull, Flip;
  }

  /** Outside recording everything received is in the ring, and a full ring has no PART slot. */
  lemma RingOnly(c: Cache)
    requires Orderly(c) && !c.recording
    ensures c.hOffset == c.hRb + |c.part| && (|c.cells| == c.nslots ==> c.part == []) && |c.cells| <= c.nslots
    ensures c.migration.NotStarted? && c.rPos == 0
  {
    hide Contiguous, InOrder;
  }

  /** Whatever the migrator, the producer, the consumer, downstream and seeks do in between: once the migration is
      finished the file is the stream from the lowest offset the ring held when recording started. */
  lemma RecordingIsComplete(s: Sys, first: Step, steps: seq<Step>)
    requires Inv(s.cache, s.stream) && !s.cache.recording && Safe(s.cache, first)
    requires Do(s, first).cache.recording && SafeRun(Do(s, first), steps)
    ensures var r := Run(Do(s, first), steps);
      r.cache.migration.Finished? ==>
        && r.cache.lDk == s.cache.lRb
        && r.cache.wPos == |r.stream| - s.cache.lRb <= |r.cache.file|
        && r.cache.file[..r.cache.wPos] == r.stream[s.cache.lRb..]
  {
    InvOrderly(s.cache, s.stream);
    hide Inv, Orderly, Do, Enabled;
    StepInv(s, first);
    DoOrderly(s, first);
    StartsAtRing(s, first);
    RunKeepsBase(Do(s, first), steps);
    RunInv(Do(s, first), steps);
    var r := Run(Do(s, first), steps);
    if r.cache.migration.Finished? {
      FileIsStream(r.cache, r.stream);
    }
  }

  lemma FileIsStream(c: Cache, stream: seq<Byte>)
    requires Inv(c, stream) && c.migration.Finished?
    ensures c.lDk == c.mDk && c.wPos == |stream| - c.lDk <= |c.file|
    ensures c.file[..c.wPos] == stream[c.lDk..]
  {
  }

  function CopyTimes(k: nat): (r: seq<Step>)
    ensures |r| == k
  {
    if k == 0 then [] else [Copy] + CopyTimes(k - 1)
  }

  lemma DoOrderly(s: Sys, step: Step)
    requires Orderly(s.cache) && Enabled(s.cache, step)
    ensures Orderly(Do(s, step).cache)
  {
    hide Orderly, Enabled, Act;
    StepOrderly(s.cache, step);
  }

  lemma CopyStep(s: Sys)
    requires Orderly(s.cache) && s.cache.migration.Copying?
    ensures Safe(s.cache, Copy) && s.cache.migration.i <= s.cache.nslots
    ensures var r := Do(s, Copy);
      && Orderly(r.cache) && r.cache.nslots == s.cache.nslots
      && r.cache.migration ==
         if s.cache.migration.i < s.cache.nslots then Copying(s.cache.migration.i + 1) else Finished
  {
    hide Orderly, Do, Migrate, Enabled, Safe;
    SlotsFit(s.cache);
    MayCopy(s.cache);
    DoOrderly(s, Copy);
    DoCopy(s);
  }

  lemma DoCopy(s: Sys)
    requires Enabled(s.cache, Copy) && s.cache.migration.i <= s.cache.nslots
    ensures var r := Do(s, Copy);
      && r.cache == Migrate(s.cache) && r.stream == s.stream && r.out == s.out && r.cache.nslots == s.cache.nslots
      && r.cache.migration ==
         if s.cache.migration.i < s.cache.nslots then Copying(s.cache.migration.i + 1) else Finished
  {
    hide WriteAt, SlotBytes;
  }

  /** The migration ends after one step for each slot and one more. */
  lemma {:induction false} MigrationEnds(s: Sys)
    requires Orderly(s.cache) && s.cache.migration.Copying?
    ensures s.cache.migration.i <= s.cache.nslots
    ensures var steps := CopyTimes(s.cache.nslots + 1 - s.cache.migration.i);
      SafeRun(s, steps) && Run(s, steps).cache.migration.Finished?
    decreases s.cache.nslots - s.cache.migration.i
  {
    hide Orderly, Do, Safe;
    CopyStep(s);
    var s1 := Do(s, Copy);
    var rest := CopyTimes(s.cache.nslots - s.cache.migration.i);
    assert ([Copy] + rest)[1..] == rest;
    if s.cache.migration.i < s.cache.nslots {
      MigrationEnds(s1);
    }
  }

  // ---------------------------------------------------------------------------------------------------------------
  // The order in which an explicit start copies

  /** Stream offset of the first byte of the `i`-th slot from the tail. */
  function SlotSource(c: Cache, i: nat): nat
    requires i < c.nslots && |c.cells| <= c.nslots
  {
    var blank := c.nslots - |c.cells|;
    if i >= blank then c.cells[i - blank].offset else c.hRb
  }

  /** Stream offset up to which the first `i` slots from the tail reach, the PART slot left aside. */
  function CopiedTo(c: Cache, i: nat): nat
    requires |c.cells| <= c.nslots
  {
    var blank := c.nslots - |c.cells|;
    if i <= blank then c.lRb
    else if i - blank < |c.cells| then c.cells[i - blank].offset
    else c.hRb
  }

  /** File position at which the `i`-th slot from the tail is put. */
  function CopyPos(c: Cache, i: nat): nat
    requires i <= c.nslots && |c.cells| <= c.nslots
  {
    if i == 0 then 0 else CopyPos(c, i - 1) + |SlotBytes(c, i - 1)|
  }

  /** Every slot with content is put where the file should hold its piece of the stream. */
  predicate CopiesInOrder(c: Cache)
    requires |c.cells| <= c.nslots
  {
    forall i :: 0 <= i < c.nslots ==> SlotBytes(c, i) != [] ==> CopyPos(c, i) == SlotSource(c, i) - c.lRb
  }

  lemma {:induction false} CopyPosIs(c: Cache, i: nat)
    requires Shape(c) && !c.drained && i <= c.nslots
    ensures CopyPos(c, i) == if i == 0 then 0 else |c.part| + CopiedTo(c, i) - c.lRb
    decreases i
  {
    hide InOrder;
    if i > 0 {
      CopyPosIs(c, i - 1);
      var blank := c.nslots - |c.cells|;
      if blank < i < c.nslots {
        assert c.cells[i - 1 - blank].End() == c.cells[i - blank].offset;
      }
    }
  }

  /** Migration starts at the tail slot, so it puts everything in its place if and only if that slot is not partly
      filled, or is all there is. */
  lemma CopyOrderExact(c: Cache)
    requires Shape(c) && !c.drained
    ensures CopiesInOrder(c) <==> (c.part == [] || c.cells == [])
  {
    if c.part != [] && c.cells != [] {
      CopyPosIs(c, 0);
      assert SlotBytes(c, 0) == c.part;
      assert c.lRb < c.hRb;
    } else {
      forall i | 0 <= i < c.nslots && SlotBytes(c, i) != []
        ensures CopyPos(c, i) == SlotSource(c, i) - c.lRb
      {
        CopyPosIs(c, i);
      }
    }
  }

  // ---------------------------------------------------------------------------------------------------------------
  // The link between the ring and the read position

  /** Whatever happens meanwhile: when the migration finishes the read position is linked to the ring if and only if the
      ring was empty when recording started. An overflow leaves it pointing at the oldest byte, not at the next one. */
  lemma LinkAfterMigration(s: Sys, first: Step, steps: seq<Step>)
    requires Orderly(s.cache) && !s.cache.recording && Enabled(s.cache, first)
    requires Do(s, first).cache.recording && CanRun(Do(s, first), steps)
    ensures var c := Run(Do(s, first), steps).cache;
      && |c.cells| <= c.nslots
      && (c.migration == Copying(c.nslots) ==> (Linked(Migrate(c)) <==> s.cache.cells == []))
  {
    EmptyRing(s.cache);
    hide Orderly, Do, Enabled;
    DoOrderly(s, first);
    StartsAtRing(s, first);
    assert Linked(Do(s, first).cache) <==> s.cache.cells == [];
    hide Linked;
    RunKeepsLink(Do(s, first), steps);
    var r := Run(Do(s, first), steps);
    SlotsFit(r.cache);
    if r.cache.migration == Copying(r.cache.nslots) {
      FinishKeepsLink(r.cache);
    }
  }

  lemma EmptyRing(c: Cache)
    requires Orderly(c)
    ensures c.lRb == c.hRb <==> c.cells == []
  {
    hide InOrder;
  }

  lemma FinishKeepsLink(c: Cache)
    requires c.migration == Copying(c.nslots) && |c.cells| <= c.nslots
    ensures Linked(Migrate(c)) <==> Linked(c)
  {
  }

  lemma {:induction false} ReloadKeepsLink(c: Cache, rounds: nat, drain: bool)
    ensures Linked(ReloadRounds(c, rounds, drain)) <==> Linked(c)
    decreases rounds
  {
    hide CanRead, ReadSize, RecycleTail, DiskRead, Linked;
    if rounds > 0 {
      var c1 := RecycleTail(c);
      if CanRead(c1, drain) {
        CanReadFits(c1, drain);
      }
      RoundKeepsLink(c, drain);
      if CanRead(c1, drain) {
        ReloadKeepsLink(DiskRead(c1), rounds - 1, drain);
      }
    }
  }

  lemma RoundKeepsLink(c: Cache, drain: bool)
    ensures var c1 := RecycleTail(c);
      && (Linked(c1) <==> Linked(c))
      && (CanRead(c1, drain) ==> c1.rPos + ReadSize(c1) <= |c1.file| && (Linked(DiskRead(c1)) <==> Linked(c)))
  {
    hide ReadSize;
  }

  /** While the ring is copied nothing links or unlinks reads. */
  lemma StepKeepsLink(s: Sys, step: Step)
    requires Orderly(s.cache) && Enabled(s.cache, step) && s.cache.migration.Copying? && s.cache.recording
    ensures var r := Do(s, step).cache; r.migration.Copying? ==> (Linked(r) <==> Linked(s.cache))
  {
    SlotsFit(s.cache);
    hide Orderly, WriteAt, SlotBytes, ReloadRounds, ReloadCount, SeekRing, SeekAllowed, PopSafe, WriteSafe;
    var c := s.cache;
    match step
    case Write(data) =>
      var c1 := DiskWrite(c, data);
      ReloadKeepsLink(c1, ReloadCount(c1, false), false);
    case SeekTo(offset) => SeekRingRelabels(c, Clamp(c, offset));
    case _ =>
  }

  lemma {:induction false} RunKeepsLink(s: Sys, steps: seq<Step>)
    requires Orderly(s.cache) && CanRun(s, steps) && s.cache.migration.Copying? && s.cache.recording
    ensures var r := Run(s, steps).cache;
      Orderly(r) && r.recording && (r.migration.Copying? ==> (Linked(r) <==> Linked(s.cache)))
    decreases |steps|
  {
    hide Orderly, Do, Enabled, Linked;
    if steps != [] {
      var s1 := Do(s, steps[0]);
      DoOrderly(s, steps[0]);
      StepKeepsBase(s, steps[0]);
      StepKeepsLink(s, steps[0]);
      if s1.cache.migration.Copying? {
        RunKeepsLink(s1, steps[1..]);
      } else {
        RunKeepsBase(s1, steps[1..]);
      }
    }
  }

  lemma InvParts(c: Cache, stream: seq<Byte>)
    requires Inv(c, stream)
    ensures Good(c, stream) && DiskGood(c, stream)
  {
  }

  /** Without the link a reload takes the bytes at the read position but labels them with the end of the ring: the label
      tells the truth if and only if the link holds. */
  lemma ReloadLabel(c: Cache, stream: seq<Byte>, drain: bool)
    requires FileGood(c, stream) && c.hOffset < INVALID_OFFSET && CanRead(c, drain) && c.rPos <= c.wPos
    ensures var cell := DiskRead(c).cells[|c.cells|];
      && c.lDk + c.rPos + |cell.bytes| <= |stream|
      && cell.bytes == stream[c.lDk + c.rPos..c.lDk + c.rPos + |cell.bytes|]
      && (cell.offset == c.lDk + c.rPos <==> Linked(c))
  {
    hide FileHas;
    FileHasSlice(c.file, c.lDk, stream, c.lDk + c.rPos, ReadSize(c));
  }

  // ---------------------------------------------------------------------------------------------------------------
  // Playing from the file

  /** The file is complete, its end is the end of the stream, and the next read takes what the ring needs next. */
  predicate Playing(c: Cache) {
    c.migration.Finished? && Linked(c) && c.lDk <= c.hOffset && c.wPos == c.hOffset - c.lDk
  }

  lemma PlayingFrom(c: Cache, stream: seq<Byte>)
    requires Inv(c, stream) && c.migration.Finished? && Linked(c)
    ensures Playing(c)
  {
  }

  lemma PlayingWrites(c: Cache, data: seq<Byte>)
    requires Playing(c)
    ensures WriteSafe(c, data)
  {
    hide WriteAt, ReloadSafe, ReloadCount;
    LinkedSafe(DiskWrite(c, data), false);
  }

  lemma FinishedIsUsable(c: Cache, stream: seq<Byte>)
    requires Good(c, stream) && c.migration.Finished?
    ensures c.DiskUsable()
  {
  }

  /** Pushing, popping, letting go and seeking all keep the read position linked to the ring and the write position to
      the end of the stream; so pops and pushes never need the link as an assumption again. */
  lemma StepKeepsPlaying(s: Sys, step: Step)
    requires Inv(s.cache, s.stream) && Enabled(s.cache, step) && Playing(s.cache)
    ensures Safe(s.cache, step)
    ensures var r := Do(s, step);
      Inv(r.cache, r.stream) && Playing(r.cache) && r.cache.lDk == s.cache.lDk
  {
    FinishedIsUsable(s.cache, s.stream);
    assert Safe(s.cache, step) by {
      hide Inv, PopSafe, WriteSafe;
      match step {
        case Write(data) => PlayingWrites(s.cache, data);
        case TakeOut(drain) => LinkedPopSafe(s.cache, s.stream, drain);
        case _ =>
      }
    }
    hide Inv, Push, PopCache, Seek, PopBuffer, Linked, PopSafe, WriteSafe, SeekAllowed;
    StepInv(s, step);
    match step {
      case Write(data) => RecordingWriteInv(s.cache, s.stream, data);
      case TakeOut(drain) => TakeOutInv(s.cache, s.stream, drain);
      case LetGo(i) => LinkedLabels(s.cache, i);
      case SeekTo(offset) =>
        SeekToInv(s.cache, s.stream, offset);
        SeekSameRecording(s.cache, offset);
      case _ =>
    }
    PlayingFrom(Do(s, step).cache, Do(s, step).stream);
  }

  lemma LinkedLabels(c: Cache, i: nat)
    requires i < |c.cells| && c.cells[i].state == Pop && Linked(c)
    ensures Linked(Release(c, i))
  {
  }

  lemma {:induction false} RunKeepsPlaying(s: Sys, steps: seq<Step>)
    requires Inv(s.cache, s.stream) && CanRun(s, steps) && Playing(s.cache)
    ensures SafeRun(s, steps)
    ensures var r := Run(s, steps);
      Inv(r.cache, r.stream) && Playing(r.cache) && r.cache.lDk == s.cache.lDk
    decreases |steps|
  {
    hide Inv, Do, Enabled, Safe, Playing;
    if steps != [] {
      StepKeepsPlaying(s, steps[0]);
      RunKeepsPlaying(Do(s, steps[0]), steps[1..]);
    }
  }

  /** After a seek in the file to `x`, whatever is pushed, popped and let go: the buffers popped are the true pieces of
      the stream from `x` on, one after the other, and the file stays linked to the ring and to the stream; a pop is
      possible at any time, and a push as long as offsets last. */
  lemma DiskPlayback(c: Cache, stream: seq<Byte>, x: nat, steps: seq<Step>, data: seq<Byte>)
    requires Inv(c, stream) && c.DiskUsable() && c.lDk <= x <= c.hOffset
    requires CanRun(Sys(SeekDisk(c, x), stream, []), steps) && NoSeek(steps)
    ensures var r := Run(Sys(SeekDisk(c, x), stream, []), steps);
      && Playing(r.cache) && Tiles(r.out, x, r.cache.NextOffset(), r.stream)
      && Safe(r.cache, TakeOut(false)) && Safe(r.cache, TakeOut(true))
      && (data != [] && r.cache.hOffset + |data| < INVALID_OFFSET ==> Safe(r.cache, Write(data)))
  {
    SeekDiskExact(c, stream, x);
    var s := Sys(SeekDisk(c, x), stream, []);
    hide Good, DiskGood, SeekDisk, Do, CanRun, SafeRun, Run, Playing;
    PlayingFrom(s.cache, stream);
    RunKeepsPlaying(s, steps);
    RunDelivers(s, steps, x);
    var r := Run(s, steps);
    PlayingEnables(r.cache, r.stream, data);
  }

  lemma PlayingEnables(c: Cache, stream: seq<Byte>, data: seq<Byte>)
    requires Inv(c, stream) && Playing(c)
    ensures Safe(c, TakeOut(false)) && Safe(c, TakeOut(true))
    ensures data != [] && c.hOffset + |data| < INVALID_OFFSET ==> Safe(c, Write(data))
  {
    NotDrained(c, stream);
    hide Inv, PopSafe, WriteSafe;
    LinkedPopSafe(c, stream, false);
    LinkedPopSafe(c, stream, true);
    PlayingWrites(c, data);
  }

  lemma NotDrained(c: Cache, stream: seq<Byte>)
    requires Inv(c, stream) && c.migration.Finished?
    ensures !c.drained && |c.cells| <= c.nslots && c.head <= |c.cells|
  {
    hide Contiguous, InOrder, Faithful, DiskGood;
  }
}
