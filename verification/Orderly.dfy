/** What holds over every run, even one in which a reload has put wrong bytes into the ring: the ring stays in order,
    and the consumer gets buffers one after the other. */
module OrderlyRuns {
  import opened Bytes
  import opened CacheModel
  import opened RingProofs
  import opened DiskProofs
  import opened SeekProofs
  import opened Runs

  lemma InvOrderly(c: Cache, stream: seq<Byte>)
    requires Inv(c, stream)
    ensures Orderly(c)
  {
    GoodParts(c, stream);
    RingReceived(c, stream);
    hide Contiguous, InOrder, Faithful, CopyFile, ToCome, FileHas;
    assert c.hRb + |c.part| <= c.hOffset by {
      PartReceived(c, stream);
    }
  }

  lemma SlotsFit(c: Cache)
    requires Orderly(c)
    ensures |c.cells| <= c.nslots && c.head <= |c.cells| && (c.recording ==> c.part == [] && !c.drained)
    ensures (c.recording <==> !c.migration.NotStarted?) && (c.migration.Copying? ==> c.migration.i <= c.nslots)
    ensures c.DiskUsable() <==> c.migration.Finished?
  {
    hide Contiguous, InOrder;
  }

  lemma MayCopy(c: Cache)
    requires c.migration.Copying? && |c.cells| <= c.nslots && c.head <= |c.cells|
    ensures Safe(c, Copy)
  {
    hide WriteSafe, PopSafe, SeekAllowed;
  }

  lemma PartReceived(c: Cache, stream: seq<Byte>)
    requires Good(c, stream)
    ensures c.hRb + |c.part| <= c.hOffset == |stream|
  {
    hide Shape, Slices;
  }

  // ---------------------------------------------------------------------------------------------------------------
  // Reloads

  lemma RecycleOrderly(c: Cache)
    requires Orderly(c)
    ensures Orderly(RecycleTail(c)) && RecycleTail(c).NextOffset() == c.NextOffset()
    ensures Linked(RecycleTail(c)) <==> Linked(c)
  {
    RecycleTailShape(c);
    hide Shape;
  }

  /** Reads never go beyond what was written to the file. */
  lemma ReadBounded(c: Cache)
    requires Orderly(c) && c.recording
    ensures ReadSize(c) <= c.wPos - c.rPos
    ensures Linked(c) ==> c.hRb + ReadSize(c) <= c.hOffset
    ensures c.part == [] && c.hOffset < INVALID_OFFSET
  {
    hide Contiguous, InOrder;
  }

  lemma ReadOrderly(c: Cache, drain: bool)
    requires Orderly(c) && c.recording && CanRead(c, drain) && (Short(c.hOffset) || Linked(c))
    ensures Orderly(DiskRead(c)) && DiskRead(c).NextOffset() == c.NextOffset()
    ensures Linked(DiskRead(c)) <==> Linked(c)
  {
    CanReadFits(c, drain);
    ReadBounded(c);
    hide Shape, ReadSize;
    DiskReadShape(c);
  }

  lemma {:induction false} ReloadOrderly(c: Cache, rounds: nat, drain: bool)
    requires Orderly(c) && c.recording
    requires Short(c.hOffset) || Reads(c, rounds, drain) == 0 || Linked(c)
    ensures var r := ReloadRounds(c, rounds, drain);
      Orderly(r) && r.NextOffset() == c.NextOffset() && r.hOffset == c.hOffset && r.recording
    decreases rounds
  {
    hide Orderly, CanRead, ReadSize, Linked;
    if rounds > 0 {
      var c1 := RecycleTail(c);
      RecycleOrderly(c);
      if CanRead(c1, drain) {
        CanReadFits(c1, drain);
        ReadOrderly(c1, drain);
        ReloadOrderly(DiskRead(c1), rounds - 1, drain);
      }
    }
  }

  // ---------------------------------------------------------------------------------------------------------------
  // Steps

  lemma DiskWriteOrderly(c: Cache, data: seq<Byte>)
    requires Orderly(c) && c.recording && c.hOffset + |data| < INVALID_OFFSET
    ensures Orderly(DiskWrite(c, data)) && DiskWrite(c, data).NextOffset() == c.NextOffset()
  {
    DiskWriteShape(c, data);
    hide Shape, WriteAt;
  }

  lemma StartRecordingOrderly(c: Cache)
    requires Orderly(c) && (c.recording || (c.part == [] && !c.drained))
    ensures Orderly(StartRecording(c)) && StartRecording(c).NextOffset() == c.NextOffset()
    ensures StartRecording(c).recording && StartRecording(c).hOffset == c.hOffset
  {
    StartRecordingShape(c);
    NextOffsetInRing(c);
    assert c.recording <==> !c.migration.NotStarted?;
    assert !c.recording ==> c.hOffset == c.hRb + |c.part|;
    assert c.hOffset < INVALID_OFFSET;
    hide Shape;
  }

  lemma FullHasNoPart(c: Cache)
    requires Orderly(c) && !c.recording && !c.drained && !TailFree(RecycleTail(c))
    ensures c.part == []
  {
    hide Contiguous, InOrder;
  }

  lemma PushRoundOrderly(c: Cache, data: seq<Byte>)
    requires Orderly(c) && !c.recording && !c.drained && data != [] && c.hOffset + |data| < INVALID_OFFSET
    ensures var (r, rest) := PushRound(c, data);
      && Orderly(r) && r.NextOffset() == c.NextOffset() && !r.drained
      && rest == data[|data| - |rest|..] && r.hOffset == c.hOffset + |data| - |rest| && (r.recording ==> rest == [])
  {
    PushRoundIs(c, data);
    hide Orderly, DiskWrite, StartRecording, RecycleTail, WriteSlot, PushRound;
    RecycleOrderly(c);
    var c1 := RecycleTail(c);
    if TailFree(c1) {
      WrittenOrderly(c1, data[..|data| - |PushRound(c, data).1|]);
    } else {
      FullHasNoPart(c);
      StartRecordingOrderly(c);
      DiskWriteOrderly(StartRecording(c), data);
      OverflowFields(c, data);
    }
  }

  lemma WrittenOrderly(c: Cache, data: seq<Byte>)
    requires Orderly(c) && TailFree(c) && !c.recording
    requires data != [] && |c.part| + |data| <= SLOT_SIZE && c.hOffset + |data| < INVALID_OFFSET
    ensures var r := WriteSlot(c, data);
      Orderly(r) && r.NextOffset() == c.NextOffset() && r.hOffset == c.hOffset + |data| && !r.drained && !r.recording
  {
    WriteSlotShape(c, data);
    hide Shape;
  }

  lemma OverflowFields(c: Cache, data: seq<Byte>)
    requires !c.drained
    ensures var r := DiskWrite(StartRecording(c), data);
      !r.drained && r.hOffset == c.hOffset + |data| && r.recording == StartRecording(c).recording
  {
    hide WriteAt;
  }

  lemma RecordingPushOrderly(c: Cache, data: seq<Byte>)
    requires Orderly(c) && c.recording && c.hOffset + |data| < INVALID_OFFSET
    requires Short(c.hOffset + |data|) || WriteSafe(c, data)
    ensures Orderly(Push(c, data)) && Push(c, data).NextOffset() == c.NextOffset()
    ensures Push(c, data).hOffset == c.hOffset + |data|
  {
    var c1 := DiskWrite(c, data);
    assert c1.hOffset == c.hOffset + |data| && c1.fslots == c.fslots && c1.recording;
    hide Orderly, DiskWrite, ReloadCount;
    DiskWriteOrderly(c, data);
    if c1.fslots == 0 {
      ReloadOrderly(c1, ReloadCount(c1, false), false);
    }
  }

  lemma {:induction false} PushRingOrderly(c: Cache, data: seq<Byte>)
    requires Orderly(c) && !c.recording && !c.drained && c.hOffset + |data| < INVALID_OFFSET
    ensures var r := PushRing(c, data);
      Orderly(r) && r.NextOffset() == c.NextOffset() && r.hOffset == c.hOffset + |data| && !r.drained
    decreases |data|
  {
    hide Orderly, PushRound;
    if data != [] {
      var (c1, rest) := PushRound(c, data);
      PushRoundOrderly(c, data);
      if !c1.recording {
        PushRingOrderly(c1, rest);
      }
    }
  }

  lemma PushOrderly(c: Cache, data: seq<Byte>)
    requires Orderly(c) && !c.drained && c.hOffset + |data| < INVALID_OFFSET
    requires Short(c.hOffset + |data|) || WriteSafe(c, data)
    ensures var r := Push(c, data);
      Orderly(r) && r.NextOffset() == c.NextOffset() && r.hOffset == c.hOffset + |data| && !r.drained
  {
    hide Orderly, WriteSafe, Push, PushRing;
    PushIs(c, data);
    if c.recording {
      RecordingPushOrderly(c, data);
      PushNotDrained(c, data);
    } else {
      PushRingOrderly(c, data);
    }
  }

  lemma FinishPartOrderly(c: Cache)
    requires Orderly(c)
    ensures Orderly(FinishPart(c)) && FinishPart(c).NextOffset() == c.NextOffset()
    ensures FinishPart(c).hOffset == c.hOffset && (c.recording ==> FinishPart(c) == c)
  {
    FinishPartShape(c);
    assert c.recording ==> c.part == [] by {
      hide Contiguous, InOrder;
    }
    hide Shape;
  }

  lemma TakeHeadOrderly(c: Cache)
    requires Orderly(c) && HeadFull(c)
    ensures Orderly(TakeHead(c)) && TakeHead(c).NextOffset() == c.cells[c.head].End()
  {
    TakeHeadShape(c);
    hide Shape;
  }

  /** A pop hands out the buffer that starts at the next offset, and moves the next offset to its end; it finds one if
      and only if the count says so. */
  lemma TakeOutOrderly(c: Cache, drain: bool)
    requires Orderly(c) && (Short(c.hOffset) || PopSafe(c, drain))
    ensures Orderly(PopCache(c, drain)) && PopCache(c, drain).hOffset == c.hOffset
    ensures match PopBuffer(c, drain)
            case Some(b) => b.offset == c.NextOffset() && b.End() == PopCache(c, drain).NextOffset() && |b.bytes| > 0
            case None => PopCache(c, drain).NextOffset() == c.NextOffset()
    ensures PopBuffer(c, drain).Some? <==> c.fslots > 0 || (drain && c.part != [])
  {
    NonEmptyPops(c, drain);
    hide Orderly, FinishPart, TakeHead, ReloadCount;
    var c1 := if drain then FinishPart(c) else c;
    FinishPartOrderly(c);
    if HeadFull(c1) {
      HeadNonEmpty(c1);
      TakeHeadOrderly(c1);
      var c2 := TakeHead(c1);
      TakeHeadFields(c1);
      if c1.DiskUsable() {
        ReloadOrderly(c2, ReloadCount(c2, drain), drain);
      }
    }
  }

  lemma HeadNonEmpty(c: Cache)
    requires Orderly(c) && c.head < |c.cells|
    ensures |c.cells[c.head].bytes| > 0
  {
  }

  lemma TakeHeadFields(c: Cache)
    requires HeadFull(c)
    ensures TakeHead(c).hOffset == c.hOffset && TakeHead(c).recording == c.recording
    ensures TakeHead(c).DiskUsable() <==> c.DiskUsable()
  {
  }

  lemma ReleaseOrderly(c: Cache, i: nat)
    requires Orderly(c) && i < |c.cells| && c.cells[i].state == Pop
    ensures Orderly(Release(c, i)) && Release(c, i).NextOffset() == c.NextOffset()
  {
    ReleaseShape(c, i);
    hide Shape;
  }

  lemma MigrateOrderly(c: Cache)
    requires Orderly(c) && c.migration.Copying? && |c.cells| <= c.nslots
    ensures Orderly(Migrate(c)) && Migrate(c).NextOffset() == c.NextOffset()
  {
    MigrateShape(c);
    assert c.recording by {
      hide Contiguous, InOrder;
    }
    hide Shape, WriteAt, SlotBytes;
  }

  lemma FlushedOrderly(c: Cache, x: nat)
    requires Orderly(c) && c.DiskUsable() && c.lDk <= x <= c.hOffset
    ensures var f := Flush(c).(rPos := x - c.lDk, hRb := x, lRb := x);
      && Orderly(f) && f.NextOffset() == x && f.recording && f.hOffset == c.hOffset && Linked(f)
  {
  }

  lemma SeekOrderly(c: Cache, offset: nat)
    requires Orderly(c) && SeekAllowed(c, offset) && c.head <= |c.cells|
    ensures Orderly(Seek(c, offset)) && Seek(c, offset).hOffset == c.hOffset
  {
    var x := Clamp(c, offset);
    hide Shape, KeepsOrder, SeekRing, ReloadRounds, ReloadCount;
    if c.lRb <= x < c.hRb {
      SeekRingShape(c, x);
      SeekRingRelabels(c, x);
    } else if c.DiskUsable() {
      var f := Flush(c).(rPos := x - c.lDk, hRb := x, lRb := x);
      FlushedOrderly(c, x);
      ReloadOrderly(f, ReloadCount(f, false), false);
    }
  }

  /** Every step keeps the ring in order, whether its reload is safe or not; and only pops and seeks move the place of
      the consumer. */
  lemma StepOrderly(c: Cache, step: Step)
    requires Orderly(c) && Enabled(c, step)
    ensures Orderly(Act(c, step))
    ensures !step.TakeOut? && !step.SeekTo? ==> Act(c, step).NextOffset() == c.NextOffset()
  {
    hide Orderly, PopCache, Push, PushRound, Seek, StartRecording, Migrate, PopBuffer, PopSafe, WriteSafe, SeekAllowed;
    match step
    case Write(data) =>
      if c.recording {
        RecordingPushOrderly(c, data);
      } else {
        PushRoundOrderly(c, data);
      }
    case TakeOut(drain) => TakeOutOrderly(c, drain);
    case LetGo(i) => ReleaseOrderly(c, i);
    case SeekTo(offset) => SeekOrderly(c, offset);
    case Record => StartRecordingOrderly(c);
    case Copy => MigrateOrderly(c);
  }

  // ---------------------------------------------------------------------------------------------------------------
  // Whole runs

  lemma {:induction false} RunOrderly(s: Sys, steps: seq<Step>)
    requires Orderly(s.cache) && CanRun(s, steps)
    ensures Orderly(Run(s, steps).cache)
    decreases |steps|
  {
    hide Orderly, Act, Pushed, Popped, Enabled;
    if steps != [] {
      StepOrderly(s.cache, steps[0]);
      RunOrderly(Do(s, steps[0]), steps[1..]);
    }
  }

  /** Each buffer starts where the one before it ended, the first one at `from`, and the last one ends at `to`. */
  predicate Adjacent(out: seq<Buffer>, from: nat, to: nat) {
    if out == [] then from == to
    else out[|out| - 1].End() == to && Adjacent(out[..|out| - 1], from, out[|out| - 1].offset)
  }

  /** Over any run without seeks, the buffers popped lie one after the other from where the consumer stood to where it
      stands now, whatever reloads have read. */
  lemma {:induction false} RunAdjacent(s: Sys, steps: seq<Step>, from: nat)
    requires Orderly(s.cache) && CanRun(s, steps) && (forall i :: 0 <= i < |steps| ==> !steps[i].SeekTo?)
    requires Adjacent(s.out, from, s.cache.NextOffset())
    ensures var r := Run(s, steps); Orderly(r.cache) && Adjacent(r.out, from, r.cache.NextOffset())
    decreases |steps|
  {
    hide Orderly, Act, Pushed, Enabled, PopBuffer;
    if steps != [] {
      StepOrderly(s.cache, steps[0]);
      StepAdjacent(s, steps[0], from);
      RunAdjacent(Do(s, steps[0]), steps[1..], from);
    }
  }

  lemma StepAdjacent(s: Sys, step: Step, from: nat)
    requires Orderly(s.cache) && Enabled(s.cache, step) && !step.SeekTo?
    requires Adjacent(s.out, from, s.cache.NextOffset())
    ensures Adjacent(Do(s, step).out, from, Do(s, step).cache.NextOffset())
  {
    hide Orderly, PopCache, Push, PushRound, StartRecording, Migrate, PopBuffer, PopSafe, WriteSafe, Pushed;
    assert s.out + [] == s.out;
    StepOrderly(s.cache, step);
    if step.TakeOut? {
      TakeOutOrderly(s.cache, step.drain);
      match PopBuffer(s.cache, step.drain)
      case Some(b) => assert (s.out + [b])[..|s.out|] == s.out;
      case None =>
    }
  }
}
