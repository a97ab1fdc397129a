/** Which offsets a cache says it has: over every run exactly the bytes it holds, as soon as something was written to
    the file. */
module Bounds {
  import opened Bytes
  import opened CacheModel
  import opened Runs
  import opened OrderlyRuns
  import opened Playback

  // ---------------------------------------------------------------------------------------------------------------
  // The upper bound of the file

  lemma {:induction false} ReloadKeepsBound(c: Cache, rounds: nat, drain: bool)
    ensures ReloadRounds(c, rounds, drain).hDk == c.hDk && ReloadRounds(c, rounds, drain).hOffset == c.hOffset
    decreases rounds
  {
    hide ReadSize;
    if rounds > 0 {
      var c1 := RecycleTail(c);
      if CanRead(c1, drain) {
        ReloadKeepsBound(DiskRead(c1), rounds - 1, drain);
      }
    }
  }

  lemma PopKeepsBound(c: Cache, drain: bool)
    ensures PopCache(c, drain).hDk == c.hDk
  {
    hide ReloadRounds;
    var c1 := if drain then FinishPart(c) else c;
    if HeadFull(c1) {
      var c2 := TakeHead(c1);
      ReloadKeepsBound(c2, ReloadCount(c2, drain), drain);
    }
  }

  lemma SeekKeepsBound(c: Cache, offset: nat)
    requires c.head <= |c.cells|
    ensures Seek(c, offset).hDk == c.hDk
  {
    hide ReloadRounds, Landing, Locate;
    var x := Clamp(c, offset);
    if c.DiskUsable() && !(c.lRb <= x < c.hRb) {
      var f := Flush(c).(rPos := x - c.lDk, hRb := x, lRb := x);
      ReloadKeepsBound(f, ReloadCount(f, false), false);
    }
  }

  /** A round of a push into the ring that turns recording on has written to the file. */
  lemma RoundBound(c: Cache, data: seq<Byte>)
    requires !c.recording && c.migration.NotStarted? && data != []
    ensures var r := PushRound(c, data).0; !r.recording ==> r.migration.NotStarted?
    ensures var r := PushRound(c, data).0; r.hDk == if r.recording then r.hOffset else c.hDk
  {
    hide WriteAt;
  }

  lemma {:induction false} PushRingBound(c: Cache, data: seq<Byte>)
    requires !c.recording && c.migration.NotStarted?
    ensures var r := PushRing(c, data); !r.recording ==> r.migration.NotStarted?
    ensures var r := PushRing(c, data); r.hDk == if r.recording then r.hOffset else c.hDk
    decreases |data|
  {
    hide PushRound;
    if data != [] {
      var (c1, rest) := PushRound(c, data);
      RoundBound(c, data);
      if c1.recording {
        OverflowTakesAll(c, data);
      } else {
        PushRingBound(c1, rest);
      }
    }
  }

  lemma OverflowTakesAll(c: Cache, data: seq<Byte>)
    requires !c.recording && data != [] && PushRound(c, data).0.recording
    ensures PushRound(c, data).1 == []
  {
    hide WriteAt;
  }

  lemma PushBound(c: Cache, data: seq<Byte>)
    requires !c.recording ==> c.migration.NotStarted?
    ensures var r := Push(c, data); r.hDk == if r.recording then r.hOffset else c.hDk
    ensures c.recording ==> Push(c, data).recording
    ensures !Push(c, data).recording ==> Push(c, data).migration.NotStarted?
  {
    hide PushRing, ReloadRounds, WriteAt;
    if c.recording {
      var c1 := DiskWrite(c, data);
      ReloadKeepsBound(c1, ReloadCount(c1, false), false);
      PushSameRecording(c, data);
    } else {
      PushRingBound(c, data);
    }
  }

  // ---------------------------------------------------------------------------------------------------------------
  // Runs of the cache

  /** The step writes to the file. */
  predicate ToFile(c: Cache, step: Step)
    requires Enabled(c, step)
  {
    step.Write? && Act(c, step).recording
  }

  /** Something is written to the file. */
  predicate Filed(s: Sys, steps: seq<Step>)
    requires CanRun(s, steps)
    decreases |steps|
  {
    steps != [] && (ToFile(s.cache, steps[0]) || Filed(Do(s, steps[0]), steps[1..]))
  }

  /** Everything received is counted. */
  predicate Counted(s: Sys) {
    |s.stream| == s.cache.hOffset
  }

  lemma StepBound(s: Sys, step: Step)
    requires Orderly(s.cache) && Enabled(s.cache, step) && Counted(s)
    ensures var r := Do(s, step);
      && Counted(r)
      && r.cache.hDk == (if ToFile(s.cache, step) then |r.stream| else s.cache.hDk)
      && (!ToFile(s.cache, step) && s.cache.recording ==> r.cache.hOffset == s.cache.hOffset)
  {
    SlotsFit(s.cache);
    hide Orderly, PopCache, Push, PushRound, Seek, Migrate, PopSafe, WriteSafe, SeekAllowed;
    match step
    case Write(data) =>
      if s.cache.recording {
        PushBound(s.cache, data);
        RecordingPushOrderly(s.cache, data);
      } else {
        RoundBound(s.cache, data);
        PushRoundOrderly(s.cache, data);
      }
    case TakeOut(drain) =>
      PopKeepsBound(s.cache, drain);
      TakeOutOrderly(s.cache, drain);
    case SeekTo(offset) =>
      SeekKeepsBound(s.cache, offset);
      SeekOrderly(s.cache, offset);
    case Copy => MigrateKeepsBound(s.cache);
    case _ =>
  }

  lemma MigrateKeepsBound(c: Cache)
    requires c.migration.Copying? && |c.cells| <= c.nslots
    ensures Migrate(c).hDk == c.hDk && Migrate(c).hOffset == c.hOffset
  {
    hide WriteAt, SlotBytes;
  }

  /** What the upper bound of the file says. */
  predicate Bound(s: Sys, filed: bool) {
    s.cache.hDk == if filed then |s.stream| else INVALID_OFFSET
  }

  lemma StepKeepsFiled(s: Sys, step: Step, filed: bool)
    requires Orderly(s.cache) && Enabled(s.cache, step) && Counted(s) && Bound(s, filed)
    ensures Counted(Do(s, step)) && Bound(Do(s, step), filed || ToFile(s.cache, step))
  {
    StepBound(s, step);
    BoundFits(s, filed);
    hide Orderly, Act, Pushed, Enabled, Counted;
  }

  lemma BoundFits(s: Sys, filed: bool)
    requires Orderly(s.cache) && Counted(s) && Bound(s, filed)
    ensures filed ==> s.cache.recording
    ensures |s.stream| < INVALID_OFFSET
  {
    hide Contiguous, InOrder;
  }

  /** Over every run the upper bound of the file is the number of bytes received if something was written to it, and
      the invalid offset if nothing was. */
  lemma {:induction false} RunBound(s: Sys, steps: seq<Step>, filed: bool)
    requires Orderly(s.cache) && CanRun(s, steps) && Counted(s) && Bound(s, filed)
    ensures var r := Run(s, steps);
      Orderly(r.cache) && Counted(r) && Bound(r, filed || Filed(s, steps))
    decreases |steps|
  {
    hide Orderly, Do, Enabled, Counted, Bound, ToFile;
    if steps != [] {
      DoOrderly(s, steps[0]);
      StepKeepsFiled(s, steps[0], filed);
      RunBound(Do(s, steps[0]), steps[1..], filed || ToFile(s.cache, steps[0]));
    }
  }

  /** Until the migration is over a cache has exactly the bytes from the oldest one in the ring on. From then on it has
      exactly those from the oldest one that was in the ring when recording started, if recording started by an overflow
      or something has been pushed since; and else it says to have every byte there could be. */
  lemma HasExactly(s: Sys, first: Step, steps: seq<Step>, x: nat)
    requires Orderly(s.cache) && Counted(s) && !s.cache.recording && Enabled(s.cache, first)
    requires Do(s, first).cache.recording && CanRun(Do(s, first), steps)
    ensures var r := Run(Do(s, first), steps);
      HasOffset(r.cache, x) <==>
        if r.cache.migration.Finished? then
          s.cache.lRb <= x < if first.Write? || Filed(Do(s, first), steps) then |r.stream| else INVALID_OFFSET
        else r.cache.lRb <= x < |r.stream|
  {
    var s1 := Do(s, first);
    var r := Run(s1, steps);
    NotFiled(s);
    DoOrderly(s, first);
    assert ToFile(s.cache, first) <==> first.Write?;
    hide Orderly, Do, Enabled, Counted, Bound, ToFile;
    StepKeepsFiled(s, first, false);
    RunBound(s1, steps, ToFile(s.cache, first));
    StartsAtRing(s, first);
    RunKeepsBase(s1, steps);
    HasWhat(r, first.Write? || Filed(s1, steps));
  }

  lemma NotFiled(s: Sys)
    requires Orderly(s.cache) && !s.cache.recording
    ensures Bound(s, false)
  {
    hide Shape;
  }

  lemma HasWhat(s: Sys, filed: bool)
    requires Orderly(s.cache) && s.cache.recording && Counted(s) && Bound(s, filed)
    ensures forall x: nat :: HasOffset(s.cache, x) <==>
      if s.cache.migration.Finished? then s.cache.mDk <= x < if filed then |s.stream| else INVALID_OFFSET
      else s.cache.lRb <= x < |s.stream|
  {
    hide Contiguous, InOrder;
  }
}
