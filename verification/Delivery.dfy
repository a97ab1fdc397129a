/** What comes out of the cache: nothing lost, nothing repeated, nothing out of place. */
module Delivery {
  import opened Bytes
  import opened CacheModel
  import opened RingProofs
  import opened DiskProofs
  import opened SeekProofs
  import opened Runs

  // ---------------------------------------------------------------------------------------------------------------
  // Buffers that tile a stretch of the stream

  /** The buffers are, one after the other, the pieces of stream[from..to). */
  ghost predicate Tiles(out: seq<Buffer>, from: nat, to: nat, stream: seq<Byte>) {
    if out == [] then from == to
    else
      var b := out[|out| - 1];
      && b.End() == to <= |stream| && b.bytes == stream[b.offset..to]
      && Tiles(out[..|out| - 1], from, b.offset, stream)
  }

  function Flatten(out: seq<Buffer>): seq<Byte> {
    if out == [] then [] else Flatten(out[..|out| - 1]) + out[|out| - 1].bytes
  }

  /** Tiling means: concatenated they are the stretch, and each starts where the one before it ended. */
  lemma {:induction false} TilesMeaning(out: seq<Buffer>, from: nat, to: nat, stream: seq<Byte>)
    requires Tiles(out, from, to, stream) && from <= |stream|
    ensures from <= to <= |stream| && Flatten(out) == stream[from..to]
    ensures forall i, j :: 0 <= i < j < |out| && j == i + 1 ==> out[j].offset == out[i].End()
    ensures out != [] ==> out[0].offset == from && out[|out| - 1].End() == to
    decreases |out|
  {
    if out != [] {
      var b, rest := out[|out| - 1], out[..|out| - 1];
      TilesMeaning(rest, from, b.offset, stream);
      SliceJoin(stream, from, b.offset, to);
      if rest != [] {
        assert rest[|rest| - 1].End() == b.offset;
      }
    }
  }

  lemma {:induction false} TilesGrow(out: seq<Buffer>, from: nat, to: nat, stream: seq<Byte>, data: seq<Byte>)
    requires Tiles(out, from, to, stream)
    ensures Tiles(out, from, to, stream + data)
    decreases |out|
  {
    if out != [] {
      var b := out[|out| - 1];
      assert (stream + data)[b.offset..to] == stream[b.offset..to];
      TilesGrow(out[..|out| - 1], from, b.offset, stream, data);
    }
  }

  lemma TilesAppend(out: seq<Buffer>, from: nat, b: Buffer, stream: seq<Byte>)
    requires Tiles(out, from, b.offset, stream)
    requires b.End() <= |stream| && b.bytes == stream[b.offset..b.End()]
    ensures Tiles(out + [b], from, b.End(), stream)
  {
  }

  // ---------------------------------------------------------------------------------------------------------------
  // Runs without a seek

  predicate NoSeek(steps: seq<Step>) {
    forall i :: 0 <= i < |steps| ==> !steps[i].SeekTo?
  }

  /** A step that is not a seek hands out the next piece of the stream, or nothing and keeps the place. */
  lemma StepDelivers(s: Sys, step: Step, from: nat)
    requires Inv(s.cache, s.stream) && Safe(s.cache, step) && !step.SeekTo?
    requires Tiles(s.out, from, s.cache.NextOffset(), s.stream)
    ensures var r := Do(s, step); Tiles(r.out, from, r.cache.NextOffset(), r.stream)
  {
    hide Inv, PopCache, Push, PushRound, StartRecording, Migrate, PopBuffer, Tiles;
    assert s.stream + [] == s.stream && s.out + [] == s.out;
    match step
    case Write(data) =>
      WriteInv(s.cache, s.stream, data);
      TilesGrow(s.out, from, s.cache.NextOffset(), s.stream, Pushed(s.cache, step));
    case TakeOut(drain) =>
      TakeOutInv(s.cache, s.stream, drain);
      if PopBuffer(s.cache, drain).Some? {
        TilesAppend(s.out, from, PopBuffer(s.cache, drain).value, s.stream);
      }
    case LetGo(i) => LetGoInv(s.cache, s.stream, i);
    case Record => RecordInv(s.cache, s.stream);
    case Copy => CopyInv(s.cache, s.stream);
  }

  /** Over any seek-free interleaving, overflow to disk and playback from it included, the buffers popped tile the
      stream from where the consumer stood to where it stands now. */
  lemma {:induction false} RunDelivers(s: Sys, steps: seq<Step>, from: nat)
    requires Inv(s.cache, s.stream) && SafeRun(s, steps) && NoSeek(steps)
    requires Tiles(s.out, from, s.cache.NextOffset(), s.stream)
    ensures var r := Run(s, steps);
      Inv(r.cache, r.stream) && Tiles(r.out, from, r.cache.NextOffset(), r.stream)
    decreases |steps|
  {
    hide Inv, Do, Tiles;
    if steps != [] {
      StepInv(s, steps[0]);
      StepDelivers(s, steps[0], from);
      RunDelivers(Do(s, steps[0]), steps[1..], from);
    }
  }

  lemma {:induction false} ReloadKeepsDiscont(c: Cache, rounds: nat, drain: bool)
    ensures ReloadRounds(c, rounds, drain).needDiscont == c.needDiscont
    decreases rounds
  {
    hide CanRead, ReadSize;
    if rounds > 0 {
      var c1 := RecycleTail(c);
      if CanRead(c1, drain) {
        CanReadFits(c1, drain);
        ReloadKeepsDiscont(DiskRead(c1), rounds - 1, drain);
      }
    }
  }

  lemma PopDiscont(c: Cache, drain: bool)
    ensures match PopBuffer(c, drain)
            case Some(b) => b.discont == c.needDiscont && !PopCache(c, drain).needDiscont
            case None => PopCache(c, drain).needDiscont == c.needDiscont
  {
    hide ReloadRounds;
    var c1 := if drain then FinishPart(c) else c;
    if HeadFull(c1) {
      var c2 := TakeHead(c1);
      ReloadKeepsDiscont(c2, ReloadCount(c2, drain), drain);
    }
  }

  lemma WriteDiscont(c: Cache, data: seq<Byte>)
    requires Enabled(c, Write(data))
    ensures Act(c, Write(data)).needDiscont == c.needDiscont
  {
    hide ReloadRounds, WriteAt, Enabled, Safe;
    var c1 := DiskWrite(c, data);
    ReloadKeepsDiscont(c1, ReloadCount(c1, false), false);
  }

  /** Only a seek in the file asks for a discontinuity; a seek in the ring does not. */
  lemma SeekDiscont(c: Cache, offset: nat)
    requires c.head <= |c.cells|
    ensures var x := Clamp(c, offset);
      Seek(c, offset).needDiscont <==> c.needDiscont || (c.DiskUsable() && !(c.lRb <= x < c.hRb))
  {
    hide ReloadRounds, Locate, Landing;
    var x := Clamp(c, offset);
    if c.DiskUsable() && !(c.lRb <= x < c.hRb) {
      var f := Flush(c).(rPos := x - c.lDk, hRb := x, lRb := x);
      ReloadKeepsDiscont(f, ReloadCount(f, false), false);
    }
  }

  /** Without seeks exactly the first buffer popped is marked as a discontinuity, if one was asked for. */
  lemma {:induction false} RunDiscont(s: Sys, steps: seq<Step>)
    requires CanRun(s, steps) && NoSeek(steps)
    ensures var r := Run(s, steps);
      && s.out <= r.out
      && (forall i :: |s.out| <= i < |r.out| ==> (r.out[i].discont <==> i == |s.out| && s.cache.needDiscont))
      && (r.cache.needDiscont <==> s.cache.needDiscont && r.out == s.out)
    decreases |steps|
  {
    hide Enabled, Safe, Push, PushRound, PopCache, PopBuffer, Migrate, StartRecording;
    if steps != [] {
      var s1 := Do(s, steps[0]);
      match steps[0] {
        case Write(data) => WriteDiscont(s.cache, data);
        case TakeOut(drain) => PopDiscont(s.cache, drain);
        case Record => RecordDiscont(s.cache);
        case Copy => CopyDiscont(s.cache);
        case _ =>
      }
      RunDiscont(s1, steps[1..]);
    }
  }

  /** So from the start on, as long as nobody seeks, the first buffer is marked and no other one. */
  lemma FirstDiscont(nslots: nat, steps: seq<Step>)
    requires CanRun(Start(nslots), steps) && NoSeek(steps)
    ensures var out := Run(Start(nslots), steps).out;
      forall i :: 0 <= i < |out| ==> (out[i].discont <==> i == 0)
  {
    hide Run, CanRun, NoSeek;
    RunDiscont(Start(nslots), steps);
  }

  lemma RecordDiscont(c: Cache)
    ensures StartRecording(c).needDiscont == c.needDiscont
  {
  }

  lemma CopyDiscont(c: Cache)
    requires Enabled(c, Copy)
    ensures Migrate(c).needDiscont == c.needDiscont
  {
    hide WriteAt, SlotBytes;
  }

  // ---------------------------------------------------------------------------------------------------------------
  // Popping until there is nothing

  lemma PopKeepsTotal(c: Cache, drain: bool)
    requires HeadFull(c)
    ensures TakeAndReload(c, drain).hOffset == c.hOffset
  {
    var c1 := TakeHead(c);
    hide ReloadRounds;
    ReloadGrows(c1, ReloadCount(c1, drain), drain);
  }

  lemma NextOffsetBelowTotal(c: Cache, stream: seq<Byte>)
    requires Inv(c, stream)
    ensures c.NextOffset() <= c.hRb <= c.hOffset == |stream|
  {
  }

  /** Measure of a drain: the bytes still to come. */
  lemma PopMakesProgress(c: Cache, stream: seq<Byte>, drain: bool)
    requires Inv(c, stream) && (c.migration.Finished? ==> Linked(c)) && PopBuffer(c, drain).Some?
    ensures var r := PopCache(c, drain);
      && Inv(r, stream) && (r.migration.Finished? ==> Linked(r))
      && r.hOffset == c.hOffset && c.NextOffset() < r.NextOffset() <= r.hOffset
  {
    hide Inv, TakeAndReload, PopSafe;
    LinkedPopSafe(c, stream, drain);
    TakeOutInv(c, stream, drain);
    PopKeepsTotal(if drain then FinishPart(c) else c, drain);
    NextOffsetBelowTotal(PopCache(c, drain), stream);
  }

  lemma {:induction false} ReloadKeepsBehind(c: Cache, rounds: nat, drain: bool)
    requires 0 < c.head <= |c.cells| && c.cells[c.head - 1].state == Pop
    ensures var r := ReloadRounds(c, rounds, drain);
      0 < r.head <= |r.cells| && r.cells[r.head - 1] == c.cells[c.head - 1]
    decreases rounds
  {
    hide RecycleTail, ReadSize, CanRead;
    if rounds > 0 {
      var c1 := RecycleTail(c);
      RecycleKeepsBehind(c);
      if CanRead(c1, drain) {
        CanReadFits(c1, drain);
        ReloadKeepsBehind(DiskRead(c1), rounds - 1, drain);
      }
    }
  }

  lemma RecycleKeepsBehind(c: Cache)
    requires 0 < c.head <= |c.cells| && c.cells[c.head - 1].state == Pop
    ensures var r := RecycleTail(c);
      0 < r.head <= |r.cells| && r.cells[r.head - 1] == c.cells[c.head - 1]
  {
  }

  /** The buffer just popped is the one behind the head. */
  lemma PoppedBehindHead(c: Cache, drain: bool)
    requires PopBuffer(c, drain).Some?
    ensures var r := PopCache(c, drain); 0 < r.head <= |r.cells| && r.cells[r.head - 1].state == Pop
  {
    hide FinishPart, ReloadRounds;
    var c1 := if drain then FinishPart(c) else c;
    var c2 := TakeHead(c1);
    ReloadKeepsBehind(c2, ReloadCount(c2, drain), drain);
  }

  /** One pop; if `prompt`, the buffer is let go at once. */
  function Round(c: Cache, drain: bool, prompt: bool): seq<Step>
    requires PopBuffer(c, drain).Some?
  {
    PoppedBehindHead(c, drain);
    if prompt then [TakeOut(drain), LetGo(PopCache(c, drain).head - 1)] else [TakeOut(drain)]
  }

  function AfterRound(c: Cache, drain: bool, prompt: bool): Cache
    requires PopBuffer(c, drain).Some?
  {
    PoppedBehindHead(c, drain);
    var r := PopCache(c, drain);
    if prompt then Release(r, r.head - 1) else r
  }

  lemma RoundProgress(c: Cache, stream: seq<Byte>, drain: bool, prompt: bool)
    requires Inv(c, stream) && (c.migration.Finished? ==> Linked(c)) && PopBuffer(c, drain).Some?
    ensures var r := AfterRound(c, drain, prompt);
      && Inv(r, stream) && (r.migration.Finished? ==> Linked(r))
      && r.hOffset == c.hOffset && c.NextOffset() < r.NextOffset() <= r.hOffset
  {
    hide Inv, PopBuffer, PopCache;
    PopMakesProgress(c, stream, drain);
    PoppedBehindHead(c, drain);
    hide PopSafe;
    if prompt {
      var r := PopCache(c, drain);
      InBounds(r, stream);
      LetGoInv(r, stream, r.head - 1);
    }
  }

  /** Pop until the cache answers that it has nothing. */
  ghost function DrainSteps(c: Cache, stream: seq<Byte>, drain: bool, prompt: bool): (steps: seq<Step>)
    requires Inv(c, stream) && (c.migration.Finished? ==> Linked(c))
    decreases c.hOffset - c.NextOffset()
  {
    if PopBuffer(c, drain).None? then []
    else
      RoundProgress(c, stream, drain, prompt);
      Round(c, drain, prompt) + DrainSteps(AfterRound(c, drain, prompt), stream, drain, prompt)
  }

  lemma RunTwo(s: Sys, a: Step, b: Step)
    requires Enabled(s.cache, a) && Enabled(Do(s, a).cache, b)
    ensures CanRun(s, [a, b]) && Run(s, [a, b]) == Do(Do(s, a), b)
    ensures Safe(s.cache, a) && Safe(Do(s, a).cache, b) ==> SafeRun(s, [a, b])
  {
    hide Do, Enabled, Safe, CanRun, SafeRun, Run;
    RunOne(Do(s, a), b);
    assert [a, b][1..] == [b];
    RunMore(s, [a, b]);
  }

  lemma RunOne(s: Sys, step: Step)
    requires Enabled(s.cache, step)
    ensures CanRun(s, [step]) && Run(s, [step]) == Do(s, step)
    ensures Safe(s.cache, step) ==> SafeRun(s, [step])
  {
    hide Do, Enabled, Safe, CanRun, SafeRun, Run;
    RunNone(Do(s, step));
    assert [step][1..] == [];
    RunMore(s, [step]);
  }

  lemma RunNone(s: Sys)
    ensures CanRun(s, []) && Run(s, []) == s && SafeRun(s, [])
  {
  }

  lemma RunMore(s: Sys, steps: seq<Step>)
    requires steps != [] && Enabled(s.cache, steps[0]) && CanRun(Do(s, steps[0]), steps[1..])
    ensures CanRun(s, steps) && Run(s, steps) == Run(Do(s, steps[0]), steps[1..])
    ensures Safe(s.cache, steps[0]) && SafeRun(Do(s, steps[0]), steps[1..]) ==> SafeRun(s, steps)
  {
    hide Do, Enabled, Safe;
  }

  lemma {:induction false} RunConcat(s: Sys, a: seq<Step>, b: seq<Step>)
    requires CanRun(s, a) && CanRun(Run(s, a), b)
    ensures CanRun(s, a + b) && Run(s, a + b) == Run(Run(s, a), b)
    ensures SafeRun(s, a) && SafeRun(Run(s, a), b) ==> SafeRun(s, a + b)
    decreases |a|
  {
    hide Do, Enabled, Safe;
    if a == [] {
      assert a + b == b;
    } else {
      assert (a + b)[1..] == a[1..] + b;
      RunConcat(Do(s, a[0]), a[1..], b);
    }
  }

  lemma RoundRuns(s: Sys, drain: bool, prompt: bool)
    requires Inv(s.cache, s.stream) && (s.cache.migration.Finished? ==> Linked(s.cache))
    requires PopBuffer(s.cache, drain).Some?
    ensures var steps := Round(s.cache, drain, prompt);
      && SafeRun(s, steps) && NoSeek(steps)
      && Run(s, steps).cache == AfterRound(s.cache, drain, prompt) && Run(s, steps).stream == s.stream
  {
    hide Inv, PopBuffer, PopCache, Popped, PopSafe;
    InBounds(s.cache, s.stream);
    LinkedPopSafe(s.cache, s.stream, drain);
    PopMakesProgress(s.cache, s.stream, drain);
    PoppedBehindHead(s.cache, drain);
    var s1 := Do(s, TakeOut(drain));
    InBounds(s1.cache, s.stream);
    assert s.stream + [] == s.stream;
    if prompt {
      RunTwo(s, TakeOut(drain), LetGo(s1.cache.head - 1));
    }
  }

  /** A drain can run from any state whose reloads are safe, is free of seeks, and ends with nothing to pop. */
  lemma {:induction false} DrainRuns(s: Sys, drain: bool, prompt: bool)
    requires Inv(s.cache, s.stream) && (s.cache.migration.Finished? ==> Linked(s.cache))
    ensures var steps := DrainSteps(s.cache, s.stream, drain, prompt);
      && SafeRun(s, steps) && NoSeek(steps)
      && PopBuffer(Run(s, steps).cache, drain).None?
      && Run(s, steps).stream == s.stream
    decreases s.cache.hOffset - s.cache.NextOffset()
  {
    hide Inv, PopBuffer, AfterRound, Round, Do, Enabled, Safe;
    if PopBuffer(s.cache, drain).Some? {
      var round := Round(s.cache, drain, prompt);
      RoundProgress(s.cache, s.stream, drain, prompt);
      RoundRuns(s, drain, prompt);
      var s1 := Run(s, round);
      DrainRuns(s1, drain, prompt);
      RunConcat(s, round, DrainSteps(s1.cache, s.stream, drain, prompt));
    }
  }

  // ---------------------------------------------------------------------------------------------------------------
  // Nothing is lost

  /** Everything a drain pops, from where the consumer stood. */
  ghost function Drained(s: Sys, drain: bool, prompt: bool): (r: Sys)
    requires Inv(s.cache, s.stream) && (s.cache.migration.Finished? ==> Linked(s.cache))
  {
    DrainRuns(s, drain, prompt);
    Run(s, DrainSteps(s.cache, s.stream, drain, prompt))
  }

  lemma DrainDelivers(s: Sys, drain: bool, prompt: bool, from: nat)
    requires Inv(s.cache, s.stream) && (s.cache.migration.Finished? ==> Linked(s.cache))
    requires Tiles(s.out, from, s.cache.NextOffset(), s.stream)
    ensures var r := Drained(s, drain, prompt);
      && Inv(r.cache, r.stream) && r.stream == s.stream && PopBuffer(r.cache, drain).None?
      && Tiles(r.out, from, r.cache.NextOffset(), s.stream)
  {
    hide Inv, PopBuffer, Tiles, DrainSteps, Do, Enabled, Safe;
    DrainRuns(s, drain, prompt);
    RunDelivers(s, DrainSteps(s.cache, s.stream, drain, prompt), from);
  }

  /** A cache that keeps to its ring and has nothing to drain has delivered everything. */
  lemma NothingLeftInRing(c: Cache, stream: seq<Byte>)
    requires Inv(c, stream) && !c.recording && PopBuffer(c, true).None?
    ensures c.NextOffset() == |stream|
  {
  }

  predicate OnlyPops(steps: seq<Step>, drain: bool) {
    forall i :: 0 <= i < |steps| ==> steps[i] == TakeOut(drain) || steps[i].LetGo?
  }

  /** Popping and letting go do not touch the migration, nor, in the ring and without draining, where the ring ends. */
  lemma {:induction false} PopsKeepRing(s: Sys, steps: seq<Step>, drain: bool)
    requires CanRun(s, steps)
    requires OnlyPops(steps, drain)
    requires !s.cache.DiskUsable()
    ensures var r := Run(s, steps).cache;
      && r.migration == s.cache.migration && r.recording == s.cache.recording && r.migrated == s.cache.migrated
      && (!drain ==> r.hRb == s.cache.hRb)
    decreases |steps|
  {
    hide Enabled, Safe, PopBuffer;
    if steps != [] {
      PopsKeepRing(Do(s, steps[0]), steps[1..], drain);
    }
  }

  lemma OnlyPopsConcat(a: seq<Step>, b: seq<Step>, drain: bool)
    requires OnlyPops(a, drain) && OnlyPops(b, drain)
    ensures OnlyPops(a + b, drain)
  {
  }

  lemma {:induction false} DrainOnlyPops(c: Cache, stream: seq<Byte>, drain: bool, prompt: bool)
    requires Inv(c, stream) && (c.migration.Finished? ==> Linked(c))
    ensures OnlyPops(DrainSteps(c, stream, drain, prompt), drain)
    decreases c.hOffset - c.NextOffset()
  {
    hide Inv, PopBuffer, AfterRound;
    if PopBuffer(c, drain).Some? {
      RoundProgress(c, stream, drain, prompt);
      var r := AfterRound(c, drain, prompt);
      DrainOnlyPops(r, stream, drain, prompt);
      OnlyPopsConcat(Round(c, drain, prompt), DrainSteps(r, stream, drain, prompt), drain);
    }
  }

  /** Whatever was pushed comes out, once and in order: any seek-free run that never overflows, then a drain. */
  lemma Lossless(nslots: nat, steps: seq<Step>, prompt: bool)
    requires 1 <= nslots && SafeRun(Start(nslots), steps) && NoSeek(steps)
    requires !Run(Start(nslots), steps).cache.recording
    ensures var s := Run(Start(nslots), steps);
      && Inv(s.cache, s.stream) && (s.cache.migration.Finished? ==> Linked(s.cache))
      && var r := Drained(s, true, prompt);
         && Flatten(r.out) == s.stream
         && (forall i, j :: 0 <= i < j < |r.out| && j == i + 1 ==> r.out[j].offset == r.out[i].End())
  {
    var s0 := Start(nslots);
    StartInv(nslots);
    assert Tiles([], 0, s0.cache.NextOffset(), []);
    hide *;
    RunDelivers(s0, steps, 0);
    var s := Run(s0, steps);
    NotFinished(s.cache, s.stream);
    DrainedAll(s, prompt);
  }

  lemma DrainedAll(s: Sys, prompt: bool)
    requires Inv(s.cache, s.stream) && !s.cache.recording && !s.cache.migration.Finished?
    requires Tiles(s.out, 0, s.cache.NextOffset(), s.stream)
    ensures var r := Drained(s, true, prompt);
      && Flatten(r.out) == s.stream
      && (forall i, j :: 0 <= i < j < |r.out| && j == i + 1 ==> r.out[j].offset == r.out[i].End())
  {
    SlotsNotUsable(s.cache, s.stream);
    hide Inv, PopBuffer, DrainSteps, Run, CanRun, SafeRun, Tiles, Flatten, OnlyPops, NoSeek;
    var r := Drained(s, true, prompt);
    DrainDelivers(s, true, prompt, 0);
    DrainOnlyPops(s.cache, s.stream, true, prompt);
    DrainRuns(s, true, prompt);
    PopsKeepRing(s, DrainSteps(s.cache, s.stream, true, prompt), true);
    NothingLeftInRing(r.cache, s.stream);
    TilesMeaning(r.out, 0, |s.stream|, s.stream);
  }

  lemma SlotsNotUsable(c: Cache, stream: seq<Byte>)
    requires Inv(c, stream) && !c.recording
    ensures !c.DiskUsable()
  {
  }

  lemma NotFinished(c: Cache, stream: seq<Byte>)
    requires Inv(c, stream) && !c.recording
    ensures !c.migration.Finished?
  {
  }

  lemma {:induction false} RunAppends(s: Sys, steps: seq<Step>)
    requires CanRun(s, steps)
    ensures s.out <= Run(s, steps).out
    decreases |steps|
  {
    hide Act, Pushed, Popped, Enabled, Safe;
    if steps != [] {
      RunAppends(Do(s, steps[0]), steps[1..]);
    }
  }

  lemma FirstPopped(s: Sys, drain: bool, prompt: bool)
    requires Inv(s.cache, s.stream) && (s.cache.migration.Finished? ==> Linked(s.cache))
    requires s.out == [] && PopBuffer(s.cache, drain).Some?
    ensures var r := Drained(s, drain, prompt); r.out != [] && r.out[0] == PopBuffer(s.cache, drain).value
  {
    hide Inv, PopBuffer, AfterRound, Enabled, Safe, Act, Pushed;
    DrainRuns(s, drain, prompt);
    var steps := DrainSteps(s.cache, s.stream, drain, prompt);
    assert steps[0] == TakeOut(drain);
    RunAppends(Do(s, steps[0]), steps[1..]);
    assert Do(s, steps[0]).out == [PopBuffer(s.cache, drain).value];
  }

  lemma LandedPops(c: Cache, stream: seq<Byte>, x: nat)
    requires Good(c, stream) && DiskGood(c, stream) && Landed(c, x)
    ensures Inv(c, stream) && PopBuffer(c, false).Some?
    ensures PopBuffer(c, false).value.offset <= x < PopBuffer(c, false).value.End()
    ensures c.NextOffset() < c.hRb
  {
  }

  lemma EmptyEndsAtRing(c: Cache, stream: seq<Byte>)
    requires Inv(c, stream) && PopBuffer(c, false).None?
    ensures c.NextOffset() == c.hRb
  {
  }

  lemma RingSeek(c: Cache, stream: seq<Byte>, x: nat)
    requires Inv(c, stream) && !c.DiskUsable() && c.lRb <= x < c.hRb
    ensures Seek(c, x) == SeekRing(c, x)
    ensures var r := SeekRing(c, x); !r.migration.Finished? && r.hRb == c.hRb && !r.DiskUsable()
  {
    hide Landing, Locate, Contiguous, InOrder, Slices, DiskGood;
  }

  /** After a seek in the ring, in any mode, and over any later seek-free run, playback from the file and migration
      included, the buffers popped tile the stream from the start of the slot that holds the byte asked for. */
  lemma SeekThenRun(c: Cache, stream: seq<Byte>, offset: nat, steps: seq<Step>)
    requires Inv(c, stream) && NoneOut(c.cells) && c.lRb <= Clamp(c, offset) < c.hRb
    requires c.fslots > 0 || |c.cells| < c.nslots || Clamp(c, offset) >= c.cells[|c.cells| - 1].offset
    requires c.head <= |c.cells|
    requires SafeRun(Sys(Seek(c, offset), stream, []), steps) && NoSeek(steps)
    ensures var start := Seek(c, offset).NextOffset();
      var r := Run(Sys(Seek(c, offset), stream, []), steps);
      && start <= Clamp(c, offset) < start + SLOT_SIZE && Landed(Seek(c, offset), Clamp(c, offset))
      && Tiles(r.out, start, r.cache.NextOffset(), r.stream)
  {
    var x := Clamp(c, offset);
    SeekRingExact(c, x);
    SeekRingDisk(c, stream, x);
    SeekRingGood(c, stream, x);
    var s := Sys(Seek(c, offset), stream, []);
    assert s.cache == SeekRing(c, x);
    LandedPops(s.cache, stream, x);
    LandedStart(s.cache, x);
    hide Good, DiskGood, Landed, SeekRing, Seek, CanRun, SafeRun, Run, NoSeek;
    RunDelivers(s, steps, s.cache.NextOffset());
  }

  lemma LandedStart(c: Cache, x: nat)
    requires Landed(c, x)
    ensures c.NextOffset() <= x < c.NextOffset() + SLOT_SIZE
  {
    hide InOrder;
  }

  /** After a seek in the ring that keeps its order, popping delivers the ring from the slot sought to its end, without
      gap or repeat, and the first buffer holds the byte asked for. */
  lemma SeekThenPlay(c: Cache, stream: seq<Byte>, x: nat, prompt: bool)
    requires Inv(c, stream) && NoneOut(c.cells) && !c.DiskUsable() && c.lRb <= x < c.hRb
    requires c.fslots > 0 || |c.cells| < c.nslots || x >= c.cells[|c.cells| - 1].offset
    ensures var s := Sys(Seek(c, x), stream, []);
      && Inv(s.cache, stream) && !s.cache.migration.Finished?
      && var r := Drained(s, false, prompt);
         && r.out != [] && r.out[0].offset <= x < r.out[0].End()
         && Flatten(r.out) == stream[r.out[0].offset..c.hRb]
         && (forall i, j :: 0 <= i < j < |r.out| && j == i + 1 ==> r.out[j].offset == r.out[i].End())
  {
    var s := Sys(SeekRing(c, x), stream, []);
    RingSeek(c, stream, x);
    SeekRingExact(c, x);
    SeekRingDisk(c, stream, x);
    SeekRingGood(c, stream, x);
    assert Landed(s.cache, x);
    LandedPops(s.cache, stream, x);
    hide Good, DiskGood, Landed, SeekRing, Seek;
    PlayOut(s, c.hRb, prompt);
  }

  lemma PlayOut(s: Sys, end: nat, prompt: bool)
    requires Inv(s.cache, s.stream) && !s.cache.migration.Finished? && !s.cache.DiskUsable() && s.out == []
    requires s.cache.hRb == end && PopBuffer(s.cache, false).Some?
    ensures var r := Drained(s, false, prompt);
      && r.out != [] && r.out[0] == PopBuffer(s.cache, false).value
      && Flatten(r.out) == s.stream[r.out[0].offset..end]
      && (forall i, j :: 0 <= i < j < |r.out| && j == i + 1 ==> r.out[j].offset == r.out[i].End())
  {
    var from := s.cache.NextOffset();
    NextOffsetBelowTotal(s.cache, s.stream);
    hide Inv, DrainSteps, Run, NoSeek, CanRun, SafeRun, PopBuffer;
    DrainDelivers(s, false, prompt, from);
    DrainOnlyPops(s.cache, s.stream, false, prompt);
    DrainRuns(s, false, prompt);
    PopsKeepRing(s, DrainSteps(s.cache, s.stream, false, prompt), false);
    var r := Drained(s, false, prompt);
    EmptyEndsAtRing(r.cache, s.stream);
    TilesMeaning(r.out, from, end, s.stream);
    FirstPopped(s, false, prompt);
  }
}
