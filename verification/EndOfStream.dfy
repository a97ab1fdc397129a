/** Draining to the end of the stream while playing from the file. */
module EndOfStream {
  import opened Bytes
  import opened CacheModel
  import opened RingProofs
  import opened DiskProofs
  import opened SeekProofs
  import opened Runs
  import opened Delivery

  /** No buffer is out but, possibly, the one just popped. */
  predicate OnlyLastOut(c: Cache) {
    forall i :: 0 <= i < |c.cells| && i != c.head - 1 ==> c.cells[i].state != Pop
  }

  lemma {:induction false} ReloadOnlyLastOut(c: Cache, rounds: nat, drain: bool)
    requires OnlyLastOut(c) && 0 < c.head <= |c.cells| && c.cells[c.head - 1].state == Pop
    ensures OnlyLastOut(ReloadRounds(c, rounds, drain))
    decreases rounds
  {
    hide ReadSize, CanRead;
    if rounds > 0 {
      var c1 := RecycleTail(c);
      assert OnlyLastOut(c1) && 0 < c1.head <= |c1.cells| && c1.cells[c1.head - 1].state == Pop;
      if CanRead(c1, drain) {
        CanReadFits(c1, drain);
        ReloadOnlyLastOut(DiskRead(c1), rounds - 1, drain);
      }
    }
  }

  /** A state from which a drain reads everything the file still has: nothing is out, and either something is left to
      pop or there is nothing more to read. */
  ghost predicate Ready(c: Cache, stream: seq<Byte>) {
    && Inv(c, stream) && c.migration.Finished? && Linked(c)
    && 2 <= c.nslots && NoneOut(c.cells)
    && (c.fslots > 0 || c.hRb == c.hOffset)
  }

  /** After handing out the last full slot, a ring of two slots or more has room for what the file still has. */
  lemma RoomToRead(c: Cache, stream: seq<Byte>)
    requires Inv(c, stream) && c.migration.Finished? && Linked(c) && 2 <= c.nslots
    requires OnlyLastOut(c) && 0 < c.head == |c.cells| && c.hRb < c.hOffset
    ensures CanRead(RecycleTail(c), true)
  {
  }

  lemma DrainReadyTake(c: Cache, stream: seq<Byte>)
    requires Ready(c, stream) && HeadFull(c)
    ensures var r := TakeAndReload(c, true);
      && OnlyLastOut(r) && (r.fslots > 0 || r.hRb == r.hOffset)
  {
    var c1 := TakeHead(c);
    assert OnlyLastOut(c1) && c1.cells[c1.head - 1].state == Pop;
    TakeHeadGood(c, stream);
    TakeHeadDisk(c, stream);
    assert c.DiskUsable() && c.fslots >= 1 && c1.head + c1.fslots == |c1.cells|;
    hide Good, DiskGood, OnlyLastOut, CanRead;
    ReloadOnlyLastOut(c1, 1, true);
    assert ReloadRounds(c1, 1, true) ==
           if CanRead(RecycleTail(c1), true) then DiskRead(RecycleTail(c1)) else RecycleTail(c1) by {
      OneRound(c1);
    }
    if c1.fslots == 0 && c1.hRb < c1.hOffset {
      RoomToRead(c1, stream);
    }
  }

  lemma OneRound(c: Cache)
    ensures ReloadRounds(c, 1, true) ==
            if CanRead(RecycleTail(c), true) then DiskRead(RecycleTail(c)) else RecycleTail(c)
  {
  }

  lemma RoundReady(c: Cache, stream: seq<Byte>)
    requires Ready(c, stream) && PopBuffer(c, true).Some?
    ensures Ready(AfterRound(c, true, true), stream)
  {
    assert c.part == [] && c.recording;
    assert FinishPart(c) == c && HeadFull(c);
    RoundProgress(c, stream, true, true);
    DrainReadyTake(c, stream);
    PoppedBehindHead(c, true);
    PopKeepsPlayback(c, true);
    hide Inv, PopBuffer, TakeAndReload;
  }

  lemma PopKeepsPlayback(c: Cache, drain: bool)
    requires HeadFull(c)
    ensures var r := TakeAndReload(c, drain); r.migration == c.migration && r.nslots == c.nslots
  {
    hide ReloadRounds;
    var c1 := TakeHead(c);
    ReloadKeepsSize(c1, ReloadCount(c1, drain), drain);
  }

  lemma {:induction false} ReloadKeepsSize(c: Cache, rounds: nat, drain: bool)
    ensures var r := ReloadRounds(c, rounds, drain); r.migration == c.migration && r.nslots == c.nslots
    decreases rounds
  {
    hide CanRead, ReadSize;
    if rounds > 0 {
      var c1 := RecycleTail(c);
      if CanRead(c1, drain) {
        CanReadFits(c1, drain);
        ReloadKeepsSize(DiskRead(c1), rounds - 1, drain);
      }
    }
  }

  lemma {:induction false} DrainEndsReady(s: Sys)
    requires Ready(s.cache, s.stream)
    ensures Ready(Drained(s, true, true).cache, s.stream)
    decreases s.cache.hOffset - s.cache.NextOffset()
  {
    assert Inv(s.cache, s.stream) && Linked(s.cache);
    hide Inv, Ready, PopBuffer, AfterRound, Round, Do, Enabled, Safe;
    DrainRuns(s, true, true);
    if PopBuffer(s.cache, true).Some? {
      RoundReady(s.cache, s.stream);
      RoundProgress(s.cache, s.stream, true, true);
      RoundRuns(s, true, true);
      var s1 := Run(s, Round(s.cache, true, true));
      DrainEndsReady(s1);
      DrainRuns(s1, true, true);
      RunConcat(s, Round(s.cache, true, true), DrainSteps(s1.cache, s.stream, true, true));
    }
  }

  /** Playing from the file to the end of the stream, each buffer let go before the next pop, delivers every byte from
      the next offset on if and only if something was ready to pop at the start, or nothing was left to read. */
  lemma DiskDrainExact(c: Cache, stream: seq<Byte>)
    requires Inv(c, stream) && c.migration.Finished? && Linked(c) && 2 <= c.nslots && NoneOut(c.cells)
    ensures Flatten(Drained(Sys(c, stream, []), true, true).out) == stream[c.NextOffset()..]
      <==> (c.fslots > 0 || c.hRb == c.hOffset)
  {
    if c.fslots > 0 || c.hRb == c.hOffset {
      ReadyDrains(c, stream);
    } else {
      NextOffsetBelowTotal(c, stream);
      assert PopBuffer(c, true).None? && c.NextOffset() == c.hRb;
      hide Inv, PopBuffer;
      assert DrainSteps(c, stream, true, true) == [];
      assert |stream[c.NextOffset()..]| > 0;
    }
  }

  lemma ReadyDrains(c: Cache, stream: seq<Byte>)
    requires Ready(c, stream)
    ensures Flatten(Drained(Sys(c, stream, []), true, true).out) == stream[c.NextOffset()..]
  {
    var s := Sys(c, stream, []);
    NextOffsetBelowTotal(c, stream);
    var from := c.NextOffset();
    assert Tiles([], from, from, stream);
    hide Inv, DrainSteps, Run, CanRun, SafeRun, NoSeek, Tiles, Flatten, PopBuffer, Drained;
    DrainEndsReady(s);
    DrainDelivers(s, true, true, from);
    var r := Drained(s, true, true);
    hide Ready;
    ReadyEmptyIsEnd(r.cache, stream);
    TilesMeaning(r.out, from, |stream|, stream);
    UpToTheEnd(stream, from, |stream|);
  }

  lemma ReadyEmptyIsEnd(c: Cache, stream: seq<Byte>)
    requires Ready(c, stream) && PopBuffer(c, true).None?
    ensures c.NextOffset() == |stream|
  {
  }

  // ---------------------------------------------------------------------------------------------------------------
  // Whatever is let go when

  /** The consumer pops for the end of the stream, downstream lets go of buffers, and nothing else happens. */
  predicate PlaysOut(steps: seq<Step>) {
    forall i :: 0 <= i < |steps| ==> steps[i] == TakeOut(true) || steps[i].LetGo?
  }

  /** Something is ready to pop, or nothing is left to read. */
  predicate HasMore(c: Cache) {
    c.fslots > 0 || c.hRb == c.hOffset
  }

  /** A pop that takes the last FULL slot finds a slot to read into, if anything is left to read. */
  predicate Fed(c: Cache) {
    HeadFull(c) ==> c.fslots > 1 || c.hRb == c.hOffset || TailFree(RecycleTail(TakeHead(c)))
  }

  predicate AllFed(s: Sys, steps: seq<Step>)
    requires CanRun(s, steps)
    decreases |steps|
  {
    steps == [] || ((steps[0].TakeOut? ==> Fed(s.cache)) && AllFed(Do(s, steps[0]), steps[1..]))
  }

  ghost predicate FilePlay(c: Cache, stream: seq<Byte>) {
    Inv(c, stream) && c.migration.Finished? && Linked(c)
  }

  lemma FilePlayFacts(c: Cache, stream: seq<Byte>)
    requires FilePlay(c, stream)
    ensures c.DiskUsable() && FinishPart(c) == c && c.hRb <= c.hOffset && c.head <= |c.cells| <= c.nslots
    ensures HeadFull(c) <==> c.fslots > 0
    ensures !HeadFull(c) ==> PopCache(c, true) == c && c.NextOffset() == c.hRb
  {
  }

  /** What is left to read can be read, if there is a slot for it. */
  lemma ReadsIfFree(c: Cache, stream: seq<Byte>)
    requires FilePlay(c, stream)
    ensures CanRead(c, true) <==> c.hRb < c.hOffset && TailFree(c)
  {
  }

  /** A pop leaves more to pop exactly when there was more and it was fed. */
  lemma PopFed(c: Cache, stream: seq<Byte>)
    requires FilePlay(c, stream)
    ensures PopSafe(c, true) && FilePlay(PopCache(c, true), stream)
    ensures HasMore(PopCache(c, true)) <==> HasMore(c) && Fed(c)
  {
    hide Inv, PopCache, PopSafe, CanRead;
    LinkedPopSafe(c, stream, true);
    TakeOutInv(c, stream, true);
    FilePlayFacts(c, stream);
    if HeadFull(c) {
      PopReads(c, stream);
    }
  }

  lemma PopReads(c: Cache, stream: seq<Byte>)
    requires FilePlay(c, stream) && HeadFull(c)
    ensures HasMore(PopCache(c, true)) <==> Fed(c)
  {
    var c1 := TakeHead(c);
    var c2 := RecycleTail(c1);
    FilePlayFacts(c, stream);
    TakenPlays(c, stream);
    hide Inv, CanRead;
    ReadsIfFree(c2, stream);
    OneReload(c1);
    hide RecycleTail;
    assert PopCache(c, true) == if CanRead(c2, true) then DiskRead(c2) else c2;
  }

  lemma TakenPlays(c: Cache, stream: seq<Byte>)
    requires FilePlay(c, stream) && HeadFull(c)
    ensures var c2 := RecycleTail(TakeHead(c));
      && FilePlay(c2, stream) && c2.fslots == c.fslots - 1 && c2.hRb == c.hRb && c2.hOffset == c.hOffset
  {
    var c1 := TakeHead(c);
    hide Good, DiskGood, ReloadSafe, ReloadCount;
    TakeHeadGood(c, stream);
    TakeHeadDisk(c, stream);
    LinkedSafe(c1, true);
    RecycleTailGood(c1, stream);
    RecycleDisk(c1, stream, ReloadCount(c1, true), true) by {
      DrainCount(c1);
    }
  }

  lemma DrainCount(c: Cache)
    ensures ReloadCount(c, true) == 1
  {
  }

  lemma OneReload(c: Cache)
    ensures Reload(c, true) == if CanRead(RecycleTail(c), true) then DiskRead(RecycleTail(c)) else RecycleTail(c)
  {
    hide CanRead, RecycleTail, DiskRead;
    assert ReloadRounds(c, 1, true) == Reload(c, true);
  }

  lemma StepFed(s: Sys, step: Step)
    requires FilePlay(s.cache, s.stream) && Enabled(s.cache, step) && (step == TakeOut(true) || step.LetGo?)
    ensures Safe(s.cache, step)
    ensures var r := Do(s, step);
      && FilePlay(r.cache, r.stream) && r.stream == s.stream
      && (HasMore(r.cache) <==> HasMore(s.cache) && (step.TakeOut? ==> Fed(s.cache)))
  {
    hide Inv, PopCache, PopSafe, Fed, Popped;
    assert s.stream + [] == s.stream;
    match step
    case TakeOut(_) => PopFed(s.cache, s.stream);
    case LetGo(i) => LetGoInv(s.cache, s.stream, i);
  }

  lemma {:induction false} RunFed(s: Sys, steps: seq<Step>)
    requires FilePlay(s.cache, s.stream) && CanRun(s, steps) && PlaysOut(steps)
    ensures SafeRun(s, steps)
    ensures var r := Run(s, steps);
      && FilePlay(r.cache, r.stream) && r.stream == s.stream
      && (HasMore(r.cache) <==> HasMore(s.cache) && AllFed(s, steps))
    decreases |steps|
  {
    hide FilePlay, HasMore, Fed, Do, Enabled, Safe;
    if steps != [] {
      StepFed(s, steps[0]);
      RunFed(Do(s, steps[0]), steps[1..]);
    }
  }

  /** Pops from the file and releases in any order, until there is nothing to pop: every byte from the next offset to
      the end of the stream was handed out if and only if there was something to pop at the start, or nothing to read,
      and no pop took the last FULL slot while the slot at the tail was still out. */
  lemma PlayOutExact(s: Sys, steps: seq<Step>)
    requires FilePlay(s.cache, s.stream) && s.out == [] && CanRun(s, steps) && PlaysOut(steps)
    requires PopBuffer(Run(s, steps).cache, true).None?
    ensures Flatten(Run(s, steps).out) == s.stream[s.cache.NextOffset()..]
      <==> HasMore(s.cache) && AllFed(s, steps)
  {
    var from, r := s.cache.NextOffset(), Run(s, steps);
    hide *;
    RunFed(s, steps);
    RunFlattens(s, steps);
    NothingLeft(r.cache, r.stream);
    UpToTheEnd(s.stream, from, r.cache.NextOffset());
  }

  lemma UpToTheEnd(stream: seq<Byte>, from: nat, to: nat)
    requires from <= to <= |stream|
    ensures stream[from..to] == stream[from..] <==> to == |stream|
  {
    assert |stream[from..to]| == to - from && |stream[from..]| == |stream| - from;
  }

  lemma RunFlattens(s: Sys, steps: seq<Step>)
    requires FilePlay(s.cache, s.stream) && s.out == [] && SafeRun(s, steps) && PlaysOut(steps)
    requires Run(s, steps).stream == s.stream
    ensures var from, r := s.cache.NextOffset(), Run(s, steps);
      from <= r.cache.NextOffset() <= |s.stream| && Flatten(r.out) == s.stream[from..r.cache.NextOffset()]
  {
    var from, r := s.cache.NextOffset(), Run(s, steps);
    NextOffsetBelowTotal(s.cache, s.stream);
    hide Inv, Run, CanRun, SafeRun;
    RunDelivers(s, steps, from);
    TilesMeaning(r.out, from, r.cache.NextOffset(), s.stream);
  }

  lemma NothingLeft(c: Cache, stream: seq<Byte>)
    requires FilePlay(c, stream) && PopBuffer(c, true).None?
    ensures c.NextOffset() == c.hRb && c.hOffset == |stream| && (HasMore(c) <==> c.NextOffset() == |stream|)
  {
    FilePlayFacts(c, stream);
  }

  /** A push that finds the ring played out sets playback from the file going again exactly when the slot at the tail
      has come back and a whole slot's worth lies ahead. */
  lemma PushRefills(c: Cache, stream: seq<Byte>, data: seq<Byte>)
    requires FilePlay(c, stream) && c.fslots == 0 && c.hOffset + |data| < INVALID_OFFSET
    ensures Push(c, data).fslots > 0 <==> TailFree(RecycleTail(c)) && c.hOffset + |data| - c.hRb >= SLOT_SIZE
  {
    var d := DiskWrite(c, data);
    var rounds := ReloadCount(d, false);
    FilePlayFacts(c, stream);
    FileReads(c, data, stream);
    assert Push(c, data) == ReloadRounds(d, rounds, false) && d.fslots == 0;
    hide Inv, CanRead, DiskWrite, ReloadRounds, ReloadCount, Push, RecycleTail;
    FirstReload(d, rounds);
    if CanRead(RecycleTail(d), false) {
      CanReadFits(RecycleTail(d), false);
      ReloadFills(DiskRead(RecycleTail(d)), rounds - 1, false);
    }
  }

  /** Whether the first round of a reload after a push can read. */
  lemma FileReads(c: Cache, data: seq<Byte>, stream: seq<Byte>)
    requires FilePlay(c, stream) && c.fslots == 0 && c.hOffset + |data| < INVALID_OFFSET
    ensures var d := RecycleTail(DiskWrite(c, data));
      CanRead(d, false) <==> TailFree(RecycleTail(c)) && c.hOffset + |data| - c.hRb >= SLOT_SIZE
    ensures ReloadCount(DiskWrite(c, data), false) > 0
  {
    var d := DiskWrite(c, data);
    assert d.part == c.part && d.head == c.head && d.migration == c.migration && (Linked(d) <==> Linked(c));
    assert RecycleTail(d).file == d.file && (TailFree(RecycleTail(d)) <==> TailFree(RecycleTail(c)));
    assert c.recording && |stream| == c.hOffset && !c.migration.NotStarted?;
    hide Good, DiskGood, DiskWrite;
    DiskWriteGood(c, stream, data);
    DiskWriteDisk(c, stream, data);
    EnoughToRead(d, stream + data);
  }

  /** What can be read once there is a slot for it, other than by a drain. */
  lemma EnoughToRead(c: Cache, stream: seq<Byte>)
    requires FilePlay(c, stream)
    ensures ReadSize(c) == Min(c.hOffset - c.hRb, SLOT_SIZE) && c.rPos + ReadSize(c) <= |c.file|
  {
  }

  lemma FirstReload(c: Cache, rounds: nat)
    requires rounds > 0
    ensures var c1 := RecycleTail(c);
      if CanRead(c1, false) then
        c1.rPos + ReadSize(c1) <= |c1.file| && DiskRead(c1).fslots == c.fslots + 1
        && ReloadRounds(c, rounds, false) == ReloadRounds(DiskRead(c1), rounds - 1, false)
      else ReloadRounds(c, rounds, false).fslots == c.fslots
  {
    hide ReadSize;
  }

  /** A disk seek fills at least one slot exactly when a whole slot's worth lies ahead. */
  lemma SeekDiskFills(c: Cache, stream: seq<Byte>, x: nat)
    requires Inv(c, stream) && c.DiskUsable() && c.lDk <= x <= c.hOffset
    ensures SeekDisk(c, x).fslots > 0 <==> c.hOffset - x >= SLOT_SIZE
    ensures SeekDisk(c, x).fslots == 0 ==> SeekDisk(c, x).hRb == x
    ensures NoneOut(SeekDisk(c, x).cells) && SeekDisk(c, x).nslots == c.nslots
  {
    FinishedWhenUsable(c, stream);
    hide Inv, Flush, ReloadRounds, CanRead;
    var f := Flush(c).(rPos := x - c.lDk, hRb := x, lRb := x);
    var rounds := ReloadCount(f, false);
    FlushedReads(c, stream, x);
    ReloadKeepsSize(f, rounds, false);
    ReloadNoneOut(f, rounds, false);
    FirstRound(f, rounds, false);
    if CanRead(f, false) {
      CanReadFits(f, false);
      ReloadFills(DiskRead(f), rounds - 1, false);
    }
  }

  lemma FirstRound(c: Cache, rounds: nat, drain: bool)
    requires rounds > 0 && RecycleTail(c) == c
    ensures ReloadRounds(c, rounds, drain) ==
            if CanRead(c, drain) then ReloadRounds(DiskRead(c), rounds - 1, drain) else c
  {
  }

  /** After a flush the whole ring is free, and the file can be read if it has a whole slot's worth. */
  lemma FlushedReads(c: Cache, stream: seq<Byte>, x: nat)
    requires Inv(c, stream) && c.migration.Finished? && c.lDk <= x <= c.hOffset
    ensures var f := Flush(c).(rPos := x - c.lDk, hRb := x, lRb := x);
      && f.nslots == c.nslots && f.cells == [] && f.fslots == 0 && f.hRb == x
      && RecycleTail(f) == f && (CanRead(f, false) <==> c.hOffset - x >= SLOT_SIZE)
  {
  }

  lemma {:induction false} ReloadFills(c: Cache, rounds: nat, drain: bool)
    ensures ReloadRounds(c, rounds, drain).fslots >= c.fslots
    decreases rounds
  {
    hide CanRead, ReadSize;
    if rounds > 0 {
      var c1 := RecycleTail(c);
      if CanRead(c1, drain) {
        CanReadFits(c1, drain);
        ReloadFills(DiskRead(c1), rounds - 1, drain);
      }
    }
  }

  lemma {:induction false} ReloadNoneOut(c: Cache, rounds: nat, drain: bool)
    requires NoneOut(c.cells)
    ensures NoneOut(ReloadRounds(c, rounds, drain).cells)
    decreases rounds
  {
    hide CanRead, ReadSize;
    if rounds > 0 {
      var c1 := RecycleTail(c);
      if CanRead(c1, drain) {
        CanReadFits(c1, drain);
        ReloadNoneOut(DiskRead(c1), rounds - 1, drain);
      }
    }
  }

  /** A disk seek followed by pops and releases in any order, until there is nothing to pop, delivers exactly the
      stream from the byte asked for, if and only if that byte is at least a slot before the end, or is the end itself
      (a shorter rest is never read) and no pop took the last FULL slot while the slot at the tail was still out. */
  lemma SeekThenEndExact(c: Cache, stream: seq<Byte>, x: nat, steps: seq<Step>)
    requires Inv(c, stream) && c.DiskUsable() && c.lDk <= x <= c.hOffset
    requires var s := Sys(SeekDisk(c, x), stream, []); CanRun(s, steps) && PlaysOut(steps)
    requires PopBuffer(Run(Sys(SeekDisk(c, x), stream, []), steps).cache, true).None?
    ensures var s := Sys(SeekDisk(c, x), stream, []);
      Flatten(Run(s, steps).out) == stream[x..]
      <==> (c.hOffset - x >= SLOT_SIZE || x == c.hOffset) && AllFed(s, steps)
  {
    var s := Sys(SeekDisk(c, x), stream, []);
    SeekDiskExact(c, stream, x);
    SeekDiskFills(c, stream, x);
    assert HasMore(s.cache) <==> c.hOffset - x >= SLOT_SIZE || x == c.hOffset;
    assert Inv(s.cache, stream) && FilePlay(s.cache, stream);
    hide *;
    PlayOutExact(s, steps);
  }

  /** The same with each buffer let go before the next pop, on a ring of two slots or more: then every pop is fed. */
  lemma SeekThenDrainExact(c: Cache, stream: seq<Byte>, x: nat)
    requires Inv(c, stream) && c.DiskUsable() && c.lDk <= x <= c.hOffset && 2 <= c.nslots
    ensures var s := Sys(SeekDisk(c, x), stream, []);
      && Inv(s.cache, stream) && Linked(s.cache)
      && (Flatten(Drained(s, true, true).out) == stream[x..] <==> (c.hOffset - x >= SLOT_SIZE || x == c.hOffset))
  {
    SeekDiskExact(c, stream, x);
    SeekDiskFills(c, stream, x);
    var r := SeekDisk(c, x);
    NextOffsetBelowTotal(r, stream);
    hide Good, DiskGood, SeekDisk, NoneOut;
    DiskDrainExact(r, stream);
  }
}
