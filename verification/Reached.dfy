/** Runs that reach the inputs on which the exact conditions proved elsewhere fail. */
module Reached {
  import opened Bytes
  import opened CacheModel
  import opened SeekProofs
  import opened Runs
  import opened OrderlyRuns
  import opened Delivery
  import opened Playback
  import opened Underrun
  import opened Spoiled
  import D = Downstream
  import E = Element
  import S = Seeker
  import TsIndexer

  // ---------------------------------------------------------------------------------------------------------------
  // Recording started on the empty ring, and the migration over before anything arrives

  function EmptyRecorded(nslots: nat): Cache {
    Finish(StartRecording(New(nslots)))
  }

  function EmptySteps(nslots: nat): seq<Step> {
    [Record] + CopyTimes(nslots + 1)
  }

  lemma EmptyRuns(nslots: nat)
    requires 1 <= nslots
    ensures SafeRun(Start(nslots), EmptySteps(nslots))
    ensures Run(Start(nslots), EmptySteps(nslots)) == Sys(EmptyRecorded(nslots), [], [])
    ensures Inv(EmptyRecorded(nslots), [])
  {
    var s, c := Start(nslots), StartRecording(New(nslots));
    assert Safe(s.cache, Record) && Do(s, Record) == Sys(c, [], []);
    StartInv(nslots);
    StepInv(s, Record);
    InvOrderly(c, []);
    assert c.migration == Copying(0) && c.nslots == nslots;
    hide Do, Enabled, Safe, Run, CanRun, SafeRun, Inv, Orderly, Finish;
    RunOne(s, Record);
    CopiesFinish(Sys(c, [], []));
    RunConcat(s, [Record], CopyTimes(nslots + 1));
    RunInv(s, EmptySteps(nslots));
  }

  lemma EmptyFields(nslots: nat)
    requires 1 <= nslots
    ensures var c := EmptyRecorded(nslots);
      && c.DiskUsable() && c.migration.Finished? && c.hDk == INVALID_OFFSET && c.nslots == nslots
      && c.lDk == c.hOffset == c.hRb == c.lRb == c.wPos == c.rPos == 0
      && c.cells == [] && c.part == [] && !c.drained && c.head == 0 && c.fslots == 0
  {
    FinishKeepsRing(StartRecording(New(nslots)));
  }

  /** Nothing was ever pushed, and every offset but the invalid one is accepted. */
  lemma UnreceivedAccepted(nslots: nat, x: nat)
    requires 1 <= nslots && x < INVALID_OFFSET
    ensures SafeRun(Start(nslots), EmptySteps(nslots))
    ensures var s := Run(Start(nslots), EmptySteps(nslots));
      s.stream == [] && s.cache.DiskUsable() && HasOffset(s.cache, x)
  {
    EmptyRuns(nslots);
    EmptyFields(nslots);
  }

  function Migrations(k: nat): seq<E.Act> {
    if k == 0 then [] else [E.MigrationStep] + Migrations(k - 1)
  }

  /** The element while the migration goes on to its end. */
  lemma {:induction false} MigrationsGo(e: E.Elem)
    requires Orderly(e.cache) && e.cache.migration.Copying?
    ensures e.cache.migration.i <= e.cache.nslots
    ensures var acts := Migrations(e.cache.nslots + 1 - e.cache.migration.i);
      E.CanGo(e, acts) && E.Go(e, acts) == e.(cache := Finish(e.cache))
    decreases e.cache.nslots - e.cache.migration.i
  {
    hide E.Possible, E.Advance, E.CanGo, E.Go, Orderly, Finish, Migrate;
    SlotsFit(e.cache);
    MigrationMay(e);
    FinishStep(e.cache);
    MigrateOrderly(e.cache);
    var e1 := e.(cache := Migrate(e.cache));
    var rest := Migrations(e.cache.nslots - e.cache.migration.i);
    if e.cache.migration.i < e.cache.nslots {
      MigrationsGo(e1);
    } else {
      D.GoNone(e1);
    }
    D.GoMore(e, E.MigrationStep, rest);
  }

  lemma FinishStep(c: Cache)
    requires c.migration.Copying? && |c.cells| <= c.nslots && c.migration.i <= c.nslots
    ensures var r := Migrate(c);
      && Finish(c) == Finish(r) && r.nslots == c.nslots
      && if c.migration.i < c.nslots then r.migration == Copying(c.migration.i + 1) else Finish(r) == r
  {
    hide WriteAt, SlotBytes;
  }

  lemma MigrationMay(e: E.Elem)
    requires e.cache.migration.Copying? && |e.cache.cells| <= e.cache.nslots && e.cache.head <= |e.cache.cells|
    ensures E.Possible(e, E.MigrationStep) && E.Advance(e, E.MigrationStep) == e.(cache := Migrate(e.cache))
  {
    hide Migrate;
    MayCopy(e.cache);
  }

  /** The element has received nothing, a recording has been asked for and is complete; a seek to two bytes before the
      start is accepted, and leads to an offset just below the invalid one. */
  lemma SeekBeforeStart(nslots: nat, seek: S.SeekEvent)
    requires 1 <= nslots
    requires seek.format == TsIndexer.BYTES && seek.startType == S.SeekSet && seek.start == -2
    ensures var acts := [E.AskRecording] + Migrations(nslots + 1);
      && E.CanGo(E.Activated(nslots), acts)
      && var e := E.Go(E.Activated(nslots), acts);
         && e.stream == [] && E.Possible(e, E.SeekBegin(true, seek))
         && E.Advance(e, E.SeekBegin(true, seek)).seeking == Some(0xFFFF_FFFF_FFFF_FFFE)
  {
    var e0 := E.Activated(nslots);
    var c := StartRecording(New(nslots));
    var e1 := e0.(cache := c);
    assert E.Possible(e0, E.AskRecording) && E.Advance(e0, E.AskRecording) == e1;
    assert c.migration == Copying(0) && c.nslots == nslots;
    StartInv(nslots);
    InvOrderly(New(nslots), []);
    StartRecordingOrderly(New(nslots));
    EmptyFields(nslots);
    var e := e1.(cache := EmptyRecorded(nslots));
    E.SeekAcceptedUnbounded(e.cache, seek);
    assert E.Advance(e, E.SeekBegin(true, seek)).seeking == Some(E.SeekTarget(e.cache, seek));
    assert E.SeekTarget(e.cache, seek) == 0xFFFF_FFFF_FFFF_FFFE;
    assert E.Possible(e, E.SeekBegin(true, seek));
    hide E.Possible, E.Advance, E.CanGo, E.Go, Orderly, Inv, Finish, E.SeekTarget;
    MigrationsGo(e1);
    D.GoMore(e0, E.AskRecording, Migrations(nslots + 1));
  }

  // ---------------------------------------------------------------------------------------------------------------
  // Less than a slot, pushed into such a recording

  function ShortRest(nslots: nat, d: Piece): Cache {
    DiskWrite(EmptyRecorded(nslots), d)
  }

  lemma ShortRuns(nslots: nat, d: Piece)
    requires 1 <= nslots && d != []
    ensures var steps := EmptySteps(nslots) + [Write(d)];
      && SafeRun(Start(nslots), steps) && Run(Start(nslots), steps) == Sys(ShortRest(nslots, d), d, [])
      && Inv(ShortRest(nslots, d), d)
  {
    EmptyRuns(nslots);
    EmptyFields(nslots);
    ShortStep(nslots, d);
    hide Do, Enabled, Safe, Run, CanRun, SafeRun, Inv, EmptyRecorded, ShortRest;
    RunOne(Sys(EmptyRecorded(nslots), [], []), Write(d));
    RunConcat(Start(nslots), EmptySteps(nslots), [Write(d)]);
    StartInv(nslots);
    RunInv(Start(nslots), EmptySteps(nslots) + [Write(d)]);
  }

  lemma ShortStep(nslots: nat, d: Piece)
    requires 1 <= nslots && d != []
    ensures var s := Sys(EmptyRecorded(nslots), [], []);
      Safe(s.cache, Write(d)) && Do(s, Write(d)) == Sys(ShortRest(nslots, d), d, [])
  {
    EmptyFields(nslots);
    hide EmptyRecorded, WriteAt;
    var c := EmptyRecorded(nslots);
    var c1 := DiskWrite(c, d);
    NothingToRead(c1, ReloadCount(c1, false));
    hide ReloadCount, ReloadRounds, Reads, Touched;
    assert [] + d == d;
  }

  lemma NothingToRead(c: Cache, rounds: nat)
    requires c.cells == [] && c.rPos == 0 && c.wPos < SLOT_SIZE
    ensures ReloadRounds(c, rounds, false) == c && Reads(c, rounds, false) == Touched(c, rounds, false) == 0
  {
  }

  /** Playback is sent to the start of what has been received, less than a slot; whatever is popped then, draining or
      not, comes out empty. */
  lemma ShortRestLost(nslots: nat, d: Piece, drain: bool)
    requires 1 <= nslots && d != []
    ensures var steps := EmptySteps(nslots) + [Write(d), SeekTo(0)];
      && SafeRun(Start(nslots), steps)
      && var s := Run(Start(nslots), steps);
         s.stream == d && PopBuffer(s.cache, drain).None? && PopCache(s.cache, drain) == s.cache
  {
    ShortRuns(nslots, d);
    ShortSeek(nslots, d);
    var t := Sys(ShortRest(nslots, d), d, []);
    hide Do, Enabled, Safe, Run, CanRun, SafeRun, Inv, ShortRest, PopBuffer, PopCache;
    RunOne(t, SeekTo(0));
    RunConcat(Start(nslots), EmptySteps(nslots) + [Write(d)], [SeekTo(0)]);
    assert EmptySteps(nslots) + [Write(d)] + [SeekTo(0)] == EmptySteps(nslots) + [Write(d), SeekTo(0)];
  }

  lemma ShortSeek(nslots: nat, d: Piece)
    requires 1 <= nslots && d != []
    ensures var t := Sys(ShortRest(nslots, d), d, []);
      && Safe(t.cache, SeekTo(0))
      && var r := Do(t, SeekTo(0));
         r.stream == d && PopBuffer(r.cache, false).None? && PopBuffer(r.cache, true).None?
         && PopCache(r.cache, false) == r.cache == PopCache(r.cache, true)
  {
    EmptyFields(nslots);
    hide EmptyRecorded, WriteAt;
    var c := ShortRest(nslots, d);
    var f := Flush(c).(rPos := 0, hRb := 0, lRb := 0);
    NothingToRead(f, ReloadCount(f, false));
    hide ReloadCount, ReloadRounds;
    assert Seek(c, 0) == f;
    assert d + [] == d;
  }

  // ---------------------------------------------------------------------------------------------------------------
  // The consumer has caught up with a full ring

  /** A ring of any size is filled and played out; then a seek to its start finds the oldest slot in front of the ones
      let go: the slots that can be popped are no longer one stretch. */
  lemma SeekWrapsWrong(nslots: nat, s: seq<Byte>)
    requires 2 <= nslots && |s| == nslots * SLOT_SIZE < INVALID_OFFSET
    ensures var steps := FillSteps(s, nslots) + PopSteps(nslots);
      && SafeRun(Start(nslots), steps)
      && var c := Run(Start(nslots), steps).cache;
         && Inv(c, s) && NoneOut(c.cells) && HasOffset(c, 0) && c.lRb == 0 < c.hRb
         && !Landed(Seek(c, 0), 0) && !Shape(Seek(c, 0)) && !Enabled(c, SeekTo(0))
  {
    FilledPlayable(nslots, s);
    WrappedSeek(nslots, s);
    var t := Sys(Filled(nslots, s, nslots), s, []);
    assert s[..nslots * SLOT_SIZE] == s;
    hide Run, CanRun, SafeRun, Enabled, Safe, Inv, Filled, Playable, PlayedOff, Seek, Landed, Shape, NoneOut, HasOffset;
    FillRuns(nslots, s, nslots);
    PopsRun(t, nslots);
    RunConcat(Start(nslots), FillSteps(s, nslots), PopSteps(nslots));
    StartInv(nslots);
    RunInv(Start(nslots), FillSteps(s, nslots) + PopSteps(nslots));
  }

  lemma FilledPlayable(nslots: nat, s: seq<Byte>)
    requires nslots * SLOT_SIZE <= |s|
    ensures Playable(Filled(nslots, s, nslots)) && |Filled(nslots, s, nslots).cells| == nslots
  {
  }

  lemma WrappedSeek(nslots: nat, s: seq<Byte>)
    requires 2 <= nslots && |s| == nslots * SLOT_SIZE < INVALID_OFFSET && |Filled(nslots, s, nslots).cells| == nslots
    ensures var c := PlayedOff(Filled(nslots, s, nslots), nslots);
      && NoneOut(c.cells) && HasOffset(c, 0) && c.lRb == 0 < c.hRb
      && !Landed(Seek(c, 0), 0) && !Shape(Seek(c, 0)) && !Enabled(c, SeekTo(0))
  {
    var c := PlayedOff(Filled(nslots, s, nslots), nslots);
    var cells := Cells(s, nslots);
    hide Cells;
    assert forall i :: 0 <= i < nslots ==> c.cells[i] == cells[i].(state := Recycle);
    assert c.cells[0].End() == SLOT_SIZE && Locate(c.cells, 0) == 0;
    hide Locate;
    var r := Seek(c, 0);
    assert r == SeekWrapped(c, 0);
    assert r.cells[1].state == Recycle && r.head == 0;
    assert !InOrder(r.cells, r.head);
  }

  // ---------------------------------------------------------------------------------------------------------------
  // An explicit start with a PART slot

  /** One slot is full and the next one partly filled. */
  function FullAndPart(nslots: nat, a: Slotful, d: Piece): Cache {
    New(nslots).(cells := [Cell(Full, 0, a)], fslots := 1, part := d, hRb := SLOT_SIZE, hOffset := SLOT_SIZE + |d|)
  }

  lemma FullAndPartRuns(nslots: nat, a: Slotful, d: Piece)
    requires 2 <= nslots && d != []
    ensures var steps := [Write(a), Write(d)];
      SafeRun(Start(nslots), steps) && Run(Start(nslots), steps) == Sys(FullAndPart(nslots, a, d), a + d, [])
  {
    var s := Start(nslots);
    var t := Sys(FullAndPart(nslots, a, []), a, []);
    ChunkFits(s.cache, a);
    assert [] + [Cell(Full, 0, a)] == [Cell(Full, 0, a)] && [] + a == a;
    assert Safe(s.cache, Write(a)) && Do(s, Write(a)) == t;
    assert d[..|d|] == d && d[|d|..] == [] && [] + d == d;
    assert PushRound(t.cache, d) == (FullAndPart(nslots, a, d), []);
    assert Safe(t.cache, Write(d)) && Do(t, Write(d)) == Sys(FullAndPart(nslots, a, d), a + d, []);
    hide Do, Enabled, Safe;
    RunTwo(s, Write(a), Write(d));
  }

  /** The application asks for a recording now: the migrator begins with the tail, the PART slot, and the finished file
      has the newer bytes in front of the older ones. */
  lemma PartCopiedFirst(nslots: nat, a: Slotful, d: Piece)
    requires 2 <= nslots && d != []
    ensures SafeRun(Start(nslots), [Write(a), Write(d)])
    ensures var s := Run(Start(nslots), [Write(a), Write(d)]);
      && s.stream == a + d && Shape(s.cache) && !CopiesInOrder(s.cache)
      && var r := Finish(StartRecording(s.cache));
         r.migration.Finished? && r.lDk == 0 && r.file == d + a
  {
    FullAndPartRuns(nslots, a, d);
    var c := FullAndPart(nslots, a, d);
    assert Shape(c) by {
      assert Contiguous(c.cells, c.lRb, c.hRb) && InOrder(c.cells, c.head);
    }
    hide Run, CanRun, SafeRun;
    CopyOrderExact(c);
    hide Shape, CopiesInOrder, Finish, WriteAt;
    FinishWrites(StartRecording(c));
    PartThenSlot(nslots, a, d);
  }

  lemma PartThenSlot(nslots: nat, a: Slotful, d: Piece)
    requires 2 <= nslots && d != []
    ensures var c := StartRecording(FullAndPart(nslots, a, d));
      WriteAll([], 0, Pending(c, 0, nslots)) == d + a
  {
    var c := StartRecording(FullAndPart(nslots, a, d));
    var pieces := Pending(c, 0, nslots);
    assert SlotBytes(c, 0) == d;
    assert pieces[1..] == Pending(c, 1, nslots - 1);
    assert WriteAt([], 0, d) == d;
    hide WriteAt;
    SlotBehindBlanks(c, 1, nslots - 1, d, |d|, a);
    WriteBehind(d, a);
  }

  lemma WriteBehind(d: seq<Byte>, a: seq<Byte>)
    ensures WriteAt(d, |d|, a) == d + a
  {
  }

  /** From place `p` on there are EMPTY slots and then the one cell. */
  lemma {:induction false} SlotBehindBlanks(c: Cache, p: nat, left: nat, file: seq<Byte>, pos: nat, a: Slotful)
    requires |c.cells| == 1 < c.nslots && c.cells[0].bytes == a && !c.drained
    requires 1 <= p && p + left == c.nslots && left > 0
    ensures WriteAll(file, pos, Pending(c, p, left)) == WriteAt(file, pos, a)
    decreases left
  {
    var pieces := Pending(c, p, left);
    assert pieces[1..] == Pending(c, After(c.nslots, p), left - 1);
    if left > 1 {
      assert SlotBytes(c, p) == [] && WriteAt(file, pos, []) == file;
      SlotBehindBlanks(c, p + 1, left - 1, file, pos, a);
    } else {
      assert SlotBytes(c, p) == a;
    }
  }
}
