/** Runs that reach the reloads `Underrun` warns of, on rings of any size, and what then goes wrong. */
module Spoiled {
  import opened Bytes
  import opened CacheModel
  import opened DiskProofs
  import opened Runs
  import opened OrderlyRuns
  import opened Delivery
  import opened Playback
  import opened Underrun

  /** A slot's worth of bytes. */
  type Slotful = s: seq<Byte> | |s| == SLOT_SIZE witness Zeros(SLOT_SIZE)

  /** The number of slots is a 32-bit one. */
  predicate RingSize(nslots: nat) {
    2 <= nslots < 0x1_0000_0000
  }

  // ---------------------------------------------------------------------------------------------------------------
  // Recording started on an empty ring: the migrator is ahead of the reads

  function AheadOfReads(nslots: nat): Cache {
    New(nslots).(mDk := 0, lDk := 0, wPos := 0, mNext := 1, recording := true, migration := Copying(1), refs := 2)
  }

  lemma AheadIsReached(nslots: nat)
    requires RingSize(nslots)
    ensures SafeRun(Start(nslots), [Record, Copy])
    ensures Run(Start(nslots), [Record, Copy]) == Sys(AheadOfReads(nslots), [], [])
    ensures Inv(AheadOfReads(nslots), [])
  {
    var s := Start(nslots);
    var s1 := Do(s, Record);
    assert s1 == Sys(StartRecording(s.cache), [], []);
    var s2 := Do(s1, Copy);
    assert s2 == Sys(AheadOfReads(nslots), [], []);
    StartInv(nslots);
    StepInv(s, Record);
    StepInv(s1, Copy);
    hide Inv, Do, Enabled, Safe;
    RunTwo(s, Record, Copy);
  }

  /** The two slots' worth just pushed, read into the first two slots. */
  function TwoRead(nslots: nat, a: Slotful, b: Slotful): Cache
    requires RingSize(nslots)
  {
    AheadOfReads(nslots).(
      cells := [Cell(Full, 0, a), Cell(Full, SLOT_SIZE, b)], fslots := 2,
      hOffset := 2 * SLOT_SIZE, hRb := 2 * SLOT_SIZE,
      hDk := 2 * SLOT_SIZE, file := a + b, wPos := 2 * SLOT_SIZE, rPos := 2 * SLOT_SIZE, mNext := nslots - 1)
  }

  lemma PushReadsTwo(nslots: nat, a: Slotful, b: Slotful)
    requires RingSize(nslots)
    ensures Push(AheadOfReads(nslots), a + b) == TwoRead(nslots, a, b)
    ensures var c1 := DiskWrite(AheadOfReads(nslots), a + b);
      Reads(c1, ReloadCount(c1, false), false) == Touched(c1, ReloadCount(c1, false), false) == 2
  {
    var c1 := DiskWrite(AheadOfReads(nslots), a + b);
    assert c1.file == a + b;
    assert (a + b)[0..SLOT_SIZE] == a && (a + b)[SLOT_SIZE..2 * SLOT_SIZE] == b;
    var d1 := c1.(cells := [Cell(Full, 0, a)], fslots := 1, hRb := SLOT_SIZE, rPos := SLOT_SIZE, mNext := 0);
    var d2 := TwoRead(nslots, a, b);
    assert RecycleTail(c1) == c1 && CanRead(c1, false) && DiskRead(c1) == d1;
    assert RecycleTail(d1) == d1 && CanRead(d1, false) && DiskRead(d1) == d2 by {
      assert [Cell(Full, 0, a)] + [Cell(Full, SLOT_SIZE, b)] == d2.cells;
    }
    assert RecycleTail(d2) == d2 && !CanRead(d2, false);
    var k := ReloadCount(c1, false);
    assert k >= 2;
    hide RecycleTail, CanRead, DiskRead, ReloadCount;
    TwoRounds(c1, d1, d2, k);
  }

  lemma TwoRounds(c: Cache, d1: Cache, d2: Cache, k: nat)
    requires RecycleTail(c) == c && CanRead(c, false) && DiskRead(c) == d1
    requires RecycleTail(d1) == d1 && CanRead(d1, false) && DiskRead(d1) == d2
    requires RecycleTail(d2) == d2 && !CanRead(d2, false) && k >= 2
    ensures ReloadRounds(c, k, false) == d2 && Reads(c, k, false) == 2 && Touched(c, k, false) == 2
  {
    hide RecycleTail, CanRead, DiskRead;
    assert ReloadRounds(d2, k - 2, false) == d2 && Reads(d2, k - 2, false) == 0 && Touched(d2, k - 2, false) == 0;
    assert ReloadRounds(d1, k - 1, false) == d2 && Reads(d1, k - 1, false) == 1 && Touched(d1, k - 1, false) == 1;
  }

  lemma {:induction false} NothingPending(c: Cache, p: nat, left: nat, file: seq<Byte>, pos: nat)
    requires |c.cells| <= c.nslots && p + left <= c.nslots - |c.cells| && c.part == [] && !c.drained
    ensures WriteAll(file, pos, Pending(c, p, left)) == file
    decreases left
  {
    if left > 0 {
      assert SlotBytes(c, p) == [];
      assert Pending(c, p, left)[1..] == Pending(c, After(c.nslots, p), left - 1);
      if left > 1 {
        NothingPending(c, p + 1, left - 1, file, pos);
      }
    }
  }

  /** The migrator has passed the first slot, EMPTY, when two slots' worth arrive: the reload reads them into the first
      two slots, and the migrator puts the second one where the first belongs. On every ring of two slots or more the
      finished file is true only if both are alike. */
  lemma EmptyStartSpoiled(nslots: nat, a: Slotful, b: Slotful)
    requires RingSize(nslots)
    ensures SafeRun(Start(nslots), [Record, Copy])
    ensures var c := Run(Start(nslots), [Record, Copy]).cache;
      && Inv(c, []) && Enabled(c, Write(a + b)) && !Safe(c, Write(a + b))
      && var r := Finish(Push(c, a + b));
         r.migration.Finished? && r.file == b + b && (FileTrue(r, a + b) <==> a == b)
  {
    AheadIsReached(nslots);
    PushReadsTwo(nslots, a, b);
    var d := TwoRead(nslots, a, b);
    NotSpared(nslots, a, b);
    hide Inv, Run, CanRun, SafeRun, Push, Enabled, Safe, Finish, WriteAt, FileTrue;
    FinishWrites(d);
    LastOnly(nslots, a, b);
    SpoiledIff(a, b, Finish(d));
  }

  lemma NotSpared(nslots: nat, a: Slotful, b: Slotful)
    requires RingSize(nslots)
    requires var c1 := DiskWrite(AheadOfReads(nslots), a + b);
      Reads(c1, ReloadCount(c1, false), false) == Touched(c1, ReloadCount(c1, false), false) == 2
    ensures var c := AheadOfReads(nslots); Enabled(c, Write(a + b)) && !Safe(c, Write(a + b))
  {
    hide Reads, Touched, ReloadCount, WriteAt;
    var c1 := DiskWrite(AheadOfReads(nslots), a + b);
    assert !Spares(c1, ReloadCount(c1, false), false);
  }

  lemma LastOnly(nslots: nat, a: Slotful, b: Slotful)
    requires RingSize(nslots)
    ensures var d := TwoRead(nslots, a, b); WriteAll(a + b, 0, Pending(d, nslots - 1, nslots - 1)) == b + b
  {
    var d := TwoRead(nslots, a, b);
    var pieces := Pending(d, nslots - 1, nslots - 1);
    assert SlotBytes(d, nslots - 1) == b;
    assert pieces[0] == b && pieces[1..] == Pending(d, 0, nslots - 2);
    assert (a + b)[..0] == [] && (a + b)[SLOT_SIZE..] == b;
    assert WriteAt(a + b, 0, b) == b + b;
    NothingPending(d, 0, nslots - 2, b + b, SLOT_SIZE);
  }

  lemma SpoiledIff(a: Slotful, b: Slotful, r: Cache)
    requires r.migration.Finished? && r.lDk == 0 && r.file == b + b
    ensures FileTrue(r, a + b) <==> a == b
  {
    assert (a + b)[0..] == a + b && (b + b)[0..0 + |a + b|] == b + b;
    if b + b == a + b {
      assert (b + b)[..SLOT_SIZE] == b && (a + b)[..SLOT_SIZE] == a;
    }
  }

  // ---------------------------------------------------------------------------------------------------------------
  // A ring that is filled, and overflows

  /** The `i`-th slot's worth of `s`. */
  function Chunk(s: seq<Byte>, i: nat): Slotful
    requires (i + 1) * SLOT_SIZE <= |s|
  {
    s[i * SLOT_SIZE..(i + 1) * SLOT_SIZE]
  }

  function Cells(s: seq<Byte>, k: nat): (r: seq<Cell>)
    requires k * SLOT_SIZE <= |s|
    ensures |r| == k && forall i :: 0 <= i < k ==> r[i] == Cell(Full, i * SLOT_SIZE, Chunk(s, i))
  {
    if k == 0 then [] else Cells(s, k - 1) + [Cell(Full, (k - 1) * SLOT_SIZE, Chunk(s, k - 1))]
  }

  /** The cache after the first `k` slots' worth of `s`. */
  function Filled(nslots: nat, s: seq<Byte>, k: nat): Cache
    requires k * SLOT_SIZE <= |s|
  {
    New(nslots).(cells := Cells(s, k), fslots := k, hOffset := k * SLOT_SIZE, hRb := k * SLOT_SIZE)
  }

  function FillSteps(s: seq<Byte>, k: nat): seq<Step>
    requires k * SLOT_SIZE <= |s|
  {
    if k == 0 then [] else FillSteps(s, k - 1) + [Write(Chunk(s, k - 1))]
  }

  lemma FillStep(nslots: nat, s: seq<Byte>, k: nat)
    requires k < nslots && (k + 1) * SLOT_SIZE <= |s| < INVALID_OFFSET
    ensures var data := Chunk(s, k);
      && Safe(Filled(nslots, s, k), Write(data))
      && Do(Sys(Filled(nslots, s, k), s[..k * SLOT_SIZE], []), Write(data))
         == Sys(Filled(nslots, s, k + 1), s[..(k + 1) * SLOT_SIZE], [])
  {
    var c, data := Filled(nslots, s, k), Chunk(s, k);
    assert s[..k * SLOT_SIZE] + data == s[..(k + 1) * SLOT_SIZE];
    hide Chunk, Cells;
    assert Cells(s, k + 1) == Cells(s, k) + [Cell(Full, k * SLOT_SIZE, data)] by {
      CellsNext(s, k);
    }
    ChunkFits(c, data);
  }

  lemma CellsNext(s: seq<Byte>, k: nat)
    requires (k + 1) * SLOT_SIZE <= |s|
    ensures Cells(s, k + 1) == Cells(s, k) + [Cell(Full, k * SLOT_SIZE, Chunk(s, k))]
  {
  }

  /** A slot's worth pushed into a ring with an EMPTY slot at the tail fills it. */
  lemma ChunkFits(c: Cache, data: Slotful)
    requires !c.drained && |c.cells| < c.nslots && c.part == []
    ensures PushRound(c, data) ==
            (c.(cells := c.cells + [Cell(Full, c.hRb, data)], fslots := c.fslots + 1,
                hRb := c.hRb + SLOT_SIZE, hOffset := c.hOffset + SLOT_SIZE), [])
    ensures data[..|data|] == data
  {
    assert data[..SLOT_SIZE] == data && [] + data == data && data[SLOT_SIZE..] == [];
  }

  lemma {:induction false} FillRuns(nslots: nat, s: seq<Byte>, k: nat)
    requires k <= nslots && k * SLOT_SIZE <= |s| < INVALID_OFFSET
    ensures SafeRun(Start(nslots), FillSteps(s, k))
    ensures Run(Start(nslots), FillSteps(s, k)) == Sys(Filled(nslots, s, k), s[..k * SLOT_SIZE], [])
  {
    hide Do, Enabled, Safe, Run, CanRun, SafeRun;
    if k == 0 {
      RunNone(Start(nslots));
      assert s[..0] == [];
    } else {
      FillRuns(nslots, s, k - 1);
      FillStep(nslots, s, k - 1);
      var t := Sys(Filled(nslots, s, k - 1), s[..(k - 1) * SLOT_SIZE], []);
      var step := Write(Chunk(s, k - 1));
      RunOne(t, step);
      RunConcat(Start(nslots), FillSteps(s, k - 1), [step]);
    }
  }

  /** The full ring after the rest of `s`, which went to the file. */
  function Overflowed(nslots: nat, s: seq<Byte>): Cache
    requires nslots * SLOT_SIZE < |s|
  {
    DiskWrite(StartRecording(Filled(nslots, s, nslots)), s[nslots * SLOT_SIZE..])
  }

  function OverflowSteps(nslots: nat, s: seq<Byte>): seq<Step>
    requires nslots * SLOT_SIZE < |s|
  {
    FillSteps(s, nslots) + [Write(s[nslots * SLOT_SIZE..])]
  }

  lemma OverflowRuns(nslots: nat, s: seq<Byte>)
    requires 1 <= nslots && nslots * SLOT_SIZE < |s| < INVALID_OFFSET
    ensures SafeRun(Start(nslots), OverflowSteps(nslots, s))
    ensures Run(Start(nslots), OverflowSteps(nslots, s)) == Sys(Overflowed(nslots, s), s, [])
    ensures Inv(Overflowed(nslots, s), s)
  {
    OverflowStep(nslots, s);
    hide Do, Enabled, Safe, Run, CanRun, SafeRun, Overflowed, Inv;
    FillRuns(nslots, s, nslots);
    var t, step := Sys(Filled(nslots, s, nslots), s[..nslots * SLOT_SIZE], []), Write(s[nslots * SLOT_SIZE..]);
    RunOne(t, step);
    RunConcat(Start(nslots), FillSteps(s, nslots), [step]);
    StartInv(nslots);
    RunInv(Start(nslots), OverflowSteps(nslots, s));
  }

  lemma OverflowStep(nslots: nat, s: seq<Byte>)
    requires 1 <= nslots && nslots * SLOT_SIZE < |s| < INVALID_OFFSET
    ensures var t, step := Sys(Filled(nslots, s, nslots), s[..nslots * SLOT_SIZE], []), Write(s[nslots * SLOT_SIZE..]);
      Safe(t.cache, step) && Do(t, step) == Sys(Overflowed(nslots, s), s, [])
  {
    hide WriteAt;
    var c, data := Filled(nslots, s, nslots), s[nslots * SLOT_SIZE..];
    assert c.cells[0].state == Full;
    assert RecycleTail(c) == c && !TailFree(c);
    assert PushRound(c, data) == (Overflowed(nslots, s), []);
    assert data[..|data|] == data && s[..nslots * SLOT_SIZE] + data == s;
  }

  /** A ring of FULL slots that is not refilled from the file. */
  predicate Playable(c: Cache) {
    && !c.DiskUsable() && c.head == 0 && c.fslots == |c.cells| <= c.nslots
    && forall i :: 0 <= i < |c.cells| ==> c.cells[i].state == Full
  }

  /** The consumer has popped `k` of its slots, and downstream has let go of them. */
  function PlayedOff(c: Cache, k: nat): Cache
    requires k <= |c.cells|
  {
    c.(cells := Flip(c.cells, 0, k, Full, Recycle), head := k, fslots := c.fslots - k,
       needDiscont := k == 0 && c.needDiscont)
  }

  function PopSteps(k: nat): seq<Step> {
    if k == 0 then [] else PopSteps(k - 1) + [TakeOut(false), LetGo(k - 1)]
  }

  lemma OverflowedFields(nslots: nat, s: seq<Byte>)
    requires 1 <= nslots && nslots * SLOT_SIZE < |s| < INVALID_OFFSET
    ensures var c := Overflowed(nslots, s);
      && c.nslots == nslots && c.cells == Cells(s, nslots) && c.head == 0 && c.fslots == nslots && c.needDiscont
      && c.recording && !c.migrated && c.migration == Copying(0) && c.mNext == 0 && c.part == [] && !c.drained
      && c.mDk == 0 && c.mPos == 0 && c.rPos == 0 && c.lDk == c.hRb == nslots * SLOT_SIZE
      && c.hOffset == c.wPos == |s|
  {
    hide WriteAt, Cells;
  }

  lemma PopStep(t: Sys, c: Cache, k: nat)
    requires Playable(c) && k < |c.cells| && t.cache == PlayedOff(c, k)
    ensures Safe(t.cache, TakeOut(false)) && Safe(Do(t, TakeOut(false)).cache, LetGo(k))
    ensures var r := Do(Do(t, TakeOut(false)), LetGo(k));
      r.cache == PlayedOff(c, k + 1) && r.stream == t.stream
  {
    var d := t.cache;
    assert d.cells[k] == c.cells[k] && d.cells[k].state == Full;
    var d1 := PopCache(d, false);
    assert d1 == TakeHead(d);
    assert Release(d1, k).cells == PlayedOff(c, k + 1).cells;
    assert t.stream + [] == t.stream;
  }

  lemma {:induction false} PopsRun(t: Sys, k: nat)
    requires Playable(t.cache) && k <= |t.cache.cells|
    ensures SafeRun(t, PopSteps(k))
    ensures Run(t, PopSteps(k)).cache == PlayedOff(t.cache, k) && Run(t, PopSteps(k)).stream == t.stream
  {
    hide Do, Enabled, Safe, Run, CanRun, SafeRun, PlayedOff, Playable;
    if k == 0 {
      RunNone(t);
      NonePopped(t.cache);
    } else {
      PopsRun(t, k - 1);
      var r := Run(t, PopSteps(k - 1));
      PopStep(r, t.cache, k - 1);
      RunTwo(r, TakeOut(false), LetGo(k - 1));
      RunConcat(t, PopSteps(k - 1), [TakeOut(false), LetGo(k - 1)]);
    }
  }

  lemma NonePopped(c: Cache)
    requires Playable(c)
    ensures PlayedOff(c, 0) == c
  {
    assert Flip(c.cells, 0, 0, Full, Recycle) == c.cells;
  }

  /** A ring of any size is filled, overflows, and is played out before the migrator has looked at its first slot. Then
      the next push, whatever it is, is one that `UnderrunExact` says can spoil the finished file. */
  lemma UnderrunIsReached(nslots: nat, s: seq<Byte>)
    requires 1 <= nslots && nslots * SLOT_SIZE < |s| < INVALID_OFFSET
    ensures var steps := OverflowSteps(nslots, s) + PopSteps(nslots);
      && SafeRun(Start(nslots), steps)
      && var c := Run(Start(nslots), steps).cache;
         && Inv(c, s) && c.fslots == 0 && c.migration == Copying(0)
         && forall data: seq<Byte> :: !Spares(DiskWrite(c, data), ReloadCount(DiskWrite(c, data), false), false)
  {
    OverflowedFields(nslots, s);
    hide Run, CanRun, SafeRun, Inv, PlayedOff, Overflowed;
    var t := Sys(Overflowed(nslots, s), s, []);
    OverflowRuns(nslots, s);
    PopsRun(t, nslots);
    RunConcat(Start(nslots), OverflowSteps(nslots, s), PopSteps(nslots));
    var steps := OverflowSteps(nslots, s) + PopSteps(nslots);
    StartInv(nslots);
    RunInv(Start(nslots), steps);
    PlayedOut(nslots, s);
  }

  lemma PlayedOut(nslots: nat, s: seq<Byte>)
    requires 1 <= nslots && nslots * SLOT_SIZE < |s| < INVALID_OFFSET
    ensures |Overflowed(nslots, s).cells| == nslots
    ensures var c := PlayedOff(Overflowed(nslots, s), nslots);
      && c.fslots == 0 && c.migration == Copying(0)
      && forall data: seq<Byte> :: !Spares(DiskWrite(c, data), ReloadCount(DiskWrite(c, data), false), false)
  {
    OverflowedFields(nslots, s);
    hide Overflowed;
    var c := PlayedOff(Overflowed(nslots, s), nslots);
    assert c.cells[0] == Cells(s, nslots)[0].(state := Recycle);
    forall data: seq<Byte>
      ensures !Spares(DiskWrite(c, data), ReloadCount(DiskWrite(c, data), false), false)
    {
      hide WriteAt, Touched, Reads;
      var c1 := DiskWrite(c, data);
      assert RecycleTail(c1) != c1;
      TouchedOnce(c1, ReloadCount(c1, false), false);
    }
  }

  // ---------------------------------------------------------------------------------------------------------------
  // Playing on after such a migration

  /** The migrator's own steps lead to what `Finish` says. */
  lemma {:induction false} CopiesFinish(t: Sys)
    requires Orderly(t.cache) && t.cache.migration.Copying?
    ensures t.cache.migration.i <= t.cache.nslots
    ensures var steps := CopyTimes(t.cache.nslots + 1 - t.cache.migration.i);
      SafeRun(t, steps) && Run(t, steps) == Sys(Finish(t.cache), t.stream, t.out)
    decreases t.cache.nslots - t.cache.migration.i
  {
    hide Orderly, Do, Enabled, Safe, Run, CanRun, SafeRun, Migrate;
    CopyStep(t);
    SlotsFit(t.cache);
    var t1 := Do(t, Copy);
    DoCopy(t);
    var rest := CopyTimes(t.cache.nslots - t.cache.migration.i);
    assert ([Copy] + rest)[1..] == rest;
    if t.cache.migration.i < t.cache.nslots {
      CopiesFinish(t1);
    } else {
      RunNone(t1);
    }
    RunMore(t, [Copy] + rest);
  }

  /** The migration touches the file only. */
  lemma {:induction false} FinishKeepsRing(c: Cache)
    requires c.migration.Copying? && |c.cells| <= c.nslots && c.migration.i <= c.nslots
    ensures var r := Finish(c);
      && r == c.(file := r.file, mPos := r.mPos, mNext := r.mNext, migration := Finished, migrated := true,
                 lDk := c.mDk, refs := c.refs - 1)
    decreases c.nslots - c.migration.i
  {
    hide WriteAt, SlotBytes, After;
    if c.migration.i < c.nslots {
      FinishKeepsRing(Migrate(c));
    }
  }

  /** The overflowed ring after the migration, with nothing popped. */
  function Migrated(nslots: nat, s: seq<Byte>): Cache
    requires nslots * SLOT_SIZE < |s|
  {
    Finish(Overflowed(nslots, s))
  }

  lemma MigratedFields(nslots: nat, s: seq<Byte>)
    requires 1 <= nslots && nslots * SLOT_SIZE < |s| < INVALID_OFFSET
    ensures var c := Migrated(nslots, s);
      && Inv(c, s) && c.migration.Finished? && c.DiskUsable()
      && c.nslots == nslots && c.cells == Cells(s, nslots) && c.head == 0 && c.fslots == nslots && c.needDiscont
      && c.part == [] && !c.drained && c.rPos == 0 && c.lDk == 0 && c.hRb == nslots * SLOT_SIZE
      && c.hOffset == c.wPos == |s| <= |c.file| && c.file[..SLOT_SIZE] == s[..SLOT_SIZE]
  {
    var c := Overflowed(nslots, s);
    OverflowRuns(nslots, s);
    OverflowedFields(nslots, s);
    hide Overflowed, Inv;
    InvBounds(c, s);
    FinishKeepsRing(c);
    FinishInv(c, s);
    FinishGood(c, s);
    hide Finish;
    var r := Finish(c);
    assert s[0..] == s;
    assert r.file[0..|s|] == s;
    assert r.file[..SLOT_SIZE] == r.file[0..|s|][..SLOT_SIZE];
  }

  lemma {:induction false} FinishInv(c: Cache, stream: seq<Byte>)
    requires Inv(c, stream) && c.migration.Copying?
    ensures Inv(Finish(c), stream)
    decreases c.nslots - c.migration.i
  {
    InvBounds(c, stream);
    hide Inv, Migrate;
    CopyInv(c, stream);
    if c.migration.i < c.nslots {
      MigrateCopies(c);
      FinishInv(Migrate(c), stream);
    }
  }

  /** One slot popped, and let go. */
  function OnePlayed(nslots: nat, s: seq<Byte>): Cache
    requires nslots * SLOT_SIZE < |s|
  {
    var c := Migrated(nslots, s);
    if c.cells == [] then c
    else c.(cells := c.cells[0 := c.cells[0].(state := Recycle)], head := 1, fslots := c.fslots - 1,
            needDiscont := false)
  }

  function PlaySteps(nslots: nat, s: seq<Byte>): seq<Step>
    requires nslots * SLOT_SIZE < |s|
  {
    OverflowSteps(nslots, s) + CopyTimes(nslots + 1) + [TakeOut(false), LetGo(0)]
  }

  /** The first pop is safe: its reload finds the tail slot still out. */
  lemma FirstPopStep(nslots: nat, s: seq<Byte>)
    requires 1 <= nslots && nslots * SLOT_SIZE < |s| < INVALID_OFFSET
    ensures var t := Sys(Migrated(nslots, s), s, []);
      && Safe(t.cache, TakeOut(false)) && Safe(Do(t, TakeOut(false)).cache, LetGo(0))
      && var r := Do(Do(t, TakeOut(false)), LetGo(0));
         r.cache == OnePlayed(nslots, s) && r.stream == s
  {
    MigratedFields(nslots, s);
    hide Migrated, Inv;
    var c := Migrated(nslots, s);
    assert c.cells[0].state == Full;
    var c1 := TakeHead(c);
    TailOut(c1, ReloadCount(c1, false), false);
    assert s + [] == s;
    hide ReloadRounds, Reads, ReloadCount;
    assert PopCache(c, false) == c1;
    assert Release(c1, 0).cells == OnePlayed(nslots, s).cells;
  }

  /** A reload of a full ring whose oldest slot is still out does nothing. */
  lemma TailOut(c: Cache, rounds: nat, drain: bool)
    requires 0 < |c.cells| == c.nslots && c.cells[0].state == Pop
    ensures ReloadRounds(c, rounds, drain) == c && Reads(c, rounds, drain) == Touched(c, rounds, drain) == 0
  {
    hide ReadSize;
  }

  lemma PlayRuns(nslots: nat, s: seq<Byte>)
    requires 1 <= nslots && nslots * SLOT_SIZE < |s| < INVALID_OFFSET
    ensures SafeRun(Start(nslots), PlaySteps(nslots, s))
    ensures Run(Start(nslots), PlaySteps(nslots, s)).cache == OnePlayed(nslots, s)
    ensures Run(Start(nslots), PlaySteps(nslots, s)).stream == s
  {
    OverflowedFields(nslots, s);
    hide Do, Enabled, Safe, Run, CanRun, SafeRun, Overflowed, Inv, Orderly, Finish, OnePlayed;
    OverflowRuns(nslots, s);
    var t := Sys(Overflowed(nslots, s), s, []);
    InvOrderly(t.cache, s);
    CopiesFinish(t);
    RunConcat(Start(nslots), OverflowSteps(nslots, s), CopyTimes(nslots + 1));
    FirstPopStep(nslots, s);
    var u := Sys(Migrated(nslots, s), s, []);
    RunTwo(u, TakeOut(false), LetGo(0));
    RunConcat(Start(nslots), OverflowSteps(nslots, s) + CopyTimes(nslots + 1), [TakeOut(false), LetGo(0)]);
  }

  function Pops(c: Cache, k: nat): Cache
    decreases k
  {
    if k == 0 then c else Pops(PopCache(c, false), k - 1)
  }

  /** A full ring whose oldest slot is out, with all slots from the head on FULL. */
  predicate Stuck(c: Cache) {
    && 0 < |c.cells| == c.nslots && c.cells[0].state == Pop && 0 < c.head && c.head + c.fslots == |c.cells|
    && !c.needDiscont && forall i :: c.head <= i < |c.cells| ==> c.cells[i].state == Full
  }

  lemma StuckPop(c: Cache)
    requires Stuck(c) && c.fslots > 0
    ensures var r := PopCache(c, false);
      && Stuck(r) && r.head == c.head + 1 && |r.cells| == |c.cells|
      && forall i :: r.head <= i < |c.cells| ==> r.cells[i] == c.cells[i]
  {
    var c1 := TakeHead(c);
    TailOut(c1, ReloadCount(c1, false), false);
    hide ReloadRounds, ReloadCount;
    assert PopCache(c, false) == c1;
  }

  lemma {:induction false} StuckPops(c: Cache, k: nat)
    requires Stuck(c) && k <= c.fslots
    ensures var r := Pops(c, k);
      && Stuck(r) && r.head == c.head + k && |r.cells| == |c.cells|
      && forall i :: r.head <= i < |c.cells| ==> r.cells[i] == c.cells[i]
    decreases k
  {
    hide Stuck, PopCache;
    if k > 0 {
      StuckFacts(c);
      StuckPop(c);
      StuckFacts(PopCache(c, false));
      StuckPops(PopCache(c, false), k - 1);
    }
  }

  lemma StuckFacts(c: Cache)
    requires Stuck(c)
    ensures c.head + c.fslots == |c.cells|
  {
  }

  /** The second pop reads the oldest slot's worth of the file, and labels it with the end of the ring. */
  lemma SecondPop(nslots: nat, s: seq<Byte>)
    requires 2 <= nslots && nslots * SLOT_SIZE < |s| < INVALID_OFFSET
    ensures var c := OnePlayed(nslots, s);
      && !Safe(c, TakeOut(false)) && (Short(|s|) ==> Enabled(c, TakeOut(false)))
      && var r := PopCache(c, false);
         && Stuck(r) && |r.cells| == nslots && r.head == 1
         && r.cells[nslots - 1] == Cell(Full, nslots * SLOT_SIZE, s[..SLOT_SIZE])
  {
    OnePlayedFields(nslots, s);
    hide OnePlayed, Cells;
    var c := OnePlayed(nslots, s);
    HeadTaken(c, s);
    var h := TakeHead(c);
    var d := DiskRead(RecycleTail(h));
    TailOut(d, 1, false);
    hide RecycleTail, CanRead, DiskRead, TakeHead;
    OneRead(h, d);
  }

  lemma OnePlayedFields(nslots: nat, s: seq<Byte>)
    requires 2 <= nslots && nslots * SLOT_SIZE < |s| < INVALID_OFFSET
    ensures var c := OnePlayed(nslots, s);
      && c.migration.Finished? && c.DiskUsable()
      && |c.cells| == c.nslots == nslots && c.head == 1 && c.fslots == nslots - 1 && !c.needDiscont
      && c.part == [] && !c.drained && c.rPos == 0 && c.lDk == 0 && c.hRb == nslots * SLOT_SIZE
      && SLOT_SIZE < c.wPos == |s| == c.hOffset <= |c.file| && c.file[..SLOT_SIZE] == s[..SLOT_SIZE]
      && c.cells[0].state == Recycle && forall i :: 1 <= i < nslots ==> c.cells[i].state == Full
  {
    MigratedFields(nslots, s);
    hide Migrated, Inv;
    var c := OnePlayed(nslots, s);
    assert forall i :: 1 <= i < nslots ==> c.cells[i] == Cells(s, nslots)[i];
  }

  /** The ring after the second slot is taken, the first emptied, and the oldest bytes of the file read into it. */
  lemma HeadTaken(c: Cache, s: seq<Byte>)
    requires c.migration.Finished? && c.DiskUsable()
    requires 2 <= |c.cells| == c.nslots && c.head == 1 && c.fslots == c.nslots - 1 && !c.needDiscont
    requires c.part == [] && !c.drained && c.rPos == 0 && c.lDk == 0 && c.hRb > 0
    requires SLOT_SIZE < c.wPos == |s| <= |c.file| && |s| < INVALID_OFFSET && c.file[..SLOT_SIZE] == s[..SLOT_SIZE]
    requires c.cells[0].state == Recycle && forall i :: 1 <= i < c.nslots ==> c.cells[i].state == Full
    ensures HeadFull(c) && !Linked(TakeHead(c)) && ReloadCount(TakeHead(c), false) == 2
    ensures var h := RecycleTail(TakeHead(c));
      && CanRead(h, false) && h.rPos + ReadSize(h) <= |h.file|
      && var d := DiskRead(h);
         && Stuck(d) && |d.cells| == c.nslots && d.head == 1
         && d.cells[c.nslots - 1] == Cell(Full, c.hRb, s[..SLOT_SIZE])
  {
    var h := TakeHead(c);
    var h1 := RecycleTail(h);
    assert h1.cells == h.cells[1..] && h1.head == 1;
    assert ReadSize(h1) == SLOT_SIZE;
    hide ReadSize;
    var d := DiskRead(h1);
    assert d.cells[0] == h.cells[1];
    assert forall i :: 1 <= i < c.nslots - 1 ==> d.cells[i] == c.cells[i + 1];
    assert h.file[0..SLOT_SIZE] == s[..SLOT_SIZE];
  }

  lemma OneRead(c: Cache, d: Cache)
    requires CanRead(RecycleTail(c), false) && d == DiskRead(RecycleTail(c)) && ReloadRounds(d, 1, false) == d
    ensures ReloadRounds(c, 2, false) == d && Reads(c, 2, false) > 0
  {
    hide RecycleTail, CanRead, DiskRead;
  }

  /** The buffer is the piece of the stream that its offset says. */
  predicate Right(b: Buffer, s: seq<Byte>) {
    b.End() <= |s| && b.bytes == s[b.offset..b.End()]
  }

  /** The slot's worth behind the first `n` is the same as the very first. */
  predicate Repeats(s: seq<Byte>, n: nat) {
    (n + 1) * SLOT_SIZE <= |s| && s[n * SLOT_SIZE..(n + 1) * SLOT_SIZE] == s[..SLOT_SIZE]
  }

  /** A ring of any size is filled, overflows, and is fully copied; then it is played: the first pop is safe, the second
      one, after downstream has let go of the first buffer, is not. In the end a buffer is handed out that is labelled
      with the first offset behind the ring and holds the first bytes of the stream: it is right only by chance. */
  lemma MislabelledPop(nslots: nat, s: seq<Byte>)
    requires 2 <= nslots && nslots * SLOT_SIZE < |s| < INVALID_OFFSET
    ensures SafeRun(Start(nslots), PlaySteps(nslots, s))
    ensures var c := Run(Start(nslots), PlaySteps(nslots, s)).cache;
      Inv(c, s) && !Safe(c, TakeOut(false)) && (Short(|s|) ==> Enabled(c, TakeOut(false)))
    ensures var c := Run(Start(nslots), PlaySteps(nslots, s)).cache;
      var b := Buffer(nslots * SLOT_SIZE, s[..SLOT_SIZE], false);
      PopBuffer(Pops(c, nslots - 1), false) == Some(b) && (Right(b, s) <==> Repeats(s, nslots))
  {
    hide Run, CanRun, SafeRun, Inv, OnePlayed, PopCache, Enabled, Safe;
    PlayRuns(nslots, s);
    StartInv(nslots);
    RunInv(Start(nslots), PlaySteps(nslots, s));
    SecondPop(nslots, s);
    var r := PopCache(OnePlayed(nslots, s), false);
    StuckFacts(r);
    StuckPops(r, nslots - 2);
    assert Pops(OnePlayed(nslots, s), nslots - 1) == Pops(r, nslots - 2);
  }
}
