/** Buffers downstream still holds: their bytes never change, and they keep the cache alive. */
module Lifetime {
  import opened Bytes
  import opened CacheModel
  import opened RingProofs
  import opened DiskProofs
  import opened SeekProofs
  import opened Runs
  import opened OrderlyRuns

  /** The slots handed out and not let go, as offset and content. */
  function Out(cells: seq<Cell>): set<(nat, seq<Byte>)> {
    set i | 0 <= i < |cells| && cells[i].state == Pop :: (cells[i].offset, cells[i].bytes)
  }

  function Pair(cell: Cell): (nat, seq<Byte>) {
    (cell.offset, cell.bytes)
  }

  // ---------------------------------------------------------------------------------------------------------------
  // What each operation does to the set of buffers that are out

  lemma AppendOut(cells: seq<Cell>, cell: Cell)
    requires cell.state == Full
    ensures Out(cells + [cell]) == Out(cells)
  {
    var r := cells + [cell];
    forall p | p in Out(cells)
      ensures p in Out(r)
    {
      var i :| 0 <= i < |cells| && cells[i].state == Pop && p == (cells[i].offset, cells[i].bytes);
      assert r[i] == cells[i];
    }
  }

  lemma RecycleOut(c: Cache)
    ensures Out(RecycleTail(c).cells) == Out(c.cells)
  {
  }

  /** Slots that are not out may change state without any effect on the ones that are. */
  lemma RelabelOut(cells: seq<Cell>, cells': seq<Cell>)
    requires |cells'| == |cells|
    requires forall i :: 0 <= i < |cells| ==>
      cells'[i].offset == cells[i].offset && cells'[i].bytes == cells[i].bytes
      && (cells'[i].state == Pop <==> cells[i].state == Pop)
    ensures Out(cells') == Out(cells)
  {
  }

  /** Putting one slot out, or taking it back, changes the set by exactly that slot: offsets are distinct. */
  lemma UpdateOut(c: Cache, i: nat, state: SlotState)
    requires Shape(c) && i < |c.cells|
    ensures var r := Out(c.cells[i := c.cells[i].(state := state)]);
      r == if state == Pop then Out(c.cells) + {Pair(c.cells[i])} else Out(c.cells) - {Pair(c.cells[i])}
  {
    hide InOrder;
    var cells, r := c.cells, c.cells[i := c.cells[i].(state := state)];
    assert forall j :: 0 <= j < |cells| && j != i ==> r[j] == cells[j] && Pair(cells[j]) != Pair(cells[i]) by {
      OffsetsDistinct(c, i);
    }
    hide Contiguous;
    forall p | p in Out(cells) && p != Pair(cells[i])
      ensures p in Out(r)
    {
      var j :| 0 <= j < |cells| && cells[j].state == Pop && p == (cells[j].offset, cells[j].bytes);
      assert r[j] == cells[j];
    }
    assert r[i].state == Pop ==> Pair(cells[i]) in Out(r);
  }

  lemma OffsetsDistinct(c: Cache, i: nat)
    requires Shape(c) && i < |c.cells|
    ensures forall j :: 0 <= j < |c.cells| && j != i ==> c.cells[j].offset != c.cells[i].offset
  {
  }

  lemma NotOutBefore(c: Cache, i: nat)
    requires Shape(c) && i < |c.cells| && c.cells[i].state != Pop
    ensures Pair(c.cells[i]) !in Out(c.cells)
  {
  }

  lemma {:induction false} ReloadOut(c: Cache, rounds: nat, drain: bool)
    ensures Out(ReloadRounds(c, rounds, drain).cells) == Out(c.cells)
    ensures ReloadRounds(c, rounds, drain).refs == c.refs
    ensures ReloadRounds(c, rounds, drain).migration == c.migration
    decreases rounds
  {
    hide CanRead, ReadSize, Out;
    if rounds > 0 {
      var c1 := RecycleTail(c);
      RecycleOut(c);
      if CanRead(c1, drain) {
        CanReadFits(c1, drain);
        AppendOut(c1.cells, Cell(Full, c1.hRb, c1.file[c1.rPos..c1.rPos + ReadSize(c1)]));
        ReloadOut(DiskRead(c1), rounds - 1, drain);
      }
    }
  }

  // ---------------------------------------------------------------------------------------------------------------
  // The set of buffers out, step by step

  /** Change of the reference count that a change of the buffers out and of the migration thread calls for. */
  function Holders(c: Cache): int {
    |Out(c.cells)| + if c.migration.Copying? then 1 else 0
  }

  /** Result of a step as far as lifetime goes. */
  ghost predicate Accounts(c: Cache, c': Cache, out': set<(nat, seq<Byte>)>) {
    Out(c'.cells) == out' && c'.refs - Holders(c') == c.refs - Holders(c)
  }

  lemma WriteOut(c: Cache, data: seq<Byte>)
    requires Shape(c) && Enabled(c, Write(data))
    ensures Accounts(c, Act(c, Write(data)), Out(c.cells))
  {
    hide WriteAt, Out, Contiguous, InOrder;
    if c.recording {
      var c1 := DiskWrite(c, data);
      hide ReloadRounds;
      ReloadOut(c1, ReloadCount(c1, false), false);
    } else {
      var c1 := RecycleTail(c);
      RecycleOut(c);
      var k := Min(SLOT_SIZE - |c1.part|, |data|);
      AppendOut(c1.cells, Cell(Full, c1.hRb, c1.part + data[..k]));
    }
  }

  lemma FinishPartOut(c: Cache)
    requires Shape(c)
    ensures Accounts(c, FinishPart(c), Out(c.cells)) && Shape(FinishPart(c))
  {
    FinishPartShape(c);
    hide Shape, Out;
    AppendOut(c.cells, Cell(Full, c.hRb, c.part));
  }

  lemma TakeAndReloadOut(c: Cache, drain: bool)
    requires Shape(c) && HeadFull(c)
    ensures Accounts(c, TakeAndReload(c, drain), Out(c.cells) + {Pair(c.cells[c.head])})
  {
    hide Out, Shape, ReloadRounds;
    var c1 := TakeHead(c);
    UpdateOut(c, c.head, Pop);
    NotOutBefore(c, c.head);
    assert |Out(c1.cells)| == |Out(c.cells)| + 1;
    ReloadOut(c1, ReloadCount(c1, drain), drain);
  }

  lemma TakeOutOut(c: Cache, drain: bool)
    requires Shape(c)
    ensures Accounts(c, PopCache(c, drain),
                     Out(c.cells) + match PopBuffer(c, drain)
                                    case Some(b) => {(b.offset, b.bytes)}
                                    case None => {})
  {
    hide Shape, Out, FinishPart, TakeAndReload, Holders;
    var c1 := if drain then FinishPart(c) else c;
    FinishPartOut(c);
    if HeadFull(c1) {
      TakeAndReloadOut(c1, drain);
    } else {
      assert Out(c.cells) + {} == Out(c.cells);
    }
  }

  lemma LetGoOut(c: Cache, i: nat)
    requires Shape(c) && i < |c.cells| && c.cells[i].state == Pop
    ensures Accounts(c, Release(c, i), Out(c.cells) - {Pair(c.cells[i])})
  {
    UpdateOut(c, i, Recycle);
    assert Pair(c.cells[i]) in Out(c.cells);
    hide Out, Shape;
    assert |Out(Release(c, i).cells)| == |Out(c.cells)| - 1;
  }

  lemma SeekRingOut(c: Cache, x: nat)
    requires c.head <= |c.cells|
    ensures Accounts(c, SeekRing(c, x), Out(c.cells))
  {
    hide Out, SeekRing;
    SeekRingRelabels(c, x);
    RelabelOut(c.cells, SeekRing(c, x).cells);
  }

  lemma SeekDiskOut(c: Cache, x: nat)
    requires NoneOut(c.cells) && c.lDk <= x
    ensures Accounts(c, SeekDisk(c, x), Out(c.cells))
  {
    var f := Flush(c).(rPos := x - c.lDk, hRb := x, lRb := x);
    assert Out(c.cells) == {} && Out(f.cells) == {};
    hide Out, ReloadRounds;
    ReloadOut(f, ReloadCount(f, false), false);
  }

  lemma SeekOut(c: Cache, offset: nat)
    requires Enabled(c, SeekTo(offset))
    ensures Accounts(c, Seek(c, offset), Out(c.cells))
  {
    hide Out, SeekDisk, SeekRing, Accounts, NoneOut, KeepsOrder;
    SeekRingOut(c, Clamp(c, offset));
    if c.DiskUsable() && !(c.lRb <= Clamp(c, offset) < c.hRb) {
      SeekDiskOut(c, Clamp(c, offset));
    }
    SameAccounts(c);
  }

  lemma SameAccounts(c: Cache)
    ensures Accounts(c, c, Out(c.cells))
  {
  }

  /** The buffers out after a step: a pop adds the one it hands out, letting go takes one away, and every other buffer
      stays out with the very same bytes, whatever is pushed, recycled, reloaded or migrated meanwhile. The reference
      count moves in step. */
  lemma StepOut(c: Cache, step: Step)
    requires Shape(c) && Enabled(c, step)
    ensures Accounts(c, Act(c, step),
                     match step
                     case TakeOut(drain) =>
                       Out(c.cells) + (match PopBuffer(c, drain) case Some(b) => {(b.offset, b.bytes)} case None => {})
                     case LetGo(i) => Out(c.cells) - {Pair(c.cells[i])}
                     case _ => Out(c.cells))
  {
    match step
    case Write(data) => hide Shape, Enabled; WriteOut(c, data);
    case TakeOut(drain) => hide Shape, Enabled; TakeOutOut(c, drain);
    case LetGo(i) => hide Shape; LetGoOut(c, i);
    case SeekTo(offset) => hide Shape, Enabled; SeekOut(c, offset);
    case Record => hide Out, Contiguous, InOrder;
    case Copy => hide Out, WriteAt, SlotBytes, Shape;
  }

  // ---------------------------------------------------------------------------------------------------------------
  // Whole runs

  /** The owner gives up its reference. */
  function Unref(c: Cache): Cache {
    c.(refs := c.refs - 1)
  }

  /** The reference count is what is held: by the owner, by buffers downstream, by the migration thread. */
  lemma {:induction false} RunRefs(s: Sys, steps: seq<Step>, owner: int)
    requires Orderly(s.cache) && CanRun(s, steps) && s.cache.refs == owner + Holders(s.cache)
    ensures var r := Run(s, steps);
      Orderly(r.cache) && r.cache.refs == owner + Holders(r.cache)
    decreases |steps|
  {
    hide Act, Pushed, Popped, Enabled, Holders, Shape, Placed;
    if steps != [] {
      StepOrderly(s.cache, steps[0]);
      StepOut(s.cache, steps[0]);
      RunRefs(Do(s, steps[0]), steps[1..], owner);
    }
  }

  /** Nobody lets go of `p` along the run. */
  predicate Kept(s: Sys, steps: seq<Step>, p: (nat, seq<Byte>))
    requires CanRun(s, steps)
    decreases |steps|
  {
    steps == [] ||
    (!(steps[0].LetGo? && Pair(s.cache.cells[steps[0].cell]) == p) && Kept(Do(s, steps[0]), steps[1..], p))
  }

  /** A buffer that is out stays out with the very same bytes over any run in which nobody lets go of it: no push,
      recycling, reload, safe or not, migration or seek takes or changes it. */
  lemma {:induction false} RunKeepsOut(s: Sys, steps: seq<Step>, p: (nat, seq<Byte>))
    requires Orderly(s.cache) && CanRun(s, steps) && Kept(s, steps, p) && p in Out(s.cache.cells)
    ensures Orderly(Run(s, steps).cache) && p in Out(Run(s, steps).cache.cells)
    decreases |steps|
  {
    hide Act, Pushed, Popped, Out, Shape, Placed;
    if steps != [] {
      StepOrderly(s.cache, steps[0]);
      StepOut(s.cache, steps[0]);
      hide Enabled;
      RunKeepsOut(Do(s, steps[0]), steps[1..], p);
    }
  }

  /** While all reloads are safe, those bytes are the piece of the stream at its offset. */
  lemma RunKeepsTrue(s: Sys, steps: seq<Step>, p: (nat, seq<Byte>))
    requires Inv(s.cache, s.stream) && SafeRun(s, steps) && Kept(s, steps, p) && p in Out(s.cache.cells)
    ensures var r := Run(s, steps);
      p in Out(r.cache.cells) && p.0 + |p.1| <= |r.stream| && p.1 == r.stream[p.0..p.0 + |p.1|]
  {
    hide *;
    InvOrderly(s.cache, s.stream);
    RunKeepsOut(s, steps, p);
    RunInv(s, steps);
    var r := Run(s, steps);
    OutIsSlice(r.cache, r.stream, p);
  }

  lemma OutIsSlice(c: Cache, stream: seq<Byte>, p: (nat, seq<Byte>))
    requires Inv(c, stream) && p in Out(c.cells)
    ensures p.0 + |p.1| <= |stream| && p.1 == stream[p.0..p.0 + |p.1|]
  {
    hide Contiguous, InOrder, DiskGood;
  }

  lemma UnrefOrderly(c: Cache)
    requires Orderly(c)
    ensures Orderly(Unref(c))
  {
    hide Contiguous, InOrder;
  }

  /** Ring memory and file are given back, that is the count reaches zero, exactly when the owner has let go, every
      buffer has come back and the migration thread has ended. */
  lemma FreedExactly(nslots: nat, steps: seq<Step>, after: seq<Step>)
    requires 1 <= nslots && CanRun(Start(nslots), steps)
    requires var s := Run(Start(nslots), steps); CanRun(s.(cache := Unref(s.cache)), after)
    ensures var s := Run(Start(nslots), steps);
      && s.cache.refs > 0
      && var r := Run(s.(cache := Unref(s.cache)), after).cache;
         r.refs >= 0 && (r.refs == 0 <==> Out(r.cells) == {} && !r.migration.Copying?)
  {
    StartInv(nslots);
    assert Out(New(nslots).cells) == {};
    var s0 := Start(nslots);
    assert s0.cache.refs == 1 + Holders(s0.cache);
    InvOrderly(s0.cache, []);
    hide Inv, Orderly, Out, Run, CanRun;
    RunRefs(s0, steps, 1);
    var s := Run(s0, steps);
    UnrefOrderly(s.cache);
    RunRefs(s.(cache := Unref(s.cache)), after, 0);
  }

  // ---------------------------------------------------------------------------------------------------------------
  // Once only

  /** What still happens after the owner has let go: buffers come back and the migration thread goes on. */
  predicate WindsDown(steps: seq<Step>) {
    forall i :: 0 <= i < |steps| ==> steps[i].LetGo? || steps[i].Copy?
  }

  lemma StepLowers(c: Cache, step: Step)
    requires Orderly(c) && Enabled(c, step) && (step.LetGo? || step.Copy?) && c.refs == Holders(c)
    ensures c.refs > 0 && Act(c, step).refs <= c.refs
  {
    hide Orderly, WriteAt, SlotBytes;
    match step
    case LetGo(i) => assert Pair(c.cells[i]) in Out(c.cells);
    case Copy =>
  }

  /** Then the count never rises. */
  lemma {:induction false} RunLowers(s: Sys, steps: seq<Step>)
    requires Orderly(s.cache) && s.cache.refs == Holders(s.cache) && CanRun(s, steps) && WindsDown(steps)
    ensures 0 <= Run(s, steps).cache.refs <= s.cache.refs
    ensures steps != [] ==> s.cache.refs > 0
    decreases |steps|
  {
    hide Orderly, Act, Enabled, Pushed, Popped, Out;
    if steps != [] {
      StepLowers(s.cache, steps[0]);
      StepOrderly(s.cache, steps[0]);
      OrderlyShape(s.cache);
      StepOut(s.cache, steps[0]);
      RunLowers(Do(s, steps[0]), steps[1..]);
    }
  }

  lemma OrderlyShape(c: Cache)
    requires Orderly(c)
    ensures Shape(c)
  {
  }

  /** Once the owner has let go, the count never rises, and it reaches zero once: then no buffer can come back and no
      slot be copied any more. */
  lemma FreedOnce(s: Sys, before: seq<Step>, after: seq<Step>)
    requires Orderly(s.cache) && s.cache.refs == Holders(s.cache)
    requires CanRun(s, before) && CanRun(Run(s, before), after) && WindsDown(before) && WindsDown(after)
    ensures s.cache.refs >= Run(s, before).cache.refs >= Run(Run(s, before), after).cache.refs >= 0
    ensures Run(s, before).cache.refs == 0 ==> after == []
  {
    hide Orderly, Holders, Run, CanRun;
    RunRefs(s, before, 0);
    RunLowers(s, before);
    RunLowers(Run(s, before), after);
  }
}
