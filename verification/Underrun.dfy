/** Exactly which reloads do no harm, whatever the bytes: to the ring, and to a file the migrator has still to
    complete. */
module Underrun {
  import opened Bytes
  import opened CacheModel
  import opened RingProofs
  import opened DiskProofs
  import opened Runs

  // ---------------------------------------------------------------------------------------------------------------
  // Caches that differ in their bytes only

  predicate SameCell(a: Cell, b: Cell) {
    a.state == b.state && a.offset == b.offset && |a.bytes| == |b.bytes|
  }

  ghost predicate SameShape(c: Cache, d: Cache) {
    && d == c.(cells := d.cells, file := d.file) && |d.cells| == |c.cells| && |d.file| == |c.file|
    && forall i :: 0 <= i < |c.cells| ==> SameCell(c.cells[i], d.cells[i])
  }

  lemma RecycleShape(c: Cache, d: Cache)
    requires SameShape(c, d)
    ensures SameShape(RecycleTail(c), RecycleTail(d))
    ensures RecycleTail(c) == c <==> RecycleTail(d) == d
  {
    if 0 < |c.cells| {
      assert SameCell(c.cells[0], d.cells[0]);
    }
  }

  lemma ReadShape(c: Cache, d: Cache, drain: bool)
    requires SameShape(c, d) && CanRead(c, drain)
    ensures CanRead(d, drain) && c.rPos + ReadSize(c) <= |c.file| && d.rPos + ReadSize(d) <= |d.file|
    ensures SameShape(DiskRead(c), DiskRead(d))
  {
    CanReadFits(c, drain);
    hide ReadSize;
    assert ReadSize(c) == ReadSize(d) by {
      SameReadSize(c, d);
    }
  }

  lemma SameReadSize(c: Cache, d: Cache)
    requires c.wPos == d.wPos && c.rPos == d.rPos
    ensures ReadSize(c) == ReadSize(d)
  {
  }

  /** What a reload reads and changes does not depend on the bytes. */
  lemma {:induction false} ReloadShape(c: Cache, d: Cache, rounds: nat, drain: bool)
    requires SameShape(c, d)
    ensures Reads(c, rounds, drain) == Reads(d, rounds, drain) && Touched(c, rounds, drain) == Touched(d, rounds, drain)
    decreases rounds
  {
    hide SameShape, RecycleTail, CanRead, DiskRead, ReadSize;
    if rounds > 0 {
      var c1, d1 := RecycleTail(c), RecycleTail(d);
      RecycleShape(c, d);
      if CanRead(c1, drain) {
        ReadShape(c1, d1, drain);
        ReloadShape(DiskRead(c1), DiskRead(d1), rounds - 1, drain);
      } else if CanRead(d1, drain) {
        ShapeSymmetric(c1, d1);
        ReadShape(d1, c1, drain);
        assert false;
      }
    }
  }

  lemma ShapeSymmetric(c: Cache, d: Cache)
    requires SameShape(c, d)
    ensures SameShape(d, c)
  {
  }

  // ---------------------------------------------------------------------------------------------------------------
  // Finishing a migration

  /** The migrator goes on to its end, and nothing else happens. */
  function Finish(c: Cache): Cache
    decreases if c.migration.Copying? && c.migration.i < c.nslots then c.nslots - c.migration.i else 0
  {
    if !c.migration.Copying? || |c.cells| > c.nslots then c
    else if c.migration.i >= c.nslots then Migrate(c)
    else Finish(Migrate(c))
  }

  /** The migration is finished, and the file is the stream from its first byte on. */
  ghost predicate FileTrue(c: Cache, stream: seq<Byte>) {
    c.migration.Finished? && c.lDk <= |stream| && FileHas(c.file, 0, stream[c.lDk..])
  }

  /** From a good state the finished file is true. */
  lemma {:induction false} FinishGood(c: Cache, stream: seq<Byte>)
    requires Inv(c, stream) && c.migration.Copying?
    ensures FileTrue(Finish(c), stream)
    decreases c.nslots - c.migration.i
  {
    InvBounds(c, stream);
    hide Inv, Migrate, FileHas;
    CopyInv(c, stream);
    if c.migration.i < c.nslots {
      MigrateCopies(c);
      FinishGood(Migrate(c), stream);
    } else {
      MigrateEnds(c);
      FinishedTrue(Migrate(c), stream);
    }
  }

  lemma InvBounds(c: Cache, stream: seq<Byte>)
    requires Inv(c, stream) && c.migration.Copying?
    ensures |c.cells| <= c.nslots && c.head <= |c.cells| && c.migration.i <= c.nslots && c.mNext < c.nslots
    ensures Enabled(c, Copy)
  {
    hide Contiguous, InOrder, Faithful, CopyFile;
  }

  lemma MigrateEnds(c: Cache)
    requires c.migration.Copying? && |c.cells| <= c.nslots
    ensures c.migration.i >= c.nslots ==> Migrate(c).migration.Finished?
  {
    hide WriteAt, SlotBytes;
  }

  lemma FinishedTrue(c: Cache, stream: seq<Byte>)
    requires Inv(c, stream) && c.migration.Finished?
    ensures FileTrue(c, stream)
  {
    hide Good, FileHas;
  }

  /** The slots still to come, in the order in which the migrator will look at them. */
  function Pending(c: Cache, p: nat, left: nat): (r: seq<seq<Byte>>)
    requires |c.cells| <= c.nslots
    ensures |r| == left
    decreases left
  {
    if left == 0 then [] else [SlotBytes(c, p)] + Pending(c, After(c.nslots, p), left - 1)
  }

  /** What writing pieces one after the other from `pos` on makes of a file. */
  function WriteAll(file: seq<Byte>, pos: nat, pieces: seq<seq<Byte>>): seq<Byte>
    decreases |pieces|
  {
    if pieces == [] then file else WriteAll(WriteAt(file, pos, pieces[0]), pos + |pieces[0]|, pieces[1..])
  }

  /** The finished file is what is there, with the slots to come written over it. */
  lemma {:induction false} FinishWrites(c: Cache)
    requires c.migration.Copying? && |c.cells| <= c.nslots && c.migration.i <= c.nslots
    ensures var r := Finish(c);
      && r.migration.Finished? && r.lDk == c.mDk
      && r.file == WriteAll(c.file, c.mPos, Pending(c, c.mNext, c.nslots - c.migration.i))
    decreases c.nslots - c.migration.i
  {
    hide WriteAt, SlotBytes, After;
    if c.migration.i < c.nslots {
      var left, r := c.nslots - c.migration.i, Migrate(c);
      FinishWrites(r);
      SamePending(c, r, After(c.nslots, c.mNext), left - 1);
      var rest := Pending(c, After(c.nslots, c.mNext), left - 1);
      assert ([SlotBytes(c, c.mNext)] + rest)[1..] == rest;
    }
  }

  lemma {:induction false} SamePending(c: Cache, d: Cache, p: nat, left: nat)
    requires |c.cells| <= c.nslots && d.cells == c.cells && d.nslots == c.nslots
    requires d.part == c.part && d.drained == c.drained
    ensures Pending(c, p, left) == Pending(d, p, left)
    decreases left
  {
    hide After;
    if left > 0 {
      SamePending(c, d, After(c.nslots, p), left - 1);
    }
  }

  /** Writing further on keeps what lies before. */
  lemma {:induction false} WriteAllKeeps(file: seq<Byte>, pos: nat, pieces: seq<seq<Byte>>, at: nat, kept: seq<Byte>)
    requires FileHas(file, at, kept) && at + |kept| <= pos
    ensures FileHas(WriteAll(file, pos, pieces), at, kept)
    decreases |pieces|
  {
    hide FileHas, WriteAt;
    if pieces != [] {
      WriteAtKeeps(file, pos, pieces[0], at, kept);
      WriteAllKeeps(WriteAt(file, pos, pieces[0]), pos + |pieces[0]|, pieces[1..], at, kept);
    }
  }

  // ---------------------------------------------------------------------------------------------------------------
  // Reloads that spare the migrator

  /** Emptying the tail slot changes that slot only. */
  lemma SlotKeptEmptied(c: Cache, p: nat)
    requires |c.cells| <= c.nslots && 0 < p
    ensures |RecycleTail(c).cells| <= c.nslots && SlotBytes(RecycleTail(c), p) == SlotBytes(c, p)
  {
  }

  /** Reading into it does too; all other slots are then one place closer to the tail. */
  lemma SlotKeptRead(c: Cache, drain: bool, p: nat)
    requires |c.cells| <= c.nslots && 0 < p < c.nslots && CanRead(c, drain)
    ensures |DiskRead(c).cells| <= c.nslots && SlotBytes(DiskRead(c), p - 1) == SlotBytes(c, p)
  {
    hide ReadSize;
    CanReadFits(c, drain);
  }

  lemma {:induction false} PendingEmptied(c: Cache, p: nat, left: nat)
    requires |c.cells| <= c.nslots && 0 < p && p + left <= c.nslots
    ensures |RecycleTail(c).cells| <= c.nslots && Pending(RecycleTail(c), p, left) == Pending(c, p, left)
    decreases left
  {
    hide RecycleTail, SlotBytes;
    SlotKeptEmptied(c, p);
    assert RecycleTail(c).nslots == c.nslots by {
      RecycleKeeps(c);
    }
    if left > 1 {
      PendingEmptied(c, p + 1, left - 1);
    }
  }

  lemma {:induction false} PendingRead(c: Cache, drain: bool, p: nat, left: nat)
    requires |c.cells| <= c.nslots && 0 < p && p + left <= c.nslots && CanRead(c, drain)
    ensures |DiskRead(c).cells| <= c.nslots && Pending(DiskRead(c), p - 1, left) == Pending(c, p, left)
    decreases left
  {
    hide DiskRead, SlotBytes, CanRead;
    CanReadFits(c, drain);
    ReadKeeps(c, drain);
    if left > 0 {
      SlotKeptRead(c, drain, p);
      if left > 1 {
        PendingRead(c, drain, p + 1, left - 1);
      }
    }
  }

  /** What no reload changes. */
  predicate Kept(c: Cache, d: Cache) {
    && d.nslots == c.nslots && d.file == c.file && d.wPos == c.wPos && d.mPos == c.mPos
    && d.migration == c.migration && d.mDk == c.mDk && d.lDk == c.lDk && d.hOffset == c.hOffset
    && d.drained == c.drained && (c.part == [] ==> d.part == [])
    && (|c.cells| <= c.nslots ==> |d.cells| <= d.nslots)
  }

  lemma RecycleKeeps(c: Cache)
    ensures Kept(c, RecycleTail(c)) && RecycleTail(c).mNext == c.mNext && RecycleTail(c).rPos == c.rPos
    ensures RecycleTail(c).hRb == c.hRb
  {
  }

  lemma ReadKeeps(c: Cache, drain: bool)
    requires CanRead(c, drain)
    ensures c.rPos + ReadSize(c) <= |c.file|
    ensures Kept(c, DiskRead(c)) && DiskRead(c).mNext == Before(c.nslots, c.mNext)
    ensures !drain ==> DiskRead(c).rPos == c.rPos + SLOT_SIZE && DiskRead(c).hRb == c.hRb + SLOT_SIZE
  {
    CanReadFits(c, drain);
    hide ReadSize;
  }

  lemma {:induction false} ReloadKeeps(c: Cache, rounds: nat, drain: bool)
    ensures Kept(c, ReloadRounds(c, rounds, drain))
    decreases rounds
  {
    hide RecycleTail, CanRead, DiskRead;
    if rounds > 0 {
      var c1 := RecycleTail(c);
      RecycleKeeps(c);
      if CanRead(c1, drain) {
        ReadKeeps(c1, drain);
        ReloadKeeps(DiskRead(c1), rounds - 1, drain);
      }
    }
  }

  /** A reload that stops short of the slot the migrator looks at next leaves all it has to look at as it is. */
  lemma {:induction false} ReloadPending(c: Cache, rounds: nat, drain: bool, left: nat)
    requires |c.cells| <= c.nslots && c.mNext < c.nslots && c.mNext + left <= c.nslots
    requires Touched(c, rounds, drain) <= c.mNext
    ensures var r := ReloadRounds(c, rounds, drain);
      |r.cells| <= r.nslots && Pending(r, r.mNext, left) == Pending(c, c.mNext, left)
    decreases rounds
  {
    hide RecycleTail, CanRead, DiskRead, SlotBytes;
    if rounds > 0 {
      var c1 := RecycleTail(c);
      RecycleKeeps(c);
      if c.mNext > 0 {
        PendingEmptied(c, c.mNext, left);
      }
      if CanRead(c1, drain) {
        ReadKeeps(c1, drain);
        PendingRead(c1, drain, c1.mNext, left);
        ReloadPending(DiskRead(c1), rounds - 1, drain, left);
      }
    }
  }

  /** A reload that spares the migrator leads to a true file: if reads are linked because all stays good, if not because
      the migrator finds everything as it was. */
  lemma SparedFile(c: Cache, stream: seq<Byte>, rounds: nat)
    requires Inv(c, stream) && c.migration.Copying? && rounds <= c.nslots && Spares(c, rounds, false)
    ensures FileTrue(Finish(ReloadRounds(c, rounds, false)), stream)
  {
    hide Good, DiskGood, Linked, Spares, ReloadRounds, FileTrue;
    if Linked(c) {
      var r := ReloadRounds(c, rounds, false);
      ReloadGood(c, rounds, false, stream);
      FinishGood(r, stream);
    } else {
      InvBounds(c, stream);
      UnlinkedNext(c, stream, rounds);
      FinishGood(c, stream);
      hide Inv, Finish;
      UntouchedFile(c, rounds);
      SameFileTrue(Finish(c), Finish(ReloadRounds(c, rounds, false)), stream);
    }
  }

  /** The migrator finds all it has to look at as it was: it writes the same file. */
  lemma UntouchedFile(c: Cache, rounds: nat)
    requires c.migration.Copying? && |c.cells| <= c.nslots && c.mNext < c.nslots && c.migration.i <= c.nslots
    requires c.migration.i < c.nslots ==>
      Touched(c, rounds, false) <= c.mNext && c.mNext + c.nslots - c.migration.i <= c.nslots
    ensures var d, r := Finish(c), Finish(ReloadRounds(c, rounds, false));
      r.migration.Finished? && d.migration.Finished? && r.lDk == d.lDk && r.file == d.file
  {
    hide ReloadRounds, Finish, Pending, WriteAll;
    var left, r := c.nslots - c.migration.i, ReloadRounds(c, rounds, false);
    ReloadKeeps(c, rounds, false);
    if left > 0 {
      ReloadPending(c, rounds, false, left);
    } else {
      NoPending(c, c.mNext);
      NoPending(r, r.mNext);
    }
    FinishWrites(c);
    FinishWrites(r);
  }

  lemma NoPending(c: Cache, p: nat)
    requires |c.cells| <= c.nslots
    ensures Pending(c, p, 0) == []
  {
  }

  lemma SameFileTrue(d: Cache, r: Cache, stream: seq<Byte>)
    requires FileTrue(d, stream) && r.migration.Finished? && r.lDk == d.lDk && r.file == d.file
    ensures FileTrue(r, stream)
  {
  }

  lemma UnlinkedNext(c: Cache, stream: seq<Byte>, rounds: nat)
    requires Inv(c, stream) && c.migration.Copying? && !Linked(c) && Spares(c, rounds, false)
    ensures c.migration.i < c.nslots ==>
      Touched(c, rounds, false) <= c.mNext && c.mNext + c.nslots - c.migration.i <= c.nslots
  {
    hide CopyFile, InOrder, Faithful, Touched, Reads;
    if c.migration.i < c.nslots {
      assert c.cells[0].offset < c.hRb;
      assert FirstToCome(c, 0) == 0;
    }
  }

  // ---------------------------------------------------------------------------------------------------------------
  // Other bytes in the same shape

  /** A stream of zeros with a single one. */
  predicate MarkedAt(stream: seq<Byte>, at: nat) {
    at < |stream| && forall q :: 0 <= q < |stream| ==> stream[q] == if q == at then 1 else 0
  }

  function Marked(len: nat, at: nat): (r: seq<Byte>)
    requires at < len
    ensures |r| == len && MarkedAt(r, at)
  {
    seq(len, q => if q == at then 1 else 0)
  }

  /** The file has already been given the byte at `q`. */
  predicate Held(c: Cache, q: nat) {
    q < c.wPos && (q < c.mPos || c.lDk <= c.mDk + q)
  }

  /** Where nothing was written yet the file reads as zeros. */
  ghost predicate GapZero(c: Cache) {
    forall q :: 0 <= q < |c.file| && !Held(c, q) ==> c.file[q] == 0
  }

  function RefillCells(cells: seq<Cell>, stream: seq<Byte>): (r: seq<Cell>)
    requires forall i :: 0 <= i < |cells| ==> cells[i].End() <= |stream|
    ensures |r| == |cells|
    ensures forall i :: 0 <= i < |cells| ==> SameCell(cells[i], r[i]) && IsSlice(r[i], stream)
  {
    if cells == [] then []
    else
      var cell, last := cells[|cells| - 1], |cells| - 1;
      assert cell.End() <= |stream|;
      RefillCells(cells[..last], stream) + [cell.(bytes := stream[cell.offset..cell.End()])]
  }

  function RefillFile(c: Cache, stream: seq<Byte>): (r: seq<Byte>)
    requires c.mDk + c.wPos <= |stream|
    ensures |r| == |c.file| && forall q :: 0 <= q < |r| ==> r[q] == if Held(c, q) then stream[c.mDk + q] else 0
  {
    seq(|c.file|, q requires 0 <= q < |c.file| => if Held(c, q) then stream[c.mDk + q] else 0)
  }

  /** The same cache, had `stream` been pushed. */
  function Refill(c: Cache, stream: seq<Byte>): Cache
    requires c.mDk + c.wPos <= |stream|
    requires forall i :: 0 <= i < |c.cells| ==> c.cells[i].End() <= |stream|
  {
    c.(cells := RefillCells(c.cells, stream), file := RefillFile(c, stream))
  }

  lemma Refillable(c: Cache, stream: seq<Byte>)
    requires Inv(c, stream) && !c.migration.NotStarted?
    ensures c.mDk + c.wPos <= |stream|
    ensures forall i :: 0 <= i < |c.cells| ==> c.cells[i].End() <= |stream|
  {
    hide InOrder, FileHas;
  }

  lemma RefillInv(c: Cache, stream: seq<Byte>, other: seq<Byte>)
    requires Inv(c, stream) && !c.migration.NotStarted? && |other| == |stream|
    ensures c.mDk + c.wPos <= |other| && forall i :: 0 <= i < |c.cells| ==> c.cells[i].End() <= |other|
    ensures var r := Refill(c, other); SameShape(c, r) && Inv(r, other) && GapZero(r)
  {
    hide Good, DiskGood;
    Refillable(c, stream);
    RefillGood(c, stream, other);
    RefillDisk(c, stream, other);
    RefillShape(c, other);
  }

  lemma RefillShape(c: Cache, other: seq<Byte>)
    requires c.mDk + c.wPos <= |other| && forall i :: 0 <= i < |c.cells| ==> c.cells[i].End() <= |other|
    ensures var r := Refill(c, other); SameShape(c, r) && GapZero(r)
  {
    hide RefillCells, RefillFile;
  }

  lemma RefillGood(c: Cache, stream: seq<Byte>, other: seq<Byte>)
    requires Inv(c, stream) && !c.migration.NotStarted? && |other| == |stream|
    requires c.mDk + c.wPos <= |other| && forall i :: 0 <= i < |c.cells| ==> c.cells[i].End() <= |other|
    ensures Good(Refill(c, other), other)
  {
    hide DiskGood, Held, RefillFile, RefillCells;
    var r := Refill(c, other);
    RefillContiguous(c, r);
    RefillOrder(c.cells, r.cells, c.head);
    assert Slices(r.cells, other);
    hide Contiguous, InOrder, Slices;
    assert c.recording && c.part == [];
  }

  lemma RefillOrder(cells: seq<Cell>, cells': seq<Cell>, head: nat)
    requires InOrder(cells, head) && |cells'| == |cells|
    requires forall i :: 0 <= i < |cells| ==> SameCell(cells[i], cells'[i])
    ensures InOrder(cells', head)
  {
    forall i | 0 <= i < |cells'|
      ensures cells'[i].state == cells[i].state
    {
      assert SameCell(cells[i], cells'[i]);
    }
  }

  lemma RefillContiguous(c: Cache, r: Cache)
    requires Shape(c) && SameShape(c, r)
    ensures Contiguous(r.cells, r.lRb, r.hRb)
  {
    hide InOrder;
    forall i | 0 <= i < |r.cells|
      ensures SameCell(c.cells[i], r.cells[i]) && c.cells[i].End() == r.cells[i].End()
    {
    }
    forall i, j | 0 <= i < j < |r.cells|
      ensures r.cells[i].End() <= r.cells[j].offset && (j == i + 1 ==> r.cells[i].End() == r.cells[j].offset)
    {
      assert c.cells[i].End() <= c.cells[j].offset;
    }
  }

  lemma RefillDisk(c: Cache, stream: seq<Byte>, other: seq<Byte>)
    requires Inv(c, stream) && !c.migration.NotStarted? && |other| == |stream|
    requires c.mDk + c.wPos <= |other| && forall i :: 0 <= i < |c.cells| ==> c.cells[i].End() <= |other|
    ensures DiskGood(Refill(c, other), other)
  {
    hide Good, ToCome, RefillCells, RefillFile, FileHas;
    var r := Refill(c, other);
    if c.migration.Finished? {
      assert stream[c.mDk..|stream|] == stream[c.mDk..] && other[c.mDk..|stream|] == other[c.mDk..];
      RefillPiece(c, stream, other, c.mDk, |stream|);
    } else {
      RefillPiece(c, stream, other, c.mDk, c.mDk + c.mPos);
      assert stream[c.lDk..|stream|] == stream[c.lDk..] && other[c.lDk..|stream|] == other[c.lDk..];
      RefillPiece(c, stream, other, c.lDk, |stream|);
      forall i | 0 <= i < |c.cells|
        ensures r.cells[i].offset == c.cells[i].offset && |r.cells[i].bytes| == |c.cells[i].bytes|
      {
        assert SameCell(c.cells[i], r.cells[i]);
      }
      SameToCome(c, r, c.mNext, c.nslots - c.migration.i, c.mDk + c.mPos);
    }
  }

  lemma RefillPiece(c: Cache, stream: seq<Byte>, other: seq<Byte>, x: nat, y: nat)
    requires c.mDk <= x <= y <= |stream| && |other| == |stream| && c.mDk + c.wPos <= |other|
    requires FileHas(c.file, x - c.mDk, stream[x..y])
    requires forall q :: x - c.mDk <= q < y - c.mDk ==> Held(c, q)
    ensures FileHas(RefillFile(c, other), x - c.mDk, other[x..y])
  {
    hide Held, RefillFile;
    var r, at := RefillFile(c, other), x - c.mDk;
    if x < y {
      forall k | 0 <= k < y - x
        ensures r[at..at + (y - x)][k] == other[x..y][k]
      {
        assert Held(c, at + k);
      }
    }
  }

  /** What the file holds is the stream. */
  lemma HeldByte(c: Cache, stream: seq<Byte>, q: nat)
    requires Inv(c, stream) && !c.migration.NotStarted? && Held(c, q)
    ensures q < |c.file| && c.mDk + q < |stream| && c.file[q] == stream[c.mDk + q]
  {
    hide Good, ToCome, FileHas;
    if c.migration.Copying? && q < c.mPos {
      FileHasByte(c.file, 0, stream[c.mDk..c.mDk + c.mPos], q);
    } else if c.migration.Copying? {
      FileHasByte(c.file, c.lDk - c.mDk, stream[c.lDk..], q - (c.lDk - c.mDk));
    } else {
      FileHasByte(c.file, 0, stream[c.lDk..], q);
    }
  }

  // ---------------------------------------------------------------------------------------------------------------
  // Reloads that do not spare the migrator

  /** The first rounds of a reload, all of which read. */
  lemma {:induction false} FirstRounds(c: Cache, rounds: nat, p: nat)
    requires p <= Reads(c, rounds, false) && p <= c.mNext < c.nslots
    ensures var d := ReloadRounds(c, p, false);
      && ReloadRounds(c, rounds, false) == ReloadRounds(d, rounds - p, false)
      && Reads(d, rounds - p, false) == Reads(c, rounds, false) - p
      && Touched(d, rounds - p, false) == Touched(c, rounds, false) - p
      && Touched(c, p, false) == Reads(c, p, false) == p
      && d.rPos == c.rPos + p * SLOT_SIZE && d.hRb == c.hRb + p * SLOT_SIZE && d.mNext == c.mNext - p
      && Kept(c, d) && |d.cells| <= |c.cells| + p
    decreases p
  {
    hide RecycleTail, CanRead, DiskRead;
    if p == 0 {
      ReloadKeeps(c, 0, false);
    } else {
      var c1 := RecycleTail(c);
      RecycleKeeps(c);
      ReadKeeps(c1, false);
      CellsGrow(c, false);
      FirstRounds(DiskRead(c1), rounds - 1, p - 1);
    }
  }

  lemma CellsGrow(c: Cache, drain: bool)
    requires CanRead(RecycleTail(c), drain)
    ensures RecycleTail(c).rPos + ReadSize(RecycleTail(c)) <= |RecycleTail(c).file|
    ensures |DiskRead(RecycleTail(c)).cells| <= |c.cells| + 1
  {
    CanReadFits(RecycleTail(c), drain);
    hide ReadSize;
  }

  /** A ring that held something when recording started, and is still being copied. */
  lemma StartedFull(c: Cache, stream: seq<Byte>)
    requires Inv(c, stream) && c.migration.Copying? && c.migration.i < c.nslots && !Linked(c)
    ensures c.mDk + c.mPos < c.lDk && c.mNext == c.migration.i && c.rPos == 0 && c.mDk < c.lDk
    ensures |c.cells| <= c.nslots && 0 < |c.cells|
  {
    hide CopyFile, InOrder, Faithful;
    assert c.cells[FirstToCome(c, c.mNext)].offset < c.hRb;
  }

  lemma StartedEmpty(c: Cache, stream: seq<Byte>)
    requires Inv(c, stream) && c.migration.Copying? && Linked(c)
    ensures c.mDk == c.lDk && c.mDk + c.rPos == c.hRb && c.mDk + c.mPos <= c.hRb
  {
    hide CopyFile, ToCome, Good;
  }

  lemma FirstPiece(file: seq<Byte>, pos: nat, pieces: seq<seq<Byte>>)
    requires pieces != []
    ensures FileHas(WriteAll(file, pos, pieces), pos, pieces[0])
  {
    assert FileHas(WriteAt(file, pos, pieces[0]), pos, pieces[0]);
    hide FileHas, WriteAt;
    WriteAllKeeps(WriteAt(file, pos, pieces[0]), pos + |pieces[0]|, pieces[1..], pos, pieces[0]);
  }

  /** A finished file that begins, where the migrator went on, with something else than the mark. */
  lemma NotMarked(c: Cache, stream: seq<Byte>, base: nat, pos: nat, piece: seq<Byte>)
    requires c.lDk == base && base + pos < |stream| && stream[base + pos] == 1
    requires piece != [] && piece[0] == 0 && FileHas(c.file, pos, piece)
    ensures !FileTrue(c, stream)
  {
    hide FileHas;
    FileHasByte(c.file, pos, piece, 0);
    if FileHas(c.file, 0, stream[base..]) {
      FileHasByte(c.file, 0, stream[base..], pos);
    }
  }

  /** The place in the stream of what the migrator writes next. */
  function Due(c: Cache): nat {
    c.mDk + c.mPos
  }

  /** A reload that does not spare the migrator reaches the slot it looks at next, and that slot is in use. */
  lemma Reached(c: Cache, stream: seq<Byte>, rounds: nat)
    requires Inv(c, stream) && c.migration.Copying? && !Spares(c, rounds, false)
    ensures c.migration.i < c.nslots && c.mNext < c.nslots && c.mNext <= Reads(c, rounds, false)
    ensures Touched(c, rounds, false) > c.mNext && rounds > c.mNext
    ensures c.mNext > 0 || Due(c) != c.hRb
    ensures Reads(c, rounds, false) == c.mNext ==> !(c.migration.i + 1 == c.nslots && c.mDk == c.lDk)
  {
    InvBounds(c, stream);
    hide Inv, Reads, Touched;
  }

  /** What a read puts into the slot the migrator looks at next does not begin with the mark. */
  lemma MisreadByte(c: Cache, stream: seq<Byte>, q: nat)
    requires Inv(c, stream) && c.migration.Copying? && c.migration.i < c.nslots && GapZero(c)
    requires MarkedAt(stream, Due(c))
    requires c.mNext > 0 || Due(c) != c.hRb
    requires q == c.rPos + c.mNext * SLOT_SIZE && q < |c.file|
    ensures c.file[q] == 0
  {
    hide Inv, Linked;
    if Held(c, q) {
      HeldByte(c, stream, q);
      if Linked(c) {
        StartedEmpty(c, stream);
      } else {
        StartedFull(c, stream);
      }
      assert c.mDk + q != Due(c);
    }
  }

  /** The slot at the tail, where the migrator stands, is read into: later rounds leave it alone. */
  lemma ReadStays(c: Cache, rounds: nat)
    requires |c.cells| <= c.nslots && c.mNext == 0 && 0 < rounds <= c.nslots && CanRead(RecycleTail(c), false)
    ensures var r := ReloadRounds(c, rounds, false);
      && |r.cells| <= r.nslots && c.rPos + SLOT_SIZE <= |c.file|
      && SlotBytes(r, r.mNext) != [] && SlotBytes(r, r.mNext)[0] == c.file[c.rPos]
  {
    var c1 := RecycleTail(c);
    RecycleKeeps(c);
    ReadKeeps(c1, false);
    var d := DiskRead(c1);
    NewestAtEnd(c1);
    hide RecycleTail, CanRead, DiskRead, SlotBytes;
    ReloadPending(d, rounds - 1, false, 1);
    var r := ReloadRounds(c, rounds, false);
    assert Pending(r, r.mNext, 1)[0] == SlotBytes(r, r.mNext);
    assert Pending(d, d.mNext, 1)[0] == SlotBytes(d, d.mNext);
  }

  lemma NewestAtEnd(c: Cache)
    requires |c.cells| <= c.nslots && c.mNext == 0 && CanRead(c, false)
    ensures c.rPos + ReadSize(c) <= |c.file| && c.rPos + SLOT_SIZE <= |c.file|
    ensures var d := DiskRead(c);
      && |d.cells| <= d.nslots && d.mNext == d.nslots - 1 && d.nslots == c.nslots
      && SlotBytes(d, d.mNext) == c.file[c.rPos..c.rPos + SLOT_SIZE]
  {
    CanReadFits(c, false);
    assert ReadSize(c) == SLOT_SIZE;
    hide ReadSize;
  }

  /** What the migrator writes next spoils the finished file if it does not begin with the mark. */
  lemma Spoiled(c: Cache, stream: seq<Byte>)
    requires c.migration.Copying? && c.migration.i < c.nslots && |c.cells| <= c.nslots
    requires Due(c) < |stream| && stream[Due(c)] == 1
    requires SlotBytes(c, c.mNext) != [] && SlotBytes(c, c.mNext)[0] == 0
    ensures !FileTrue(Finish(c), stream)
  {
    hide Finish, SlotBytes, FileTrue;
    FinishWrites(c);
    var pieces := Pending(c, c.mNext, c.nslots - c.migration.i);
    FirstPiece(c.file, c.mPos, pieces);
    NotMarked(Finish(c), stream, c.mDk, c.mPos, pieces[0]);
  }

  /** The slot the migrator looks at next was read into. */
  lemma SpoiledByRead(c: Cache, stream: seq<Byte>, rounds: nat)
    requires Inv(c, stream) && c.migration.Copying? && rounds <= c.nslots && !Spares(c, rounds, false)
    requires GapZero(c) && MarkedAt(stream, Due(c))
    requires c.mNext < Reads(c, rounds, false)
    ensures !FileTrue(Finish(ReloadRounds(c, rounds, false)), stream)
  {
    ReadPiece(c, stream, rounds);
    var r := ReloadRounds(c, rounds, false);
    ReloadKeeps(c, rounds, false);
    Reached(c, stream, rounds);
    InvBounds(c, stream);
    hide Inv, Spares, FileTrue, ReloadRounds, Reads, Touched, SlotBytes, GapZero, Finish;
    Spoiled(r, stream);
  }

  lemma ReadPiece(c: Cache, stream: seq<Byte>, rounds: nat)
    requires Inv(c, stream) && c.migration.Copying? && rounds <= c.nslots && !Spares(c, rounds, false)
    requires GapZero(c) && MarkedAt(stream, Due(c))
    requires c.mNext < Reads(c, rounds, false)
    ensures var r := ReloadRounds(c, rounds, false);
      |r.cells| <= r.nslots && SlotBytes(r, r.mNext) != [] && SlotBytes(r, r.mNext)[0] == 0
  {
    hide Inv, Spares, ReloadRounds, Reads, Touched, SlotBytes, GapZero, MarkedAt, Due;
    Reached(c, stream, rounds);
    InvBounds(c, stream);
    ReadThere(c, rounds);
    MisreadByte(c, stream, c.rPos + c.mNext * SLOT_SIZE);
  }

  lemma ReadThere(c: Cache, rounds: nat)
    requires |c.cells| <= c.nslots && c.mNext < c.nslots && rounds <= c.nslots && c.mNext < Reads(c, rounds, false)
    ensures var r, q := ReloadRounds(c, rounds, false), c.rPos + c.mNext * SLOT_SIZE;
      && |r.cells| <= r.nslots && q < |c.file|
      && SlotBytes(r, r.mNext) != [] && SlotBytes(r, r.mNext)[0] == c.file[q]
  {
    hide ReloadRounds, Reads, Touched, RecycleTail, CanRead, SlotBytes;
    var p, d := c.mNext, ReloadRounds(c, c.mNext, false);
    FirstRounds(c, rounds, p);
    SomeRead(d, rounds - p);
    ReadStays(d, rounds - p);
  }

  lemma SomeRead(c: Cache, rounds: nat)
    requires Reads(c, rounds, false) > 0
    ensures rounds > 0 && CanRead(RecycleTail(c), false)
  {
    hide CanRead, RecycleTail;
  }

  /** A reload that changes a slot without reading has emptied the oldest slot of a full ring. */
  lemma OnlyEmptied(c: Cache, rounds: nat)
    requires Reads(c, rounds, false) == 0 && Touched(c, rounds, false) > 0
    ensures ReloadRounds(c, rounds, false) == RecycleTail(c)
    ensures 0 < |c.cells| == c.nslots && !c.drained
    ensures RecycleTail(c).cells == c.cells[1..] && RecycleTail(c).mNext == c.mNext
  {
    hide CanRead;
  }

  /** What the migrator finds in the slot after an emptied one, on a ring with more than one slot. */
  lemma NextInRing(c: Cache)
    requires 2 <= |c.cells| == c.nslots && !c.drained && c.part == []
    requires RecycleTail(c).cells == c.cells[1..]
    ensures |RecycleTail(c).cells| <= RecycleTail(c).nslots == c.nslots
    ensures SlotBytes(RecycleTail(c), 0) == [] && SlotBytes(RecycleTail(c), 1) == SlotBytes(c, 1) == c.cells[1].bytes
  {
  }

  /** The slot two places on, when the one before it is due: it holds something that does not begin with the mark. */
  lemma AfterDue(c: Cache, stream: seq<Byte>, p: nat, left: nat)
    requires Inv(c, stream) && c.migration.Copying? && MarkedAt(stream, Due(c))
    requires ToCome(c, p, left, Due(c)) && 2 <= left && p + 1 < c.nslots && c.nslots - |c.cells| <= p
    ensures SlotBytes(c, p + 1) != [] && SlotBytes(c, p + 1)[0] == 0
  {
    var k := p - (c.nslots - |c.cells|);
    assert c.recording && !c.drained;
    hide DiskGood, InOrder;
    assert c.cells[k].End() <= c.cells[k + 1].offset;
    assert IsSlice(c.cells[k + 1], stream);
  }

  /** The slot the migrator looks at next was emptied, and there are more to look at. */
  lemma SpoiledByEmptying(c: Cache, stream: seq<Byte>)
    requires c.migration.Copying? && c.migration.i + 1 < c.nslots && |c.cells| <= c.nslots && c.mNext == 0
    requires Due(c) < |stream| && stream[Due(c)] == 1
    requires SlotBytes(c, 0) == [] && SlotBytes(c, 1) != [] && SlotBytes(c, 1)[0] == 0
    ensures !FileTrue(Finish(c), stream)
  {
    hide SlotBytes, FileTrue, Migrate;
    MigrateCopies(c);
    var d := Migrate(c);
    assert SlotBytes(d, 1) == SlotBytes(c, 1) by {
      SameSlot(c, d, 1);
    }
    Spoiled(d, stream);
  }

  lemma SameSlot(c: Cache, d: Cache, p: nat)
    requires |c.cells| <= c.nslots && d.cells == c.cells && d.nslots == c.nslots
    requires d.part == c.part && d.drained == c.drained
    ensures SlotBytes(c, p) == SlotBytes(d, p)
  {
  }

  /** The last slot to look at was emptied: what was in it is missing from the file. */
  lemma SpoiledByLoss(c: Cache, stream: seq<Byte>)
    requires c.migration.Copying? && c.migration.i + 1 == c.nslots && |c.cells| <= c.nslots && c.mNext == 0
    requires Due(c) < |stream| && stream[Due(c)] == 1
    requires SlotBytes(c, 0) == [] && (c.mPos < |c.file| ==> c.file[c.mPos] == 0)
    ensures !FileTrue(Finish(c), stream)
  {
    hide SlotBytes, FileHas;
    FinishWrites(c);
    assert Pending(c, 0, 1) == [[]];
    assert Finish(c).file == c.file;
    if FileHas(c.file, 0, stream[c.mDk..]) {
      FileHasByte(c.file, 0, stream[c.mDk..], c.mPos);
    }
  }

  /** The cache after the reads of a reload that then only empties the slot the migrator looks at next. */
  lemma Emptied(c: Cache, stream: seq<Byte>, rounds: nat)
    requires Inv(c, stream) && c.migration.Copying? && rounds <= c.nslots && !Spares(c, rounds, false)
    requires MarkedAt(stream, Due(c)) && c.mNext == Reads(c, rounds, false)
    ensures var r := ReloadRounds(c, rounds, false);
      && |r.cells| <= r.nslots && r.mNext == 0 && SlotBytes(r, 0) == []
      && (c.migration.i + 1 < c.nslots ==> SlotBytes(r, 1) != [] && SlotBytes(r, 1)[0] == 0)
  {
    Reached(c, stream, rounds);
    InvBounds(c, stream);
    NoPart(c, stream);
    var p, d, r := c.mNext, ReloadRounds(c, c.mNext, false), ReloadRounds(c, rounds, false);
    FirstRounds(c, rounds, p);
    OnlyEmptied(d, rounds - p);
    assert r == RecycleTail(d);
    if c.migration.i + 1 < c.nslots {
      hide Inv, Spares, ReloadRounds, Reads, Touched, RecycleTail, SlotBytes;
      NextInRing(d);
      if Linked(c) {
        EmptiedLinked(c, stream, p);
      } else {
        EmptiedUnlinked(c, stream, p);
      }
    } else {
      hide Inv, Spares, ReloadRounds, Reads, Touched;
    }
  }

  lemma EmptiedLinked(c: Cache, stream: seq<Byte>, p: nat)
    requires Inv(c, stream) && c.migration.Copying? && Linked(c) && p <= c.mNext < c.nslots
    requires MarkedAt(stream, Due(c)) && c.migration.i + 1 < c.nslots
    requires Touched(c, p, false) == Reads(c, p, false) == p == c.mNext
    ensures var d := ReloadRounds(c, p, false);
      |d.cells| == d.nslots && d.nslots == c.nslots ==> SlotBytes(d, 1) != [] && SlotBytes(d, 1)[0] == 0
  {
    hide Inv, Good, DiskGood, ReloadRounds, Reads, Touched, Linked, SlotBytes, ToCome, MarkedAt;
    var d := ReloadRounds(c, p, false);
    assert ReloadSafe(c, p, false);
    hide ReloadSafe;
    InvParts(c, stream);
    ReloadGood(c, p, false, stream);
    ReloadKeeps(c, p, false);
    if |d.cells| == d.nslots {
      assert d.mNext == 0 by {
        NextAfter(c, p);
      }
      PartsInv(d, stream);
      DueToCome(d, stream);
      AfterDue(d, stream, 0, d.nslots - d.migration.i);
    }
  }

  lemma NextAfter(c: Cache, p: nat)
    requires p <= Reads(c, p, false) && p <= c.mNext < c.nslots
    ensures ReloadRounds(c, p, false).mNext == c.mNext - p
  {
    FirstRounds(c, p, p);
  }

  lemma InvParts(c: Cache, stream: seq<Byte>)
    requires Inv(c, stream)
    ensures Good(c, stream) && DiskGood(c, stream)
  {
  }

  lemma PartsInv(c: Cache, stream: seq<Byte>)
    requires Good(c, stream) && DiskGood(c, stream)
    ensures Inv(c, stream)
  {
  }

  lemma EmptiedUnlinked(c: Cache, stream: seq<Byte>, p: nat)
    requires Inv(c, stream) && c.migration.Copying? && !Linked(c) && p == c.mNext < c.nslots
    requires MarkedAt(stream, Due(c)) && c.migration.i + 1 < c.nslots
    requires Touched(c, p, false) == Reads(c, p, false) == p
    requires |ReloadRounds(c, p, false).cells| == ReloadRounds(c, p, false).nslots == c.nslots <= |c.cells| + p
    ensures SlotBytes(ReloadRounds(c, p, false), 1) != [] && SlotBytes(ReloadRounds(c, p, false), 1)[0] == 0
  {
    StartedFull(c, stream);
    var left, d := c.nslots - c.migration.i, ReloadRounds(c, p, false);
    DueToCome(c, stream);
    hide Inv, ReloadRounds, Touched, Reads, Linked, SlotBytes, ToCome, MarkedAt, Pending;
    AfterDue(c, stream, p, left);
    SlotTwoOn(c, p, left);
  }

  lemma DueToCome(c: Cache, stream: seq<Byte>)
    requires Inv(c, stream) && c.migration.Copying?
    ensures c.migration.i <= c.nslots && ToCome(c, c.mNext, c.nslots - c.migration.i, Due(c))
  {
    hide Good, ToCome, CopyFile;
  }

  lemma SlotTwoOn(c: Cache, p: nat, left: nat)
    requires |c.cells| <= c.nslots && p == c.mNext && p + left <= c.nslots && 2 <= left
    requires Touched(c, p, false) == Reads(c, p, false) == p
    ensures var d := ReloadRounds(c, p, false);
      |d.cells| <= d.nslots && SlotBytes(d, 1) == SlotBytes(c, p + 1)
  {
    hide ReloadRounds, Touched, Reads, SlotBytes, After, Pending;
    var d := ReloadRounds(c, p, false);
    ReloadPending(c, p, false, left);
    ReloadKeeps(c, p, false);
    SecondPending(c, p, left);
    NextAfter(c, p);
    SecondPending(d, 0, left);
  }

  lemma SecondPending(c: Cache, p: nat, left: nat)
    requires |c.cells| <= c.nslots && 2 <= left && p + 1 < c.nslots
    ensures Pending(c, p, left)[1] == SlotBytes(c, p + 1)
  {
    hide SlotBytes;
    var rest := Pending(c, After(c.nslots, p), left - 1);
    assert Pending(c, p, left) == [SlotBytes(c, p)] + rest;
  }

  lemma NoPart(c: Cache, stream: seq<Byte>)
    requires Inv(c, stream) && !c.migration.NotStarted?
    ensures c.part == [] && !c.drained && c.recording
  {
    hide Contiguous, InOrder, Faithful, DiskGood;
  }

  lemma SpoiledFile(c: Cache, stream: seq<Byte>, rounds: nat)
    requires Inv(c, stream) && c.migration.Copying? && rounds <= c.nslots && !Spares(c, rounds, false)
    requires GapZero(c) && MarkedAt(stream, Due(c))
    ensures !FileTrue(Finish(ReloadRounds(c, rounds, false)), stream)
  {
    hide Inv, Spares, FileTrue, ReloadRounds, Reads, Touched, SlotBytes, Finish;
    Reached(c, stream, rounds);
    if c.mNext < Reads(c, rounds, false) {
      SpoiledByRead(c, stream, rounds);
    } else {
      Emptied(c, stream, rounds);
      ReloadKeeps(c, rounds, false);
      var r := ReloadRounds(c, rounds, false);
      InvBounds(c, stream);
      if c.migration.i + 1 < c.nslots {
        SpoiledByEmptying(r, stream);
      } else {
        NotHeldDue(c, stream);
        SpoiledByLoss(r, stream);
      }
    }
  }

  lemma NotHeldDue(c: Cache, stream: seq<Byte>)
    requires Inv(c, stream) && c.migration.Copying? && c.migration.i < c.nslots && c.mDk != c.lDk
    ensures !Held(c, c.mPos)
  {
    hide Inv, Linked;
    if Linked(c) {
      StartedEmpty(c, stream);
    } else {
      StartedFull(c, stream);
    }
  }

  /** What is due when a reload does not spare the migrator has been pushed. */
  lemma DueInside(c: Cache, stream: seq<Byte>, rounds: nat)
    requires Inv(c, stream) && c.migration.Copying? && !Spares(c, rounds, false)
    ensures Due(c) < |stream|
  {
    hide Inv, Spares, Linked, Reads, Touched;
    Reached(c, stream, rounds);
    RingEnd(c, stream);
    if Linked(c) {
      StartedEmpty(c, stream);
      if Due(c) == c.hRb {
        FirstRead(c, rounds);
        LinkedReadFits(c, stream);
      }
    } else {
      StartedFull(c, stream);
    }
  }

  lemma RingEnd(c: Cache, stream: seq<Byte>)
    requires Inv(c, stream)
    ensures c.hRb <= c.hOffset == |stream|
    ensures c.migration.Copying? ==> c.lDk <= c.hRb
  {
    hide Contiguous, InOrder, Slices, CopyFile, ToCome;
  }

  lemma FirstRead(c: Cache, rounds: nat)
    requires Reads(c, rounds, false) > 0
    ensures CanRead(RecycleTail(c), false)
  {
    hide CanRead, RecycleTail;
  }

  lemma LinkedReadFits(c: Cache, stream: seq<Byte>)
    requires Inv(c, stream) && c.migration.Copying? && Linked(c) && CanRead(RecycleTail(c), false)
    ensures c.hRb < |stream|
  {
    RecycleKeeps(c);
    CanReadFits(RecycleTail(c), false);
    hide CanRead;
    StartedEmpty(c, stream);
    RingEnd(c, stream);
    assert ReadSize(c) > 0 by {
      SameReadSize(c, RecycleTail(c));
    }
    hide Inv, RecycleTail;
    WritePos(c, stream);
  }

  lemma WritePos(c: Cache, stream: seq<Byte>)
    requires Inv(c, stream) && c.migration.Copying?
    ensures c.wPos == c.hOffset - c.mDk && c.hOffset < INVALID_OFFSET
  {
    hide Contiguous, InOrder, Faithful, CopyFile, ToCome;
  }

  // ---------------------------------------------------------------------------------------------------------------
  // Pushes: when the finished file is true

  lemma WriteShape(c: Cache, d: Cache, data: seq<Byte>, more: seq<Byte>)
    requires SameShape(c, d) && |more| == |data|
    ensures SameShape(DiskWrite(c, data), DiskWrite(d, more))
    ensures ReloadCount(DiskWrite(c, data), false) == ReloadCount(DiskWrite(d, more), false)
  {
  }

  lemma SpareShape(c: Cache, d: Cache, rounds: nat)
    requires SameShape(c, d)
    ensures Spares(c, rounds, false) <==> Spares(d, rounds, false)
  {
    hide Reads, Touched;
    ReloadShape(c, d, rounds, false);
  }

  lemma AppendedInv(c: Cache, stream: seq<Byte>, data: seq<Byte>)
    requires Inv(c, stream) && !c.migration.NotStarted? && c.hOffset + |data| < INVALID_OFFSET
    ensures var r := DiskWrite(c, data);
      && Inv(r, stream + data) && r.migration == c.migration && r.fslots == c.fslots && r.nslots == c.nslots
      && ReloadCount(r, false) <= r.nslots
      && (c.fslots == 0 ==> Push(c, data) == ReloadRounds(r, ReloadCount(r, false), false))
  {
    NoPart(c, stream);
    RecordingFacts(c, stream);
    InvParts(c, stream);
    CountOf(c, stream);
    hide Good, DiskGood, WriteAt, ReloadRounds;
    DiskWriteGood(c, stream, data);
    DiskWriteDisk(c, stream, data);
    CountFits(DiskWrite(c, data), false);
  }

  lemma CountOf(c: Cache, stream: seq<Byte>)
    requires Inv(c, stream)
    ensures 1 <= c.nslots && 0 <= c.fslots <= c.nslots
  {
    hide Contiguous, InOrder, Faithful, DiskGood;
  }

  /** An append to a file that reads as zeros wherever nothing was written leaves it so. */
  lemma GapStaysZero(c: Cache, stream: seq<Byte>, data: seq<Byte>)
    requires Inv(c, stream) && c.migration.Copying? && GapZero(c)
    ensures GapZero(DiskWrite(c, data))
  {
    WritePos(c, stream);
    RingEnd(c, stream);
    hide Inv;
    var r := DiskWrite(c, data);
    forall q | 0 <= q < |r.file| && !Held(r, q)
      ensures r.file[q] == 0
    {
      assert q < |c.file| ==> !Held(c, q);
    }
  }

  /** The same cache and push, with other bytes: zeros, and a single one at `at` if that is inside. */
  lemma MarkedAppend(c: Cache, stream: seq<Byte>, data: seq<Byte>, at: nat)
    returns (d: Cache, other: seq<Byte>, more: seq<Byte>)
    requires Inv(c, stream) && !c.migration.NotStarted?
    ensures SameShape(c, d) && Inv(d, other) && |more| == |data|
    ensures (at < |other + more| ==> MarkedAt(other + more, at)) && |other| == |stream| && GapZero(d)
  {
    hide Inv, MarkedAt, GapZero, Refill, SameShape;
    var all := if at < |stream| + |data| then Marked(|stream| + |data|, at) else stream + data;
    other, more := all[..|stream|], all[|stream|..];
    assert other + more == all;
    RefillInv(c, stream, other);
    d := Refill(c, other);
  }

  lemma ShapeFields(c: Cache, d: Cache)
    requires SameShape(c, d)
    ensures d.migration == c.migration && d.hOffset == c.hOffset && d.fslots == c.fslots && d.nslots == c.nslots
    ensures d.mDk == c.mDk && d.mPos == c.mPos && d.hRb == c.hRb && d.rPos == c.rPos && d.recording == c.recording
  {
  }

  /** A push finds the ring empty while it is being copied: the file the migrator then finishes is true, whatever the
      bytes are, if and only if the reload spares what the migrator has still to look at. */
  lemma UnderrunExact(c: Cache, stream: seq<Byte>, data: seq<Byte>)
    requires Inv(c, stream) && c.migration.Copying? && c.fslots == 0 && c.hOffset + |data| < INVALID_OFFSET
    ensures (forall d: Cache, other: seq<Byte>, more: seq<Byte> ::
               SameShape(c, d) && Inv(d, other) && |more| == |data| ==> FileTrue(Finish(Push(d, more)), other + more))
      <==> Spares(DiskWrite(c, data), ReloadCount(DiskWrite(c, data), false), false)
  {
    hide Inv, Spares, FileTrue, Finish, Push, SameShape, DiskWrite, ReloadCount;
    var c1 := DiskWrite(c, data);
    if Spares(c1, ReloadCount(c1, false), false) {
      forall d: Cache, other: seq<Byte>, more: seq<Byte> | SameShape(c, d) && Inv(d, other) && |more| == |data|
        ensures FileTrue(Finish(Push(d, more)), other + more)
      {
        SparedPush(c, d, other, data, more);
      }
    } else {
      AppendedInv(c, stream, data);
      DueInside(c1, stream + data, ReloadCount(c1, false));
      var d, other, more := MarkedAppend(c, stream, data, Due(c1));
      SpoiledPush(c, d, other, data, more);
    }
  }

  lemma SparedPush(c: Cache, d: Cache, other: seq<Byte>, data: seq<Byte>, more: seq<Byte>)
    requires SameShape(c, d) && Inv(d, other) && |more| == |data|
    requires c.migration.Copying? && c.fslots == 0 && c.hOffset + |data| < INVALID_OFFSET
    requires Spares(DiskWrite(c, data), ReloadCount(DiskWrite(c, data), false), false)
    ensures FileTrue(Finish(Push(d, more)), other + more)
  {
    hide Inv, Spares, FileTrue, Finish, Push, SameShape, DiskWrite, ReloadCount, ReloadRounds;
    ShapeFields(c, d);
    var c1, x := DiskWrite(c, data), DiskWrite(d, more);
    WriteShape(c, d, data, more);
    SpareShape(c1, x, ReloadCount(x, false));
    AppendedInv(d, other, more);
    SparedFile(x, other + more, ReloadCount(x, false));
  }

  lemma SpoiledPush(c: Cache, d: Cache, other: seq<Byte>, data: seq<Byte>, more: seq<Byte>)
    requires SameShape(c, d) && Inv(d, other) && |more| == |data|
    requires c.migration.Copying? && c.fslots == 0 && c.hOffset + |data| < INVALID_OFFSET
    requires !Spares(DiskWrite(c, data), ReloadCount(DiskWrite(c, data), false), false)
    requires GapZero(d) && MarkedAt(other + more, Due(DiskWrite(c, data)))
    ensures !FileTrue(Finish(Push(d, more)), other + more)
  {
    hide Inv, Spares, FileTrue, Finish, Push, SameShape, DiskWrite, ReloadCount, ReloadRounds, GapZero, MarkedAt;
    ShapeFields(c, d);
    var c1, x := DiskWrite(c, data), DiskWrite(d, more);
    WriteShape(c, d, data, more);
    ShapeFields(c1, x);
    SpareShape(c1, x, ReloadCount(x, false));
    AppendedInv(d, other, more);
    GapStaysZero(d, other, more);
    SpoiledFile(x, other + more, ReloadCount(x, false));
  }

  // ---------------------------------------------------------------------------------------------------------------
  // Reads that are not linked

  /** A slot that is FULL is still there after a reload. */
  lemma {:induction false} FullStays(c: Cache, rounds: nat, drain: bool, cell: Cell)
    requires cell in c.cells && cell.state == Full
    ensures cell in ReloadRounds(c, rounds, drain).cells
    decreases rounds
  {
    hide CanRead, ReadSize;
    if rounds > 0 {
      var c1 := RecycleTail(c);
      FullNotEmptied(c, cell);
      if CanRead(c1, drain) {
        CanReadFits(c1, drain);
        FullStays(DiskRead(c1), rounds - 1, drain, cell);
      }
    }
  }

  lemma FullNotEmptied(c: Cache, cell: Cell)
    requires cell in c.cells && cell.state == Full
    ensures cell in RecycleTail(c).cells
  {
    var i :| 0 <= i < |c.cells| && c.cells[i] == cell;
    if RecycleTail(c) != c {
      assert RecycleTail(c).cells[i - 1] == cell;
    }
  }

  /** What the first read of a reload puts into the ring. */
  function Loaded(c: Cache): Cell
    requires c.rPos + ReadSize(c) <= |c.file|
  {
    Cell(Full, c.hRb, c.file[c.rPos..c.rPos + ReadSize(c)])
  }

  lemma LoadedStays(c: Cache, rounds: nat, drain: bool)
    requires Reads(c, rounds, drain) > 0
    ensures c.rPos + ReadSize(c) <= |c.file| && ReadSize(c) > 0
    ensures Loaded(c) in ReloadRounds(c, rounds, drain).cells
  {
    var c1 := RecycleTail(c);
    assert CanRead(c1, drain) && rounds > 0;
    RecycleKeeps(c);
    CanReadFits(c1, drain);
    SameReadSize(c, c1);
    hide CanRead, ReadSize, RecycleTail;
    var d := DiskRead(c1);
    assert d.cells[|c1.cells|] == Loaded(c);
    FullStays(d, rounds - 1, drain, Loaded(c));
  }

  /** A read that is not linked labels its bytes with the mark's place, and does not find the mark there. */
  lemma Mislabelled(c: Cache, stream: seq<Byte>, rounds: nat, drain: bool)
    requires Inv(c, stream) && !c.migration.NotStarted? && GapZero(c) && !Linked(c)
    requires c.hRb < |stream| ==> MarkedAt(stream, c.hRb)
    requires Reads(c, rounds, drain) > 0
    ensures !Good(ReloadRounds(c, rounds, drain), stream)
  {
    hide Inv, Good, ReloadRounds, Reads, ReadSize;
    LoadedStays(c, rounds, drain);
    UnmarkedByte(c, stream);
    var r := ReloadRounds(c, rounds, drain);
    if Good(r, stream) {
      InSlices(r, stream, Loaded(c));
    }
  }

  lemma InSlices(c: Cache, stream: seq<Byte>, cell: Cell)
    requires Good(c, stream) && cell in c.cells
    ensures IsSlice(cell, stream)
    ensures |cell.bytes| > 0 ==> cell.offset < |stream| && cell.bytes[0] == stream[cell.offset]
  {
    hide Contiguous, InOrder;
  }

  lemma UnmarkedByte(c: Cache, stream: seq<Byte>)
    requires Inv(c, stream) && !c.migration.NotStarted? && GapZero(c) && !Linked(c) && c.rPos < |c.file|
    requires c.hRb < |stream| ==> MarkedAt(stream, c.hRb)
    ensures c.hRb < |stream| ==> c.file[c.rPos] == 0
  {
    if Held(c, c.rPos) {
      HeldByte(c, stream, c.rPos);
      StartOf(c, stream);
    }
  }

  lemma StartOf(c: Cache, stream: seq<Byte>)
    requires Inv(c, stream) && !c.migration.NotStarted?
    ensures c.FileStart() == c.mDk
  {
    hide Good, CopyGood, FileHas;
  }

  /** Reads that are linked keep the ring true, whatever becomes of the migration. */
  lemma {:induction false} LinkedReads(c: Cache, stream: seq<Byte>, rounds: nat, drain: bool)
    requires Good(c, stream) && !c.migration.NotStarted?
    requires Reads(c, rounds, drain) == 0 || (Linked(c) && WholeFile(c, stream))
    ensures Good(ReloadRounds(c, rounds, drain), stream)
    decreases rounds
  {
    hide Good, CanRead, ReadSize, WholeFile, Linked;
    if rounds > 0 {
      var c1 := RecycleTail(c);
      RecycleTailGood(c, stream);
      if CanRead(c1, drain) {
        CanReadFits(c1, drain);
        WholeStays(c, stream);
        DiskReadGood(c1, stream, drain);
        WholeRead(c1, stream);
        LinkedReads(DiskRead(c1), stream, rounds - 1, drain);
      }
    }
  }

  lemma WholeStays(c: Cache, stream: seq<Byte>)
    requires WholeFile(c, stream) && Linked(c)
    ensures WholeFile(RecycleTail(c), stream) && Linked(RecycleTail(c))
    ensures RecycleTail(c).migration == c.migration
  {
    hide FileHas;
  }

  lemma WholeRead(c: Cache, stream: seq<Byte>)
    requires WholeFile(c, stream) && c.rPos + ReadSize(c) <= |c.file|
    ensures WholeFile(DiskRead(c), stream)
  {
    hide FileHas, ReadSize;
  }

  // ---------------------------------------------------------------------------------------------------------------
  // Pushes and pops: when all stays good

  /** A push while recording keeps ring and file good, whatever the bytes are, if and only if it is one that is allowed:
      its reload reads nothing or is linked, and it spares the migrator. */
  lemma PushExact(c: Cache, stream: seq<Byte>, data: seq<Byte>)
    requires Inv(c, stream) && !c.migration.NotStarted? && c.hOffset + |data| < INVALID_OFFSET
    ensures (forall d: Cache, other: seq<Byte>, more: seq<Byte> ::
               SameShape(c, d) && Inv(d, other) && |more| == |data| ==> Inv(Push(d, more), other + more))
      <==> WriteSafe(c, data)
  {
    hide Inv, Push, SameShape, DiskWrite, ReloadCount, WriteSafe;
    if WriteSafe(c, data) {
      forall d: Cache, other: seq<Byte>, more: seq<Byte> | SameShape(c, d) && Inv(d, other) && |more| == |data|
        ensures Inv(Push(d, more), other + more)
      {
        SafePush(c, d, other, data, more);
      }
    } else {
      UnsafePush(c, stream, data);
    }
  }

  lemma SafeShape(c: Cache, d: Cache, rounds: nat, drain: bool)
    requires SameShape(c, d) && (c.migration.Copying? ==> !drain)
    ensures ReloadSafe(c, rounds, drain) <==> ReloadSafe(d, rounds, drain)
  {
    hide Reads, Touched;
    ReloadShape(c, d, rounds, drain);
  }

  lemma SafePush(c: Cache, d: Cache, other: seq<Byte>, data: seq<Byte>, more: seq<Byte>)
    requires SameShape(c, d) && Inv(d, other) && |more| == |data| && WriteSafe(c, data)
    requires !c.migration.NotStarted? && c.hOffset + |data| < INVALID_OFFSET
    ensures Inv(Push(d, more), other + more)
  {
    hide Inv, Push, SameShape, DiskWrite, ReloadCount, ReloadSafe;
    ShapeFields(c, d);
    NoPart(d, other);
    WriteShape(c, d, data, more);
    SafeShape(DiskWrite(c, data), DiskWrite(d, more), ReloadCount(DiskWrite(c, data), false), false);
    RecordingWriteInv(d, other, more);
  }

  lemma UnsafePush(c: Cache, stream: seq<Byte>, data: seq<Byte>)
    requires Inv(c, stream) && !c.migration.NotStarted? && c.hOffset + |data| < INVALID_OFFSET && !WriteSafe(c, data)
    ensures exists d: Cache, other: seq<Byte>, more: seq<Byte> ::
      SameShape(c, d) && Inv(d, other) && |more| == |data| && !Inv(Push(d, more), other + more)
  {
    hide Inv, Push, SameShape, DiskWrite, ReloadCount, Spares, Reads, Linked, FileTrue, Finish;
    var c1 := DiskWrite(c, data);
    var rounds := ReloadCount(c1, false);
    AppendedInv(c, stream, data);
    if Reads(c1, rounds, false) > 0 && !Linked(c1) {
      var d, other, more := MarkedAppend(c, stream, data, c1.hRb);
      MislabelledPush(c, d, other, data, more);
    } else {
      SparesFinished(c1, rounds);
      DueInside(c1, stream + data, rounds);
      var d, other, more := MarkedAppend(c, stream, data, Due(c1));
      SpoiledPush(c, d, other, data, more);
      ShapeFields(c, d);
      NoPart(d, other);
      CopyingAfter(d, other, more);
    }
  }

  lemma SparesFinished(c: Cache, rounds: nat)
    requires !Spares(c, rounds, false)
    ensures c.migration.Copying?
  {
    hide Reads, Touched;
  }

  /** After a push during the migration the invariant would make the finished file true. */
  lemma CopyingAfter(c: Cache, stream: seq<Byte>, data: seq<Byte>)
    requires c.migration.Copying? && !FileTrue(Finish(Push(c, data)), stream + data) && c.recording
    ensures !Inv(Push(c, data), stream + data)
  {
    hide Inv, FileTrue, Finish, ReloadRounds, WriteAt;
    var c1 := DiskWrite(c, data);
    ReloadKeeps(c1, ReloadCount(c1, false), false);
    if Inv(Push(c, data), stream + data) {
      FinishGood(Push(c, data), stream + data);
    }
  }

  lemma MislabelledPush(c: Cache, d: Cache, other: seq<Byte>, data: seq<Byte>, more: seq<Byte>)
    requires SameShape(c, d) && Inv(d, other) && |more| == |data| && GapZero(d)
    requires !c.migration.NotStarted? && c.fslots == 0 && c.hOffset + |data| < INVALID_OFFSET
    requires var c1 := DiskWrite(c, data);
      && Reads(c1, ReloadCount(c1, false), false) > 0 && !Linked(c1)
      && (c1.hRb < |other + more| ==> MarkedAt(other + more, c1.hRb))
    ensures !Inv(Push(d, more), other + more)
  {
    hide Inv, Push, SameShape, DiskWrite, ReloadCount, ReloadRounds, GapZero, MarkedAt, Reads;
    ShapeFields(c, d);
    var c1, x := DiskWrite(c, data), DiskWrite(d, more);
    WriteShape(c, d, data, more);
    ShapeFields(c1, x);
    SameLink(c1, x);
    ReloadShape(c1, x, ReloadCount(x, false), false);
    AppendedInv(d, other, more);
    GapKept(d, other, more);
    Mislabelled(x, other + more, ReloadCount(x, false), false);
    OnlyGood(Push(d, more), other + more);
  }

  lemma SameLink(c: Cache, d: Cache)
    requires SameShape(c, d)
    ensures Linked(c) <==> Linked(d)
  {
  }

  lemma OnlyGood(c: Cache, stream: seq<Byte>)
    requires !Good(c, stream)
    ensures !Inv(c, stream)
  {
  }

  lemma GapKept(c: Cache, stream: seq<Byte>, data: seq<Byte>)
    requires Inv(c, stream) && !c.migration.NotStarted? && GapZero(c)
    ensures GapZero(DiskWrite(c, data))
  {
    if c.migration.Copying? {
      GapStaysZero(c, stream, data);
    } else {
      WrittenFrom(c, stream);
      hide Inv;
      var r := DiskWrite(c, data);
      forall q | 0 <= q < |r.file| && !Held(r, q)
        ensures r.file[q] == 0
      {
        assert q < |c.file| ==> !Held(c, q);
      }
    }
  }

  lemma WrittenFrom(c: Cache, stream: seq<Byte>)
    requires Inv(c, stream) && c.migration.Finished?
    ensures c.lDk == c.mDk && (c.wPos > |c.file| ==> c.wPos == 0)
  {
    hide Good;
  }

  lemma HeadShape(c: Cache, d: Cache)
    requires SameShape(c, d)
    ensures HeadFull(c) <==> HeadFull(d)
    ensures HeadFull(c) ==> SameShape(TakeHead(c), TakeHead(d))
    ensures HeadFull(c) ==> ReloadCount(TakeHead(c), true) == ReloadCount(TakeHead(d), true)
    ensures HeadFull(c) ==> ReloadCount(TakeHead(c), false) == ReloadCount(TakeHead(d), false)
  {
    if c.head < |c.cells| {
      assert SameCell(c.cells[c.head], d.cells[c.head]);
    }
  }

  /** What a pop does once the file is complete. */
  lemma PopIs(c: Cache, stream: seq<Byte>, drain: bool)
    requires Inv(c, stream) && c.migration.Finished?
    ensures PopSafe(c, drain) <==>
      (HeadFull(c) ==> ReloadSafe(TakeHead(c), ReloadCount(TakeHead(c), drain), drain))
    ensures HeadFull(c) ==>
      PopCache(c, drain) == ReloadRounds(TakeHead(c), ReloadCount(TakeHead(c), drain), drain)
  {
    NoPart(c, stream);
    FinishPartDisk(c, stream);
    UsableWhenFinished(c, stream);
    hide Inv, ReloadSafe, ReloadCount, ReloadRounds, FinishPart;
  }

  lemma UsableWhenFinished(c: Cache, stream: seq<Byte>)
    requires Inv(c, stream) && c.migration.Finished?
    ensures c.DiskUsable()
  {
    hide Contiguous, InOrder, Faithful, DiskGood;
  }

  lemma TakenInv(c: Cache, stream: seq<Byte>)
    requires Inv(c, stream) && HeadFull(c)
    ensures Inv(TakeHead(c), stream) && TakeHead(c).migration == c.migration
  {
    InvParts(c, stream);
    hide Good, DiskGood;
    TakeHeadGood(c, stream);
    TakeHeadDisk(c, stream);
  }

  /** Which pops are safe once the migration is finished: a pop keeps all good, whatever the bytes are, if and only if
      its reload reads nothing, as when the tail slot is still out or little is left to read, or reads are linked. */
  lemma PopExact(c: Cache, stream: seq<Byte>, drain: bool)
    requires Inv(c, stream) && c.migration.Finished?
    ensures (forall d: Cache, other: seq<Byte> ::
               SameShape(c, d) && Inv(d, other) ==> Inv(PopCache(d, drain), other))
      <==> PopSafe(c, drain)
    ensures PopSafe(c, drain) <==>
      (HeadFull(c) ==> Reads(TakeHead(c), ReloadCount(TakeHead(c), drain), drain) == 0 || Linked(TakeHead(c)))
  {
    hide Inv, PopCache, SameShape, ReloadCount, Reads, TakeHead, PopSafe;
    PopIs(c, stream, drain);
    if HeadFull(c) {
      TakenInv(c, stream);
    }
    if PopSafe(c, drain) {
      forall d: Cache, other: seq<Byte> | SameShape(c, d) && Inv(d, other)
        ensures Inv(PopCache(d, drain), other)
      {
        SafePop(c, d, stream, other, drain);
      }
    } else {
      UnsafePop(c, stream, drain);
    }
  }

  lemma SafePop(c: Cache, d: Cache, stream: seq<Byte>, other: seq<Byte>, drain: bool)
    requires SameShape(c, d) && Inv(c, stream) && Inv(d, other) && c.migration.Finished? && PopSafe(c, drain)
    ensures Inv(PopCache(d, drain), other)
  {
    hide Inv, PopCache, SameShape, ReloadCount, ReloadSafe, TakeHead, PopSafe;
    ShapeFields(c, d);
    HeadShape(c, d);
    PopIs(c, stream, drain);
    PopIs(d, other, drain);
    if HeadFull(c) {
      TakenInv(c, stream);
      SafeShape(TakeHead(c), TakeHead(d), ReloadCount(TakeHead(c), drain), drain);
    }
    TakeOutInv(d, other, drain);
  }

  lemma UnsafePop(c: Cache, stream: seq<Byte>, drain: bool)
    requires Inv(c, stream) && c.migration.Finished? && !PopSafe(c, drain)
    ensures exists d: Cache, other: seq<Byte> :: SameShape(c, d) && Inv(d, other) && !Inv(PopCache(d, drain), other)
  {
    hide Inv, PopCache, SameShape, ReloadCount, Reads, TakeHead, PopSafe, Linked, GapZero, MarkedAt;
    PopIs(c, stream, drain);
    TakenInv(c, stream);
    var c2 := TakeHead(c);
    var d, other, more := MarkedAppend(c, stream, [], c2.hRb);
    assert other + more == other;
    ShapeFields(c, d);
    HeadShape(c, d);
    TakenInv(d, other);
    PopIs(d, other, drain);
    var d2 := TakeHead(d);
    ShapeFields(c2, d2);
    SameLink(c2, d2);
    ReloadShape(c2, d2, ReloadCount(d2, drain), drain);
    GapTaken(d);
    Mislabelled(d2, other, ReloadCount(d2, drain), drain);
    OnlyGood(PopCache(d, drain), other);
  }

  lemma GapTaken(c: Cache)
    requires GapZero(c) && HeadFull(c)
    ensures GapZero(TakeHead(c))
  {
  }
}
