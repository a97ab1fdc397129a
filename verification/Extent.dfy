/** How far a reload gets, read off the state: so the guards on reloads need not be found by trying. */
module Extent {
  import opened Bytes
  import opened CacheModel
  import opened RingProofs
  import opened DiskProofs
  import opened Runs
  import opened OrderlyRuns

  /** How many of the oldest slots were let go, up to the first that was not. */
  function LetGoFirst(cells: seq<Cell>): (q: nat)
    ensures q <= |cells|
  {
    if cells == [] || cells[0].state != Recycle then 0 else 1 + LetGoFirst(cells[1..])
  }

  /** How many slots there are to read into. */
  function Room(c: Cache): nat
    requires |c.cells| <= c.nslots
  {
    c.nslots - |c.cells| + LetGoFirst(c.cells)
  }

  /** How many pieces there are to read of `left` bytes: whole slots' worth, and when draining what is left over. */
  function Pieces(left: nat, drain: bool): nat {
    if drain then (left + SLOT_SIZE - 1) / SLOT_SIZE else left / SLOT_SIZE
  }

  function ReadExtent(c: Cache, left: nat, rounds: nat, drain: bool): nat
    requires |c.cells| <= c.nslots
  {
    Min(rounds, Min(Room(c), Pieces(left, drain)))
  }

  /** One slot more is emptied if the EMPTY ones have all been read into, another was let go, and rounds are left. */
  function TouchExtent(c: Cache, left: nat, rounds: nat, drain: bool): nat
    requires |c.cells| <= c.nslots
  {
    var r := ReadExtent(c, left, rounds, drain);
    if r < rounds && c.nslots - |c.cells| <= r < Room(c) then r + 1 else r
  }

  lemma {:induction false} LetGoAppend(cells: seq<Cell>, cell: Cell)
    requires cell.state == Full
    ensures LetGoFirst(cells + [cell]) == LetGoFirst(cells)
    decreases |cells|
  {
    if cells != [] {
      assert (cells + [cell])[1..] == cells[1..] + [cell];
      LetGoAppend(cells[1..], cell);
    }
  }

  /** The file has `left` bytes ahead of the read position. */
  predicate Ahead(c: Cache, left: nat) {
    c.wPos == c.rPos + left <= |c.file| && c.wPos < 0x1_0000_0000_0000_0000 && |c.cells| <= c.nslots && !c.drained
  }

  lemma RecycledRoom(c: Cache, left: nat)
    requires Ahead(c, left)
    ensures var c1 := RecycleTail(c);
      && Ahead(c1, left) && Room(c1) == Room(c)
      && (TailFree(c1) <==> Room(c) > 0)
      && (c1 != c <==> |c.cells| == c.nslots && Room(c) > 0)
      && (c1 == c || |c1.cells| == c1.nslots - 1)
  {
  }

  lemma ReadRoom(c: Cache, left: nat, drain: bool)
    requires Ahead(c, left) && TailFree(c)
    ensures CanRead(c, drain) <==> Pieces(left, drain) > 0
    ensures CanRead(c, drain) ==>
      && c.rPos + ReadSize(c) <= |c.file|
      && var d, rest := DiskRead(c), left - ReadSize(c);
         && rest >= 0 && Ahead(d, rest) && Room(d) == Room(c) - 1 && |d.cells| == |c.cells| + 1 && d.nslots == c.nslots
         && Pieces(rest, drain) == Pieces(left, drain) - 1
  {
    assert ReadSize(c) == Min(left, SLOT_SIZE);
    hide ReadSize;
    PiecesLess(left, drain);
    hide Pieces;
    if CanRead(c, drain) {
      LetGoAppend(c.cells, Cell(Full, c.hRb, c.file[c.rPos..c.rPos + ReadSize(c)]));
      hide LetGoFirst;
    }
  }

  lemma PiecesLess(left: nat, drain: bool)
    ensures var size := Min(left, SLOT_SIZE);
      && (Pieces(left, drain) > 0 <==> size > 0 && (drain || size == SLOT_SIZE))
      && (Pieces(left, drain) > 0 ==> Pieces(left - size, drain) == Pieces(left, drain) - 1)
  {
  }

  /** What a reload reads and changes is what the state says. */
  lemma {:induction false} ExtentExact(c: Cache, left: nat, rounds: nat, drain: bool)
    requires Ahead(c, left)
    ensures Reads(c, rounds, drain) == ReadExtent(c, left, rounds, drain)
    ensures Touched(c, rounds, drain) == TouchExtent(c, left, rounds, drain)
    decreases rounds
  {
    hide Ahead, Room, Pieces, RecycleTail, CanRead, ReadSize, DiskRead, Reads, Touched;
    RoundExtent(c, rounds, drain);
    if rounds > 0 {
      var c1 := RecycleTail(c);
      RecycledRoom(c, left);
      AheadFits(c, left);
      AheadFits(c1, left);
      if TailFree(c1) {
        ReadRoom(c1, left, drain);
        if CanRead(c1, drain) {
          ExtentExact(DiskRead(c1), left - ReadSize(c1), rounds - 1, drain);
        }
      } else {
        NotFree(c1, drain);
      }
    }
  }

  lemma RoundExtent(c: Cache, rounds: nat, drain: bool)
    ensures rounds == 0 ==> Reads(c, rounds, drain) == Touched(c, rounds, drain) == 0
    ensures var c1 := RecycleTail(c);
      rounds > 0 ==>
        if CanRead(c1, drain) then
          && c1.rPos + ReadSize(c1) <= |c1.file|
          && Reads(c, rounds, drain) == 1 + Reads(DiskRead(c1), rounds - 1, drain)
          && Touched(c, rounds, drain) == 1 + Touched(DiskRead(c1), rounds - 1, drain)
        else Reads(c, rounds, drain) == 0 && Touched(c, rounds, drain) == if c1 != c then 1 else 0
  {
    hide RecycleTail, DiskRead, ReadSize;
  }

  lemma AheadFits(c: Cache, left: nat)
    requires Ahead(c, left)
    ensures |c.cells| <= c.nslots && !c.drained
    ensures |c.cells| == c.nslots || Room(c) > 0
    ensures TailFree(c) <==> |c.cells| < c.nslots
  {
  }

  lemma NotFree(c: Cache, drain: bool)
    requires !TailFree(c)
    ensures !CanRead(c, drain)
  {
  }

  // ---------------------------------------------------------------------------------------------------------------
  // The guards

  /** A push that reloads is safe if and only if what there will be to read, and where, says so. */
  lemma WriteSafeExact(c: Cache, data: seq<Byte>)
    requires Orderly(c) && c.recording && c.fslots == 0 && data != [] && c.hOffset + |data| < INVALID_OFFSET
    ensures |c.cells| <= c.nslots && c.rPos <= c.wPos
    ensures WriteSafe(c, data) <==>
      var left, k := c.wPos + |data| - c.rPos, ReloadCount(c, false);
      var r, t := ReadExtent(c, left, k, false), TouchExtent(c, left, k, false);
      && (r == 0 || Linked(c))
      && (c.migration.Copying? ==>
            || c.migration.i >= c.nslots
            || (if c.migration.i + 1 == c.nslots && c.mDk == c.lDk then r else t) <= c.mNext
            || (c.mNext == 0 && c.mDk + c.mPos == c.hRb))
  {
    hide Orderly, Reads, Touched, ReadExtent, TouchExtent, DiskWrite, ReloadCount, Ahead, Linked;
    SlotsFit(c);
    WrittenAhead(c, data);
    var c1, left, k := DiskWrite(c, data), c.wPos + |data| - c.rPos, ReloadCount(c, false);
    WrittenSame(c, data);
    ExtentExact(c1, left, k, false);
    SameExtent(c, c1, left, k, false);
  }

  lemma WrittenSame(c: Cache, data: seq<Byte>)
    ensures var d := DiskWrite(c, data);
      && d.cells == c.cells && d.nslots == c.nslots && d.fslots == c.fslots && d.migration == c.migration
      && d.mDk == c.mDk && d.lDk == c.lDk && d.mPos == c.mPos && d.mNext == c.mNext && d.hRb == c.hRb
      && (Linked(d) <==> Linked(c)) && ReloadCount(d, false) == ReloadCount(c, false)
  {
    hide WriteAt;
  }

  lemma WrittenAhead(c: Cache, data: seq<Byte>)
    requires Orderly(c) && c.recording && data != [] && c.hOffset + |data| < INVALID_OFFSET
    ensures c.rPos <= c.wPos && Ahead(DiskWrite(c, data), c.wPos + |data| - c.rPos)
  {
    SlotsFit(c);
    hide Shape;
  }

  lemma SameExtent(c: Cache, d: Cache, left: nat, rounds: nat, drain: bool)
    requires |c.cells| <= c.nslots && d.cells == c.cells && d.nslots == c.nslots
    ensures ReadExtent(d, left, rounds, drain) == ReadExtent(c, left, rounds, drain)
    ensures TouchExtent(d, left, rounds, drain) == TouchExtent(c, left, rounds, drain)
  {
  }

  /** A pop after the migration is safe if and only if it pops nothing, reads are linked, the tail slot is still out, or
      too little is left to read. */
  lemma PopSafeExact(c: Cache, stream: seq<Byte>, drain: bool)
    requires Inv(c, stream) && c.migration.Finished?
    ensures c.rPos <= c.wPos
    ensures PopSafe(c, drain) <==>
      || !HeadFull(c)
      || Linked(c)
      || (|c.cells| == c.nslots && (c.head == 0 || c.cells[0].state != Recycle))
      || Pieces(c.wPos - c.rPos, drain) == 0
  {
    hide Inv, Orderly, FinishPart, TakeHead, ReloadCount, Reads, Touched, Ahead, Linked, Room, Pieces;
    InvOrderly(c, stream);
    SlotsFit(c);
    FinishPartOrderly(c);
    FinishedAhead(c, stream);
    if HeadFull(c) {
      var h, left := TakeHead(c), c.wPos - c.rPos;
      var k := ReloadCount(h, drain);
      TakeSame(c, drain);
      ExtentExact(h, left, k, drain);
      RoomAfterTake(c);
    }
  }

  lemma TakeSame(c: Cache, drain: bool)
    requires HeadFull(c)
    ensures var h := TakeHead(c);
      && (Linked(h) <==> Linked(c)) && h.migration == c.migration && |h.cells| == |c.cells| && h.nslots == c.nslots
      && (h.DiskUsable() <==> c.DiskUsable()) && ReloadCount(h, drain) >= 1
  {
  }

  lemma FinishedAhead(c: Cache, stream: seq<Byte>)
    requires Inv(c, stream) && c.migration.Finished?
    ensures c.rPos <= c.wPos && (HeadFull(c) ==> Ahead(TakeHead(c), c.wPos - c.rPos))
  {
    InvOrderly(c, stream);
    SlotsFit(c);
    hide Good;
    assert c.wPos <= |c.file| && c.wPos < INVALID_OFFSET by {
      FileReaches(c, stream);
    }
  }

  lemma FileReaches(c: Cache, stream: seq<Byte>)
    requires Inv(c, stream) && c.migration.Finished?
    ensures c.rPos <= c.wPos <= |c.file| && c.wPos < INVALID_OFFSET
  {
    assert c.hOffset < INVALID_OFFSET;
    hide Good;
    assert |stream[c.lDk..]| == c.wPos;
  }

  lemma RoomAfterTake(c: Cache)
    requires HeadFull(c) && |c.cells| <= c.nslots
    ensures Room(TakeHead(c)) == 0 <==> |c.cells| == c.nslots && (c.head == 0 || c.cells[0].state != Recycle)
  {
  }
}
