/** Every ring operation keeps the ring a contiguous, ordered and true piece of the stream. */
module RingProofs {
  import opened Bytes
  import opened CacheModel

  /** Shape and content together. */
  ghost predicate Good(c: Cache, stream: seq<Byte>) {
    Shape(c) && Faithful(c, stream)
  }

  // ---------------------------------------------------------------------------------------------------------------
  // Sequences of cells

  lemma AppendOrdered(cells: seq<Cell>, lRb: nat, hRb: nat, head: nat, bytes: seq<Byte>)
    requires Contiguous(cells, lRb, hRb) && InOrder(cells, head) && head <= |cells| && 0 < |bytes| <= SLOT_SIZE
    ensures Contiguous(cells + [Cell(Full, hRb, bytes)], lRb, hRb + |bytes|)
    ensures InOrder(cells + [Cell(Full, hRb, bytes)], head)
  {
    var r := cells + [Cell(Full, hRb, bytes)];
    assert InOrder(r, head) by {
      hide Contiguous;
    }
    hide InOrder;
    AppendContiguous(cells, lRb, hRb, Cell(Full, hRb, bytes));
  }

  lemma AppendContiguous(cells: seq<Cell>, lRb: nat, hRb: nat, cell: Cell)
    requires Contiguous(cells, lRb, hRb) && cell.offset == hRb && 0 < |cell.bytes| <= SLOT_SIZE
    ensures Contiguous(cells + [cell], lRb, cell.End())
  {
    var r := cells + [cell];
    forall i, j | 0 <= i < j < |r|
      ensures r[i].End() <= r[j].offset && (j == i + 1 ==> r[i].End() == r[j].offset)
    {
      if j < |cells| {
        assert r[i] == cells[i] && r[j] == cells[j];
      } else {
        assert r[i] == cells[i];
      }
    }
    assert forall i :: 0 <= i < |cells| ==> r[i] == cells[i];
  }

  lemma AppendSlice(cells: seq<Cell>, cell: Cell, stream: seq<Byte>)
    requires Slices(cells, stream) && IsSlice(cell, stream)
    ensures Slices(cells + [cell], stream)
  {
  }

  lemma DropOldest(cells: seq<Cell>, lRb: nat, hRb: nat, head: nat)
    requires Contiguous(cells, lRb, hRb) && InOrder(cells, head) && head <= |cells|
    requires 0 < |cells| && cells[0].state != Full
    ensures head > 0
    ensures Contiguous(cells[1..], cells[0].End(), hRb)
    ensures InOrder(cells[1..], head - 1)
  {
    var r := cells[1..];
    assert forall i :: 0 <= i < |r| ==> r[i] == cells[i + 1];
    if |r| > 0 {
      assert cells[0].End() == cells[1].offset;
    }
  }

  /** Only states of cells differ. */
  ghost predicate SameBytes(cells: seq<Cell>, cells': seq<Cell>) {
    && |cells'| == |cells|
    && forall i :: 0 <= i < |cells| ==> cells'[i].offset == cells[i].offset && cells'[i].bytes == cells[i].bytes
  }

  lemma RelabelOrder(cells: seq<Cell>, cells': seq<Cell>, lRb: nat, hRb: nat)
    requires Contiguous(cells, lRb, hRb) && SameBytes(cells, cells')
    ensures Contiguous(cells', lRb, hRb)
  {
  }

  lemma RelabelSlices(cells: seq<Cell>, cells': seq<Cell>, stream: seq<Byte>)
    requires Slices(cells, stream) && SameBytes(cells, cells')
    ensures Slices(cells', stream)
  {
  }

  /** Slices of a stream stay slices when the stream grows. */
  lemma SlicesGrow(cells: seq<Cell>, stream: seq<Byte>, data: seq<Byte>)
    requires Slices(cells, stream)
    ensures Slices(cells, stream + data)
  {
  }

  lemma AppendInParts(stream: seq<Byte>, data: seq<Byte>, k: nat)
    requires k <= |data|
    ensures stream + data == (stream + data[..k]) + data[k..]
  {
  }

  /** The next offset lies in the ring, on a cell boundary. */
  lemma NextOffsetInRing(c: Cache)
    requires Shape(c)
    ensures c.lRb <= c.NextOffset() <= c.hRb
  {
  }

  // ---------------------------------------------------------------------------------------------------------------
  // Whatever the bytes are

  lemma RecycleTailShape(c: Cache)
    requires Shape(c)
    ensures Shape(RecycleTail(c)) && RecycleTail(c).NextOffset() == c.NextOffset()
  {
    assert |c.cells| > 0 ==> c.cells[0].offset <= c.hRb;
    hide Contiguous, InOrder;
    if RecycleTail(c) != c {
      DropOldest(c.cells, c.lRb, c.hRb, c.head);
      assert c.head < |c.cells| ==> c.cells[1..][c.head - 1] == c.cells[c.head];
    }
  }

  lemma WriteSlotShape(c: Cache, data: seq<Byte>)
    requires Shape(c) && TailFree(c) && !c.recording
    requires data != [] && |c.part| + |data| <= SLOT_SIZE && c.hOffset + |data| < INVALID_OFFSET
    ensures var r := WriteSlot(c, data);
      && Shape(r) && r.NextOffset() == c.NextOffset() && r.hOffset == c.hOffset + |data| && !r.drained && !r.recording
  {
    hide Contiguous, InOrder;
    var part := c.part + data;
    if |part| == SLOT_SIZE {
      AppendOrdered(c.cells, c.lRb, c.hRb, c.head, part);
    }
  }

  lemma DiskWriteShape(c: Cache, data: seq<Byte>)
    requires Shape(c) && c.recording && c.hOffset + |data| < INVALID_OFFSET
    ensures Shape(DiskWrite(c, data)) && DiskWrite(c, data).NextOffset() == c.NextOffset()
  {
    hide Contiguous, InOrder, WriteAt;
  }

  /** Starting to record keeps the shape exactly when the tail slot is not PART and no drain has happened. */
  lemma StartRecordingShape(c: Cache)
    requires Shape(c)
    ensures Shape(StartRecording(c)) <==> c.recording || (c.part == [] && !c.drained)
    ensures StartRecording(c).NextOffset() == c.NextOffset()
  {
    hide Contiguous, InOrder;
  }

  lemma DiskReadShape(c: Cache)
    requires Shape(c) && c.recording && |c.cells| < c.nslots
    requires 0 < ReadSize(c) <= SLOT_SIZE && c.rPos + ReadSize(c) <= |c.file| && c.hRb + ReadSize(c) < INVALID_OFFSET
    ensures Shape(DiskRead(c)) && DiskRead(c).NextOffset() == c.NextOffset()
  {
    hide Contiguous, InOrder, ReadSize;
    AppendOrdered(c.cells, c.lRb, c.hRb, c.head, c.file[c.rPos..c.rPos + ReadSize(c)]);
  }

  lemma FinishPartShape(c: Cache)
    requires Shape(c)
    ensures Shape(FinishPart(c)) && FinishPart(c).NextOffset() == c.NextOffset()
  {
    hide Contiguous, InOrder;
    if FinishPart(c) != c {
      AppendOrdered(c.cells, c.lRb, c.hRb, c.head, c.part);
    }
  }

  lemma TakeHeadShape(c: Cache)
    requires Shape(c) && HeadFull(c)
    ensures Shape(TakeHead(c)) && TakeHead(c).NextOffset() == c.cells[c.head].End()
  {
    var r := TakeHead(c);
    assert InOrder(r.cells, r.head) by {
      hide Contiguous;
    }
    hide InOrder;
    assert r.NextOffset() == c.cells[c.head].End();
    RelabelOrder(c.cells, r.cells, c.lRb, c.hRb);
    hide Contiguous;
  }

  lemma ReleaseShape(c: Cache, i: nat)
    requires Shape(c) && i < |c.cells| && c.cells[i].state == Pop
    ensures Shape(Release(c, i)) && Release(c, i).NextOffset() == c.NextOffset()
  {
    var r := Release(c, i);
    assert InOrder(r.cells, r.head) by {
      hide Contiguous;
    }
    hide InOrder;
    RelabelOrder(c.cells, r.cells, c.lRb, c.hRb);
    hide Contiguous;
  }

  lemma MigrateShape(c: Cache)
    requires Shape(c) && c.migration.Copying?
    ensures |c.cells| <= c.nslots && Shape(Migrate(c)) && Migrate(c).NextOffset() == c.NextOffset()
  {
    hide Contiguous, InOrder, WriteAt, SlotBytes;
  }

  // ---------------------------------------------------------------------------------------------------------------
  // Push

  /** Recycling drops at most the oldest cell, which was handed out and let go. */
  lemma RecycleTailGood(c: Cache, stream: seq<Byte>)
    requires Good(c, stream)
    ensures Good(RecycleTail(c), stream)
    ensures RecycleTail(c).NextOffset() == c.NextOffset()
  {
    RecycleTailShape(c);
    hide Shape;
  }

  lemma WriteSlotGood(c: Cache, stream: seq<Byte>, data: seq<Byte>)
    requires Good(c, stream) && TailFree(c) && !c.recording
    requires data != [] && |c.part| + |data| <= SLOT_SIZE && c.hOffset + |data| < INVALID_OFFSET
    ensures Good(WriteSlot(c, data), stream + data)
    ensures WriteSlot(c, data).NextOffset() == c.NextOffset()
    ensures WriteSlot(c, data).hOffset == c.hOffset + |data|
    ensures !WriteSlot(c, data).drained && !WriteSlot(c, data).recording
  {
    RingTotal(c);
    WriteSlotShape(c, data);
    hide Shape, Faithful, WriteSlot;
    WrittenFaithful(c, stream, data);
  }

  lemma RingTotal(c: Cache)
    requires Shape(c) && !c.recording
    ensures c.hOffset == c.hRb + |c.part|
  {
  }

  lemma WrittenFaithful(c: Cache, stream: seq<Byte>, data: seq<Byte>)
    requires Faithful(c, stream) && c.hOffset == c.hRb + |c.part| && |c.part| + |data| <= SLOT_SIZE
    ensures Faithful(WriteSlot(c, data), stream + data)
  {
    hide Slices;
    SlicesGrow(c.cells, stream, data);
    var part, all := c.part + data, stream + data;
    PartGrows(stream, c.hRb, c.part, data);
    if |part| == SLOT_SIZE {
      AppendSlice(c.cells, Cell(Full, c.hRb, part), all);
    }
  }

  /** The end of the stream, and what is appended to both. */
  lemma PartGrows(stream: seq<Byte>, from: nat, part: seq<Byte>, data: seq<Byte>)
    requires from + |part| == |stream| && part == stream[from..from + |part|]
    ensures part + data == (stream + data)[from..from + |part + data|]
    ensures |part + data| < SLOT_SIZE ==> from + |part + data| == |stream + data|
  {
  }

  lemma DiskWriteGood(c: Cache, stream: seq<Byte>, data: seq<Byte>)
    requires Good(c, stream) && c.recording && c.hOffset + |data| < INVALID_OFFSET
    ensures Good(DiskWrite(c, data), stream + data)
    ensures DiskWrite(c, data).NextOffset() == c.NextOffset()
  {
    DiskWriteShape(c, data);
    hide Shape, Slices, WriteAt;
    SlicesGrow(c.cells, stream, data);
  }

  lemma StartRecordingGood(c: Cache, stream: seq<Byte>)
    requires Good(c, stream) && (c.recording || (c.part == [] && !c.drained))
    ensures Good(StartRecording(c), stream)
  {
    StartRecordingShape(c);
    hide Shape, Slices;
  }

  /** When no slot is free the ring is full to the last byte, so recording can start and takes all the data. */
  lemma OverflowGood(c: Cache, stream: seq<Byte>, data: seq<Byte>)
    requires Good(c, stream) && !c.recording && !c.drained && !TailFree(c)
    requires c.hOffset + |data| < INVALID_OFFSET
    ensures var r := DiskWrite(StartRecording(c), data);
      && Good(r, stream + data) && r.recording && !r.drained && r.NextOffset() == c.NextOffset()
      && r.hOffset == c.hOffset + |data|
  {
    hide Contiguous, InOrder, Slices;
    StartRecordingGood(c, stream);
    DiskWriteGood(StartRecording(c), stream, data);
  }

  /** One round of a ring push: the ring stays good over the stream with what was taken, and nothing is lost. */
  lemma PushRoundGood(c: Cache, stream: seq<Byte>, data: seq<Byte>)
    requires Good(c, stream) && !c.recording && !c.drained
    requires data != [] && c.hOffset + |data| < INVALID_OFFSET
    ensures var (r, rest) := PushRound(c, data);
      && Good(r, stream + data[..|data| - |rest|])
      && rest == data[|data| - |rest|..]
      && r.NextOffset() == c.NextOffset()
      && !r.drained
      && r.hOffset == c.hOffset + |data| - |rest|
      && (r.recording ==> rest == [])
  {
    PushRoundIs(c, data);
    RecycleTailGood(c, stream);
    hide Good, WriteSlot, DiskWrite, PushRound, RecycleTail, StartRecording;
    var c1 := RecycleTail(c);
    if TailFree(c1) {
      WriteSlotGood(c1, stream, data[..|data| - |PushRound(c, data).1|]);
    } else {
      OverflowGood(c, stream, data);
    }
  }

  /** The two ways a round can go. */
  lemma PushRoundIs(c: Cache, data: seq<Byte>)
    requires data != []
    ensures var c1 := RecycleTail(c);
      var (r, rest) := PushRound(c, data);
      var taken := data[..|data| - |rest|];
      && c1.recording == c.recording && c1.drained == c.drained && c1.hOffset == c.hOffset
      && rest == data[|data| - |rest|..] && taken != []
      && if TailFree(c1) then |c1.part| + |taken| <= SLOT_SIZE && r == WriteSlot(c1, taken)
         else c1 == c && taken == data && rest == [] && r == DiskWrite(StartRecording(c), data)
  {
    hide WriteSlot, DiskWrite, StartRecording;
    var c1 := RecycleTail(c);
    if TailFree(c1) {
      var k := Min(SLOT_SIZE - |c1.part|, |data|);
      assert data[..|data| - |data[k..]|] == data[..k];
    } else {
      assert data[..|data|] == data && data[|data|..] == [];
    }
  }

  /** A round takes all of the data, or as much as fills the slot. */
  lemma RoundFills(c: Cache, data: seq<Byte>)
    requires Shape(c) && !c.recording && !c.drained && data != []
    ensures var (r, rest) := PushRound(c, data);
      rest != [] ==> r.fslots == c.fslots + 1 && r.part == [] && r.hRb == c.hRb + SLOT_SIZE
  {
    hide Contiguous, InOrder;
  }

  function Power2(n: nat): (r: nat)
    ensures r > 0
  {
    if n == 0 then 1 else 2 * Power2(n - 1)
  }

  /** The number of rounds of a reload is the length of the number of free slots in binary. */
  lemma {:induction false} BitStorageMeans(k: nat)
    requires k > 0
    ensures Power2(BitStorage(k) - 1) <= k < Power2(BitStorage(k))
  {
    if k > 1 {
      BitStorageMeans(k / 2);
    }
  }

  /** A reload goes round once for a drain, and else as often as the number of slots not FULL has binary digits. */
  lemma ReloadCountMeans(c: Cache)
    requires Shape(c) && c.fslots < c.nslots < INVALID_OFFSET
    ensures ReloadCount(c, true) == 1
    ensures Power2(ReloadCount(c, false) - 1) <= c.nslots - c.fslots < Power2(ReloadCount(c, false))
  {
    hide Contiguous, InOrder;
    BitStorageMeans(c.nslots - c.fslots);
  }

  lemma {:induction false} BitStorageSmall(k: nat, n: nat)
    requires k <= n && 1 <= n
    ensures BitStorage(k) <= n
  {
    if k > 1 {
      BitStorageSmall(k / 2, n - 1);
    }
  }

  // ---------------------------------------------------------------------------------------------------------------
  // Pop and release

  lemma FinishPartGood(c: Cache, stream: seq<Byte>)
    requires Good(c, stream)
    ensures Good(FinishPart(c), stream)
    ensures FinishPart(c).NextOffset() == c.NextOffset()
  {
    FinishPartShape(c);
    hide Shape, Slices;
    if FinishPart(c) != c {
      AppendSlice(c.cells, Cell(Full, c.hRb, c.part), stream);
    }
  }

  /** A drain takes the PART slot when nothing else is left, and not before; what was drained stays in the slot at the
      tail, which is not free any more. */
  lemma DrainedAtTail(c: Cache)
    requires Shape(c)
    ensures FinishPart(c) != c <==> c.fslots == 0 && c.part != []
    ensures var r := FinishPart(c);
      r != c ==> |r.cells| <= r.nslots && SlotBytes(r, 0) == c.part == SlotBytes(c, 0) && !TailFree(r)
  {
    hide Contiguous, InOrder;
  }

  lemma TakeHeadGood(c: Cache, stream: seq<Byte>)
    requires Good(c, stream) && HeadFull(c)
    ensures Good(TakeHead(c), stream)
    ensures TakeHead(c).NextOffset() == c.cells[c.head].End()
  {
    TakeHeadShape(c);
    hide Shape, Slices;
    RelabelSlices(c.cells, TakeHead(c).cells, stream);
  }

  lemma ReleaseGood(c: Cache, stream: seq<Byte>, i: nat)
    requires Good(c, stream) && i < |c.cells| && c.cells[i].state == Pop
    ensures Good(Release(c, i), stream)
    ensures Release(c, i).NextOffset() == c.NextOffset()
  {
    ReleaseShape(c, i);
    hide Shape, Slices;
    RelabelSlices(c.cells, Release(c, i).cells, stream);
  }

  /** The element never finds the cache non-empty and then pops nothing: `fslots` counts exactly the poppable cells. */
  lemma NonEmptyPops(c: Cache, drain: bool)
    requires Shape(c)
    ensures PopBuffer(c, false).Some? <==> c.fslots > 0
    ensures PopBuffer(c, true).Some? <==> c.fslots > 0 || c.part != []
  {
  }
}
