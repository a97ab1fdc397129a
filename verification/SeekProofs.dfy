/** Where a seek lands, in the ring and in the file, and when it does not land where it was asked to. */
module SeekProofs {
  import opened Bytes
  import opened CacheModel
  import opened RingProofs
  import opened DiskProofs

  // ---------------------------------------------------------------------------------------------------------------
  // Finding the cell

  lemma {:induction false} LocateContains(cells: seq<Cell>, lRb: nat, hRb: nat, x: nat)
    requires Contiguous(cells, lRb, hRb) && lRb <= x < hRb
    ensures Locate(cells, x) < |cells| && cells[Locate(cells, x)].Contains(x)
  {
    if x >= cells[0].End() {
      var r := cells[1..];
      assert forall i :: 0 <= i < |r| ==> r[i] == cells[i + 1];
      assert |r| > 0 ==> cells[0].End() == cells[1].offset;
      LocateContains(r, cells[0].End(), hRb, x);
    }
  }

  lemma ContainsOnce(cells: seq<Cell>, lRb: nat, hRb: nat, x: nat, i: nat)
    requires Contiguous(cells, lRb, hRb) && lRb <= x < hRb && i < |cells| && cells[i].Contains(x)
    ensures i == Locate(cells, x)
  {
    LocateContains(cells, lRb, hRb, x);
  }

  /** The walk back passes only slots that were let go, and stops early only behind one that was not. */
  lemma {:induction false} LandingClear(cells: seq<Cell>, target: nat, from: nat)
    requires target <= from <= |cells|
    ensures var k := Landing(cells, target, from);
      && (forall i :: k <= i < from ==> cells[i].state != Pop)
      && (k == target || (k > 0 && cells[k - 1].state == Pop))
  {
    if from > target && cells[from - 1].state != Pop {
      LandingClear(cells, target, from - 1);
    }
  }

  // ---------------------------------------------------------------------------------------------------------------
  // Seeking in the ring

  /** The seek leaves the FULL slots in one stretch from the head on. */
  predicate KeepsOrder(c: Cache, x: nat) {
    var t := Locate(c.cells, x);
    || !CaughtUpFull(c)
    || (0 <= t == |c.cells| - 1 && c.cells[t].state == Recycle)
    || (0 == t < |c.cells| && c.cells[t].state == Pop)
  }

  /** The caches differ in nothing but the states of slots, the head and the count; and the slots out are the same. */
  ghost predicate Relabels(c: Cache, r: Cache) {
    && SameBytes(c.cells, r.cells)
    && (forall i :: 0 <= i < |c.cells| ==> (r.cells[i].state == Pop <==> c.cells[i].state == Pop))
    && r == c.(cells := r.cells, head := r.head, fslots := r.fslots)
  }

  lemma SeekRingRelabels(c: Cache, x: nat)
    requires c.head <= |c.cells|
    ensures Relabels(c, SeekRing(c, x))
  {
    hide Relabels, Locate, CaughtUpFull, SeekForward, SeekBack, SeekWrapped;
    var t := Locate(c.cells, x);
    RelabelsItself(c);
    if t < |c.cells| {
      WrappedRelabels(c, t);
      if t >= c.head {
        ForwardRelabels(c, t);
      } else {
        BackRelabels(c, t);
      }
    }
  }

  lemma RelabelsItself(c: Cache)
    ensures Relabels(c, c)
  {
  }

  lemma WrappedRelabels(c: Cache, t: nat)
    requires t < |c.cells|
    ensures Relabels(c, SeekWrapped(c, t))
  {
  }

  lemma ForwardRelabels(c: Cache, t: nat)
    requires c.head <= t
    ensures Relabels(c, SeekForward(c, t))
  {
  }

  lemma BackRelabels(c: Cache, t: nat)
    requires t <= c.head <= |c.cells|
    ensures Relabels(c, SeekBack(c, t))
  {
    hide Landing;
  }

  /** After relabelling all of the shape but the order of states and the count stands. */
  lemma RelabelShape(c: Cache, r: Cache)
    requires Shape(c) && Relabels(c, r)
    ensures Shape(r) <==> InOrder(r.cells, r.head) && 0 <= r.fslots && r.head + r.fslots == |r.cells|
  {
    RelabelOrder(c.cells, r.cells, c.lRb, c.hRb);
    hide Contiguous, InOrder;
  }

  lemma SeekForwardShape(c: Cache, t: nat)
    requires Shape(c) && c.head <= t < |c.cells|
    ensures Shape(SeekForward(c, t))
  {
    var r := SeekForward(c, t);
    assert InOrder(r.cells, t) by {
      hide Contiguous;
    }
    ForwardRelabels(c, t);
    hide Relabels, InOrder, Contiguous;
    RelabelShape(c, r);
  }

  lemma SeekBackShape(c: Cache, t: nat)
    requires Shape(c) && t <= c.head
    ensures Shape(SeekBack(c, t))
  {
    hide Landing;
    LandingClear(c.cells, t, c.head);
    var r := SeekBack(c, t);
    assert InOrder(r.cells, r.head) by {
      hide Contiguous;
    }
    BackRelabels(c, t);
    hide Relabels, InOrder, Contiguous;
    RelabelShape(c, r);
  }

  lemma SeekWrappedShape(c: Cache, t: nat)
    requires Shape(c) && CaughtUpFull(c) && t < |c.cells|
    ensures Shape(SeekWrapped(c, t)) <==> if c.cells[t].state == Recycle then t == |c.cells| - 1 else t == 0
  {
    hide Contiguous;
    var r := SeekWrapped(c, t);
    assert t == |c.cells| - 1 && c.cells[t].state == Recycle ==> InOrder(r.cells, t);
    WrappedRelabels(c, t);
    RelabelShape(c, r);
  }

  /** A seek in the ring keeps the shape of the ring exactly when `KeepsOrder` says so. */
  lemma SeekRingShape(c: Cache, x: nat)
    requires Shape(c) && c.lRb <= x < c.hRb
    ensures Shape(SeekRing(c, x)) <==> KeepsOrder(c, x)
  {
    var t := Locate(c.cells, x);
    LocateContains(c.cells, c.lRb, c.hRb, x);
    if CaughtUpFull(c) {
      StatesBehind(c.cells, c.head, t);
      hide Shape, Locate, SeekWrapped;
      SeekWrappedShape(c, t);
    } else if t >= c.head {
      hide Shape, Locate, SeekForward;
      SeekForwardShape(c, t);
    } else {
      hide Shape, Locate, SeekBack;
      SeekBackShape(c, t);
    }
  }

  /** A seek in the ring changes states only; the order of the ring survives exactly when `KeepsOrder` says so. */
  lemma SeekRingGood(c: Cache, stream: seq<Byte>, x: nat)
    requires Good(c, stream) && c.lRb <= x < c.hRb
    ensures Faithful(SeekRing(c, x), stream)
    ensures Shape(SeekRing(c, x)) <==> KeepsOrder(c, x)
  {
    SeekRingShape(c, x);
    assert c.head <= |c.cells| by {
      hide Contiguous, InOrder, Faithful;
    }
    hide Shape, SeekRing, KeepsOrder, Slices;
    SeekRingRelabels(c, x);
    RelabelSlices(c.cells, SeekRing(c, x).cells, stream);
  }

  lemma StatesBehind(cells: seq<Cell>, head: nat, i: nat)
    requires InOrder(cells, head) && i < head <= |cells|
    ensures cells[i].state == Pop || cells[i].state == Recycle
  {
  }

  /** Where a seek lands: on the cell asked for, unless a buffer still out blocks the way back; and it stays where it is
      if the consumer has caught up with a full ring and is sent to its oldest slot while that is still out. */
  lemma SeekRingLands(c: Cache, x: nat)
    requires Shape(c) && c.lRb <= x < c.hRb
    ensures var r, t := SeekRing(c, x), Locate(c.cells, x);
      && t < |c.cells| && c.cells[t].Contains(x)
      && |r.cells| == |c.cells|
      && r.cells[t].offset == c.cells[t].offset && r.cells[t].bytes == c.cells[t].bytes
      && (|| r.head == t
          || (!CaughtUpFull(c) && t < r.head <= c.head && c.cells[r.head - 1].state == Pop)
          || (CaughtUpFull(c) && t == 0 && c.cells[0].state == Pop && r == c))
  {
    LocateContains(c.cells, c.lRb, c.hRb, x);
    var t := Locate(c.cells, x);
    if CaughtUpFull(c) {
      StatesBehind(c.cells, c.head, t);
      hide Shape, Locate;
    } else if t < c.head {
      hide Shape, Locate, SeekBack;
      SeekBackLands(c, t);
    } else {
      hide Shape, Locate;
    }
  }

  lemma SeekBackLands(c: Cache, t: nat)
    requires t < c.head <= |c.cells|
    ensures var r := SeekBack(c, t);
      && |r.cells| == |c.cells| && r.cells[t].offset == c.cells[t].offset && r.cells[t].bytes == c.cells[t].bytes
      && (r.head == t || (t < r.head <= c.head && c.cells[r.head - 1].state == Pop))
  {
    hide Landing;
    LandingClear(c.cells, t, c.head);
  }

  /** The requested cell is the new head, and exactly the cells from it on are FULL. */
  ghost predicate Landed(c: Cache, x: nat) {
    Shape(c) && c.head < |c.cells| && c.cells[c.head].Contains(x)
  }

  lemma SeekFreeExact(c: Cache, x: nat)
    requires Shape(c) && c.lRb <= x < c.hRb && NoneOut(c.cells) && !CaughtUpFull(c)
    ensures Landed(SeekRing(c, x), x)
  {
    SeekRingShape(c, x);
    SeekRingLands(c, x);
    hide Shape, Locate, Landing;
  }

  lemma SeekFullExact(c: Cache, x: nat)
    requires Shape(c) && c.lRb <= x < c.hRb && NoneOut(c.cells) && CaughtUpFull(c)
    ensures Landed(SeekRing(c, x), x) <==> Locate(c.cells, x) == |c.cells| - 1
  {
    var t := Locate(c.cells, x);
    LocateContains(c.cells, c.lRb, c.hRb, x);
    StatesBehind(c.cells, c.head, t);
    hide Contiguous, InOrder, Locate;
    SeekWrappedShape(c, t);
  }

  /** With all buffers returned, a seek lands on the cell that holds the offset, with exactly the cells from it on FULL,
      if and only if there is something left to pop, or a free slot, or the offset is in the newest slot. */
  lemma SeekRingExact(c: Cache, x: nat)
    requires Shape(c) && c.lRb <= x < c.hRb && NoneOut(c.cells)
    ensures |c.cells| > 0
    ensures Landed(SeekRing(c, x), x)
      <==> (c.fslots > 0 || |c.cells| < c.nslots || x >= c.cells[|c.cells| - 1].offset)
  {
    hide Landed, SeekRing, Contiguous, InOrder, Locate, NoneOut;
    NewestHolds(c, x);
    if CaughtUpFull(c) {
      SeekFullExact(c, x);
    } else {
      SeekFreeExact(c, x);
    }
  }

  lemma NewestHolds(c: Cache, x: nat)
    requires Shape(c) && c.lRb <= x < c.hRb
    ensures |c.cells| > 0
    ensures x >= c.cells[|c.cells| - 1].offset <==> Locate(c.cells, x) == |c.cells| - 1
  {
    LocateContains(c.cells, c.lRb, c.hRb, x);
    if x >= c.cells[|c.cells| - 1].offset {
      ContainsOnce(c.cells, c.lRb, c.hRb, x, |c.cells| - 1);
    }
  }

  // ---------------------------------------------------------------------------------------------------------------
  // Seeking by any offset

  /** Outside disk playback an offset that `HasOffset` accepts is reached exactly when it is below the last full slot
      and `SeekRingExact` says so: one in the PART slot is accepted, and the seek then does nothing at all. */
  lemma SeekAcceptedExact(c: Cache, x: nat)
    requires Shape(c) && NoneOut(c.cells) && !c.DiskUsable() && HasOffset(c, x)
    ensures Landed(Seek(c, x), x) <==>
      x < c.hRb && c.cells != [] && (c.fslots > 0 || |c.cells| < c.nslots || x >= c.cells[|c.cells| - 1].offset)
    ensures x >= c.hRb ==> Seek(c, x) == c
  {
    SeekWithin(c, x);
    hide Shape, Landed, Seek, SeekRing, NoneOut;
    if x < c.hRb {
      SeekRingExact(c, x);
    } else {
      NotLanded(c, x);
      SeekClosest(c, x);
    }
  }

  /** An offset that is out of bounds is sought as the closest one that is not; where the ring ends there is nothing to
      seek, outside disk playback. */
  lemma SeekClosest(c: Cache, x: nat)
    requires Shape(c)
    ensures c.head <= |c.cells|
    ensures c.DiskUsable() && x < c.lDk ==> Seek(c, x) == Seek(c, c.lDk)
    ensures c.DiskUsable() && x > c.hDk ==> Seek(c, x) == Seek(c, c.hDk)
    ensures !c.DiskUsable() && x < c.lRb ==> Seek(c, x) == Seek(c, c.lRb)
    ensures !c.DiskUsable() && x >= c.hRb ==> Seek(c, x) == c
  {
    NextOffsetInRing(c);
    hide Contiguous, InOrder, SeekRing, SeekDisk;
  }

  lemma SeekWithin(c: Cache, x: nat)
    requires Shape(c) && !c.DiskUsable()
    ensures c.head <= |c.cells| && (c.lRb <= x < c.hRb ==> Seek(c, x) == SeekRing(c, x))
  {
    hide Contiguous, InOrder, SeekRing;
  }

  lemma NotLanded(c: Cache, x: nat)
    requires Shape(c) && x >= c.hRb
    ensures !Landed(c, x)
  {
    hide InOrder;
  }

  lemma {:induction false} ReloadGrows(c: Cache, rounds: nat, drain: bool)
    ensures var r := ReloadRounds(c, rounds, drain); r.hRb >= c.hRb && r.hOffset == c.hOffset
    decreases rounds
  {
    hide ReadSize;
    if rounds > 0 {
      var c1 := RecycleTail(c);
      if CanRead(c1, drain) {
        ReloadGrows(DiskRead(c1), rounds - 1, drain);
      }
    }
  }

  lemma FlushedGood(c: Cache, stream: seq<Byte>, x: nat)
    requires Good(c, stream) && DiskGood(c, stream) && c.DiskUsable() && c.lDk <= x <= c.hOffset
    ensures var f := Flush(c).(rPos := x - c.lDk, hRb := x, lRb := x);
      Good(f, stream) && DiskGood(f, stream) && Linked(f) && f.NextOffset() == x && f.migration.Finished?
  {
  }

  /** A seek in the file is sound exactly when it does not go beyond what was pushed, and then the next pop starts at
      the very byte asked for, with the read position linked to the ring. */
  lemma SeekDiskExact(c: Cache, stream: seq<Byte>, x: nat)
    requires Good(c, stream) && DiskGood(c, stream) && c.DiskUsable() && c.lDk <= x
    ensures Good(SeekDisk(c, x), stream) <==> x <= c.hOffset
    ensures x <= c.hOffset ==>
      var r := SeekDisk(c, x);
      && Good(r, stream) && DiskGood(r, stream) && Linked(r) && r.NextOffset() == x
      && r.hOffset == c.hOffset && r.lDk == c.lDk && r.migration.Finished?
  {
    hide Good, DiskGood, Contiguous, InOrder, ReloadRounds;
    var f := Flush(c).(rPos := x - c.lDk, hRb := x, lRb := x);
    ReloadGrows(f, ReloadCount(f, false), false);
    if x <= c.hOffset {
      FlushedGood(c, stream, x);
      LinkedSafe(f, false);
      WholeReloadGood(f, false, stream);
      GoodParts(SeekDisk(c, x), stream);
    } else if Good(SeekDisk(c, x), stream) {
      RingReceived(SeekDisk(c, x), stream);
    }
  }

  lemma RingReceived(c: Cache, stream: seq<Byte>)
    requires Good(c, stream)
    ensures c.hRb <= c.hOffset
  {
    hide Shape, Slices;
  }

  /** `HasOffset` may accept offsets that were never pushed: after an explicit start with nothing written to the file
      since, its upper bound is still the invalid offset. */
  lemma HasOffsetExact(c: Cache)
    requires Orderly(c) && c.DiskUsable()
    ensures (forall x: nat :: HasOffset(c, x) ==> x < c.hOffset) <==> c.hDk != INVALID_OFFSET
  {
    hide Contiguous, InOrder;
    if c.hDk == INVALID_OFFSET {
      assert HasOffset(c, c.hOffset);
    }
  }
}
