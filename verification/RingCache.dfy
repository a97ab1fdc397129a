/** The cache of src/flucache.c as it is: an array of slots updated in place, with physical head and tail indices.
    Every method is proved to do what the function of the same purpose in `CacheModel` does to the cache seen as a
    value. */
module RingCache {
  import opened Bytes
  import opened CacheModel
  import opened RingProofs
  import opened SeekProofs
  import opened Runs
  import opened OrderlyRuns

  /** A slot; `data` is its fixed memory, `wptr` the position of the write pointer in it. */
  datatype Slot = Slot(state: SlotState, offset: nat, size: nat, wptr: nat, data: seq<Byte>)

  // ---------------------------------------------------------------------------------------------------------------
  // Positions on the ring

  function Next(n: nat, p: nat): nat {
    if p + 1 >= n then 0 else p + 1
  }

  /** The slot `b` places before `e`. */
  function Back(n: nat, e: nat, b: nat): int {
    if e >= b then e - b else e - b + n
  }

  /** How many places `p` lies before `e`: from 1 to `n`. */
  function Dist(n: nat, e: nat, p: nat): int {
    if p < e then e - p else e - p + n
  }

  lemma DistNext(n: nat, e: nat, p: nat)
    requires e < n && p < n
    ensures Next(n, p) < n && Dist(n, e, Next(n, p)) == if Dist(n, e, p) == 1 then n else Dist(n, e, p) - 1
  {
  }

  /** When the end moves, what was `b` places before it is one place further back. */
  lemma EndMoves(n: nat, e: nat, b: nat)
    requires e < n && b < n
    ensures Next(n, e) < n && Back(n, Next(n, e), b + 1) == Back(n, e, b)
  {
  }

  /** Where the migrator stands, counted from the end of the ring, when it moves on and when the end does. */
  lemma PlaceNext(n: nat, e: nat, p: nat, k: nat)
    requires e < n && p < n && k < n && Dist(n, e, p) == n - k
    ensures Next(n, p) < n && After(n, k) < n && Dist(n, e, Next(n, p)) == n - After(n, k)
    ensures Next(n, e) < n && Before(n, k) < n && Dist(n, Next(n, e), p) == n - Before(n, k)
  {
  }

  // ---------------------------------------------------------------------------------------------------------------
  // What a slot holds

  ghost predicate Holds(s: Slot, cell: Cell) {
    && s.state == cell.state && (s.state == Full || s.state == Pop || s.state == Recycle)
    && s.offset == cell.offset && s.size == |cell.bytes| <= |s.data| && s.data[..s.size] == cell.bytes
  }

  ghost predicate HoldsPart(s: Slot, part: seq<Byte>, offset: nat) {
    s.state == Part && s.offset == offset && s.size == s.wptr == |part| <= |s.data| && s.data[..s.size] == part
  }

  ghost predicate Blank(s: Slot) {
    s.state == Empty && s.offset == INVALID_OFFSET && s.size == 0 && s.wptr == 0
  }

  /** What the slot `d` places before the end of the ring must hold. */
  ghost predicate SlotRep(s: Slot, d: int, n: nat, cells: seq<Cell>, part: seq<Byte>, hRb: nat)
    requires 1 <= d
  {
    && |s.data| == SLOT_SIZE
    && if d <= |cells| then Holds(s, cells[|cells| - d])
       else if d == n && part != [] then HoldsPart(s, part, hRb)
       else Blank(s)
  }

  ghost predicate SlotsRep(slots: seq<Slot>, e: nat, cells: seq<Cell>, part: seq<Byte>, hRb: nat) {
    && e < |slots| && |cells| <= |slots|
    && forall p :: 0 <= p < |slots| ==> SlotRep(slots[p], Dist(|slots|, e, p), |slots|, cells, part, hRb)
  }

  // ---------------------------------------------------------------------------------------------------------------
  // Changing one slot

  /** The oldest slot is blanked. */
  lemma BlankOldest(slots: seq<Slot>, e: nat, cells: seq<Cell>, hRb: nat, s: Slot)
    requires SlotsRep(slots, e, cells, [], hRb) && 0 < |cells| == |slots|
    requires Blank(s) && |s.data| == SLOT_SIZE
    ensures SlotsRep(slots[e := s], e, cells[1..], [], hRb)
  {
  }

  /** The slot at the end becomes the newest cell, and the end moves behind it. */
  lemma FillEnd(slots: seq<Slot>, e: nat, cells: seq<Cell>, part: seq<Byte>, hRb: nat, s: Slot, cell: Cell, hRb': nat)
    requires SlotsRep(slots, e, cells, part, hRb) && |cells| < |slots|
    requires Holds(s, cell) && |s.data| == SLOT_SIZE
    ensures SlotsRep(slots[e := s], Next(|slots|, e), cells + [cell], [], hRb')
  {
  }

  /** The slot at the end is partly filled. */
  lemma PartEnd(slots: seq<Slot>, e: nat, cells: seq<Cell>, part: seq<Byte>, hRb: nat, s: Slot, part': seq<Byte>)
    requires SlotsRep(slots, e, cells, part, hRb) && |cells| < |slots|
    requires part' != [] && HoldsPart(s, part', hRb) && |s.data| == SLOT_SIZE
    ensures SlotsRep(slots[e := s], e, cells, part', hRb)
  {
  }

  /** A slot that holds a cell changes state. */
  lemma RestateSlot(slots: seq<Slot>, e: nat, cells: seq<Cell>, part: seq<Byte>, hRb: nat, p: nat, state: SlotState)
    requires SlotsRep(slots, e, cells, part, hRb) && p < |slots| && Dist(|slots|, e, p) <= |cells|
    requires state == Full || state == Pop || state == Recycle
    ensures var i := |cells| - Dist(|slots|, e, p);
      SlotsRep(slots[p := slots[p].(state := state)], e, cells[i := cells[i].(state := state)], part, hRb)
  {
  }

  /** What the slot at position `p` holds. */
  lemma SlotAt(slots: seq<Slot>, e: nat, cells: seq<Cell>, part: seq<Byte>, hRb: nat, p: nat)
    requires SlotsRep(slots, e, cells, part, hRb) && p < |slots|
    ensures e < |slots| && |cells| <= |slots|
    ensures SlotRep(slots[p], Dist(|slots|, e, p), |slots|, cells, part, hRb)
  {
  }

  /** slot_write: append `data` at the write pointer; the slot becomes FULL or PART. */
  function SlotWrite(s: Slot, data: seq<Byte>, offset: nat): Slot
    requires s.wptr + |data| <= |s.data|
  {
    var size := s.size + |data|;
    Slot(if size == SLOT_SIZE then Full else Part, offset, size, s.wptr + |data|,
         s.data[..s.wptr] + data + s.data[s.wptr + |data|..])
  }

  /** What a read from the file makes of a slot; the write pointer is left alone. */
  function SlotRead(s: Slot, bytes: seq<Byte>, offset: nat): Slot
    requires |bytes| <= |s.data|
  {
    s.(state := Full, offset := offset, size := |bytes|, data := bytes + s.data[|bytes|..])
  }

  /** A new FULL cell at the end of the ring. */
  function Filled(c: Cache, bytes: seq<Byte>): Cache {
    c.(cells := c.cells + [Cell(Full, c.hRb, bytes)], part := [], fslots := c.fslots + 1, hRb := c.hRb + |bytes|)
  }

  lemma WriteEnd(slots: seq<Slot>, e: nat, cells: seq<Cell>, part: seq<Byte>, hRb: nat, data: seq<Byte>)
    requires SlotsRep(slots, e, cells, part, hRb) && |cells| < |slots|
    requires data != [] && |part| + |data| <= SLOT_SIZE
    ensures slots[e].size == slots[e].wptr == |part| && slots[e].wptr + |data| <= |slots[e].data| == SLOT_SIZE
    ensures slots[e].state == Empty || slots[e].state == Part
    ensures var s := SlotWrite(slots[e], data, hRb);
      if s.state == Full then
        |part + data| == SLOT_SIZE
        && SlotsRep(slots[e := s], Next(|slots|, e), cells + [Cell(Full, hRb, part + data)], [], hRb + SLOT_SIZE)
      else |part + data| != SLOT_SIZE && SlotsRep(slots[e := s], e, cells, part + data, hRb)
  {
    SlotAt(slots, e, cells, part, hRb, e);
    WrittenData(slots, e, cells, part, hRb, data);
    hide SlotsRep;
    var s := SlotWrite(slots[e], data, hRb);
    if s.state == Full {
      FillEnd(slots, e, cells, part, hRb, s, Cell(Full, hRb, part + data), hRb + SLOT_SIZE);
    } else {
      PartEnd(slots, e, cells, part, hRb, s, part + data);
    }
  }

  lemma WrittenData(slots: seq<Slot>, e: nat, cells: seq<Cell>, part: seq<Byte>, hRb: nat, data: seq<Byte>)
    requires SlotsRep(slots, e, cells, part, hRb) && |cells| < |slots|
    requires data != [] && |part| + |data| <= SLOT_SIZE
    ensures slots[e].wptr + |data| <= |slots[e].data|
    ensures var s := SlotWrite(slots[e], data, hRb); s.size <= |s.data| && s.data[..s.size] == part + data
  {
  }

  lemma ReadEnd(slots: seq<Slot>, e: nat, cells: seq<Cell>, part: seq<Byte>, hRb: nat, bytes: seq<Byte>)
    requires SlotsRep(slots, e, cells, part, hRb) && |cells| < |slots|
    requires bytes != [] && |bytes| <= SLOT_SIZE
    ensures |slots[e].data| == SLOT_SIZE
    ensures var s := SlotRead(slots[e], bytes, hRb);
      SlotsRep(slots[e := s], Next(|slots|, e), cells + [Cell(Full, hRb, bytes)], [], hRb + |bytes|)
  {
  }

  /** A slot is free to write exactly when it is the one at the end and the ring is not full. */
  lemma EndFree(slots: seq<Slot>, e: nat, cells: seq<Cell>, part: seq<Byte>, hRb: nat)
    requires SlotsRep(slots, e, cells, part, hRb)
    ensures slots[e].state == Empty || slots[e].state == Part <==> |cells| < |slots|
    ensures |cells| == |slots| ==> slots[e].state == cells[0].state && slots[e].offset == cells[0].offset
                                   && slots[e].size == |cells[0].bytes|
    ensures |slots[e].data| == SLOT_SIZE && |cells| <= |slots|
    ensures |cells| < |slots| ==> slots[e].wptr == |part|
  {
  }

  /** The slot the migration thread looks at holds what the value model copies. */
  lemma SlotToCopy(slots: seq<Slot>, tail: nat, c: Cache, p: nat)
    requires SlotsRep(slots, tail, c.cells, c.part, c.hRb) && |slots| == c.nslots && !c.drained && p < |slots|
    requires c.mNext < |slots| && Dist(|slots|, tail, p) == |slots| - c.mNext
    requires |c.cells| == c.nslots ==> c.part == []
    ensures slots[p].size <= |slots[p].data| && |c.cells| <= c.nslots
    ensures SlotBytes(c, c.mNext) == if slots[p].state == Empty then [] else slots[p].data[..slots[p].size]
    ensures slots[p].state != Empty ==> slots[p].size == |SlotBytes(c, c.mNext)|
  {
  }

  /** One round of a reload. */
  lemma ReloadStep(c: Cache, rounds: nat, drain: bool)
    ensures ReloadRounds(c, 0, drain) == c
    ensures var c1 := CacheModel.RecycleTail(c);
      rounds > 0 ==>
        if CanRead(c1, drain) then
          c1.rPos + ReadSize(c1) <= |c1.file|
          && ReloadRounds(c, rounds, drain) == ReloadRounds(CacheModel.DiskRead(c1), rounds - 1, drain)
        else ReloadRounds(c, rounds, drain) == c1
  {
    hide CacheModel.RecycleTail, CacheModel.DiskRead, ReadSize;
  }

  lemma WriteNothing(file: seq<Byte>, pos: nat)
    ensures WriteAt(file, pos, []) == file
  {
  }

  class ShifterCache {
    const nslots: nat
    const slots: array<Slot>

    var head: nat
    var tail: nat
    var fslots: int

    var hOffset: nat
    var lRb: nat
    var hRb: nat
    var lDk: nat
    var hDk: nat
    var mDk: nat
    var needDiscont: bool

    var file: seq<Byte>
    var wPos: nat
    var rPos: nat
    var mPos: nat
    var recording: bool
    var migrated: bool
    var refs: int

    /** The migration thread: how many slots it has looked at, and the slot it looks at next. */
    var migration: Migration
    var migNext: nat

    /** The cache as a value, and everything pushed. */
    ghost var view: Cache
    ghost var stream: seq<Byte>

    /** Where the ring ends: the tail, or one further when a drain has left the newest cell in the tail slot. */
    ghost function End(): nat
      reads this
    {
      if view.drained then Next(nslots, tail) else tail
    }

    /** The scalar fields are those of the view. */
    ghost predicate Ties()
      reads this
    {
      && view.nslots == nslots && view.fslots == fslots
      && view.hOffset == hOffset && view.lRb == lRb && view.hRb == hRb
      && view.lDk == lDk && view.hDk == hDk && view.mDk == mDk && view.needDiscont == needDiscont
      && view.file == file && view.wPos == wPos && view.rPos == rPos && view.mPos == mPos
      && view.recording == recording && view.migrated == migrated && view.refs == refs && view.migration == migration
    }

    /** The slots, head and tail represent the ring of the view. */
    ghost predicate Rep()
      reads this, slots
    {
      && Ties()
      && slots.Length == nslots && head < nslots && tail < nslots && migNext < nslots
      && SlotsRep(slots[..], End(), view.cells, view.part, hRb)
      && view.head <= |view.cells|
      && (|view.cells| == nslots || view.drained ==> view.part == [])
      && head == Back(nslots, End(), |view.cells| - view.head)
      && (migration.Copying? ==> view.mNext < nslots && Dist(nslots, tail, migNext) == nslots - view.mNext)
    }

    lemma Tied()
      requires Rep()
      ensures Ties()
      ensures slots.Length == nslots && head < nslots && End() < nslots && view.head <= |view.cells| <= nslots
      ensures head == Back(nslots, End(), |view.cells| - view.head)
    {
    }

    /** What every operation keeps, even after a reload that put wrong bytes into the ring. */
    ghost predicate Valid()
      reads this, slots
    {
      Rep() && Orderly(view)
    }

    /** Ring and file hold what was pushed. */
    ghost predicate Intact()
      reads this
    {
      Inv(view, stream)
    }

    /** Buffers that were out and not let go keep their slot, its state and its memory. */
    twostate predicate OutUntouched()
      reads this, slots
    {
      forall p :: 0 <= p < slots.Length && old(slots[p].state) == SlotState.Pop ==> slots[p] == old(slots[p])
    }

    constructor (size: nat)
      requires size >= SLOT_SIZE
      ensures Valid() && Intact() && fresh(slots)
      ensures view == New(size / SLOT_SIZE) && stream == []
    {
      var n := size / SLOT_SIZE;
      nslots := n;
      slots := new Slot[n](i => Slot(Empty, INVALID_OFFSET, 0, 0, Zeros(SLOT_SIZE)));
      head, tail, fslots := 0, 0, 0;
      hOffset, lRb, hRb := 0, 0, 0;
      lDk, hDk, mDk := INVALID_OFFSET, INVALID_OFFSET, INVALID_OFFSET;
      needDiscont := true;
      file, wPos, rPos, mPos := [], 0, 0, 0;
      recording, migrated, refs := false, false, 1;
      migration, migNext := NotStarted, 0;
      view, stream := New(n), [];
      new;
      StartInv(n);
      InvOrderly(view, stream);
    }

    method RecycleTail()
      requires Rep() && !view.drained
      modifies this`view, this`lRb, slots
      ensures Rep() && view == CacheModel.RecycleTail(old(view)) && !view.drained
      ensures OutUntouched()
    {
      hide SlotsRep;
      EndFree(slots[..], tail, view.cells, view.part, hRb);
      var slot := slots[tail];
      if slot.state == Recycle {
        var blank := Slot(Empty, INVALID_OFFSET, 0, 0, slot.data);
        BlankOldest(slots[..], tail, view.cells, hRb, blank);
        slots[tail] := blank;
        assert slots[..] == old(slots[..])[tail := blank];
        if slot.offset != INVALID_OFFSET {
          lRb := slot.offset + slot.size;
        }
        view := CacheModel.RecycleTail(view);
      }
    }

    /** The tail slot, now `filled` with `bytes`, is FULL: move the tail. A migrator that is under way keeps to its
        slot. */
    method AdvanceTail(filled: Slot, bytes: seq<Byte>, ghost place: nat)
      requires Rep() && !view.drained && |view.cells| < nslots
      requires migration.Copying? ==> place == Before(nslots, view.mNext)
      requires SlotsRep(slots[..][tail := filled], Next(nslots, tail), view.cells + [Cell(Full, hRb, bytes)], [],
                        hRb + |bytes|)
      requires slots[tail].state != SlotState.Pop
      modifies this`view, this`tail, this`fslots, this`hRb, slots
      ensures Rep() && view == Filled(old(view), bytes).(mNext := place)
      ensures OutUntouched()
    {
      hide SlotsRep, Back, Dist, Next;
      EndMoves(nslots, tail, |view.cells| - view.head);
      if migration.Copying? {
        PlaceNext(nslots, tail, migNext, view.mNext);
      }
      slots[tail] := filled;
      assert slots[..] == old(slots[..])[tail := filled];
      view := Filled(view, bytes).(mNext := place);
      tail, hRb, fslots := Next(nslots, tail), hRb + |bytes|, fslots + 1;
    }

    /** The tail slot, now holding `part`, stays PART. */
    method KeepTail(filled: Slot, ghost part: Piece)
      requires Rep() && !view.drained && |view.cells| < nslots
      requires SlotsRep(slots[..][tail := filled], tail, view.cells, part, hRb)
      requires slots[tail].state != SlotState.Pop
      modifies this`view, slots
      ensures Rep() && view == old(view).(part := part)
      ensures OutUntouched()
    {
      hide SlotsRep, Back, Dist, Next;
      slots[tail] := filled;
      assert slots[..] == old(slots[..])[tail := filled];
      view := view.(part := part);
    }

    method AddTotal(k: nat)
      requires Rep()
      modifies this`view, this`hOffset
      ensures Rep() && view == old(view).(hOffset := old(view).hOffset + k)
    {
      hide SlotsRep, Back, Dist, Next;
      hOffset := hOffset + k;
      view := view.(hOffset := view.hOffset + k);
    }

    method AddRead(k: nat)
      requires Rep()
      modifies this`view, this`rPos
      ensures Rep() && view == old(view).(rPos := old(view).rPos + k)
    {
      hide SlotsRep, Back, Dist, Next;
      rPos := rPos + k;
      view := view.(rPos := view.rPos + k);
    }

    /** Write `data`, which fits, to the tail slot. */
    method WriteTail(data: seq<Byte>)
      requires Rep() && !view.drained && |view.cells| < nslots && !migration.Copying?
      requires data != [] && |view.part| + |data| <= SLOT_SIZE
      modifies this`view, this`tail, this`fslots, this`hRb, this`hOffset, slots
      ensures Rep() && view == WriteSlot(old(view), data)
      ensures OutUntouched()
    {
      hide SlotsRep, SlotWrite, Back, Dist, Next;
      WriteEnd(slots[..], tail, view.cells, view.part, hRb, data);
      ghost var all := view.part + data;
      var written := SlotWrite(slots[tail], data, hRb);
      if written.state == Full {
        assert written.data[..written.size] == all by {
          WrittenData(slots[..], tail, view.cells, view.part, hRb, data);
        }
        AdvanceTail(written, written.data[..written.size], view.mNext);
      } else {
        KeepTail(written, all);
      }
      AddTotal(|data|);
    }

    method DiskWrite(data: seq<Byte>)
      requires Rep()
      modifies this`view, this`file, this`wPos, this`hOffset, this`hDk
      ensures Rep() && view == CacheModel.DiskWrite(old(view), data)
    {
      hide SlotsRep, WriteAt;
      file, wPos := WriteAt(file, wPos, data), wPos + |data|;
      hOffset := hOffset + |data|;
      hDk := hOffset;
      view := CacheModel.DiskWrite(view, data);
    }

    method StartRecording()
      requires Rep() && !view.drained
      modifies this`view, this`mDk, this`lDk, this`wPos, this`recording, this`migration, this`migNext, this`refs
      ensures Rep() && view == CacheModel.StartRecording(old(view))
    {
      hide SlotsRep;
      if migration.NotStarted? {
        mDk := lRb;
        lDk := hOffset;
        wPos := Wrap64(hOffset - lRb);
        recording := true;
        migration, migNext := Copying(0), tail;
        refs := refs + 1;
        view := CacheModel.StartRecording(view);
      }
    }

    /** One round of the loop of the migration thread: copy a slot, unless it is empty. */
    method CopySlot()
      requires Valid() && migration.Copying? && migration.i < nslots
      modifies this`view, this`file, this`mPos, this`migration, this`migNext
      ensures Valid() && view == Migrate(old(view))
      ensures old(Intact()) ==> Intact()
    {
      hide SlotsRep, Inv, Orderly, WriteAt, SlotBytes, Back, Dist, Next;
      CopyKeeps(view, stream);
      SlotToCopy(slots[..], tail, view, migNext);
      WriteNothing(file, mPos);
      var slot := slots[migNext];
      if slot.state != Empty {
        CopyOut(slot.data[..slot.size]);
      }
      NextSlot();
    }

    method CopyOut(bytes: seq<Byte>)
      requires Rep()
      modifies this`view, this`file, this`mPos
      ensures Rep() && view == old(view).(file := WriteAt(old(file), old(mPos), bytes), mPos := old(mPos) + |bytes|)
    {
      hide SlotsRep, WriteAt, Back, Dist, Next;
      file, mPos := WriteAt(file, mPos, bytes), mPos + |bytes|;
      view := view.(file := file, mPos := mPos);
    }

    method NextSlot()
      requires Rep() && !view.drained && migration.Copying? && migration.i < nslots
      modifies this`view, this`migration, this`migNext
      ensures Rep()
      ensures view == old(view).(mNext := After(nslots, old(view).mNext), migration := Copying(old(migration).i + 1))
    {
      hide SlotsRep, Back, Dist, Next, After;
      Tied();
      PlaceNext(nslots, tail, migNext, view.mNext);
      migNext, migration := Next(nslots, migNext), Copying(migration.i + 1);
      view := view.(mNext := After(nslots, view.mNext), migration := migration);
    }

    /** The end of the migration thread. */
    method FinishMigration()
      requires Valid() && migration == Copying(nslots)
      modifies this`view, this`migration, this`lDk, this`migrated, this`refs
      ensures Valid() && view == Migrate(old(view))
      ensures old(Intact()) ==> Intact()
    {
      hide SlotsRep, Inv, Orderly, Back, Next;
      CopyKeeps(view, stream);
      view := Migrate(view);
      lDk := mDk;
      migrated := true;
      migration := Finished;
      refs := refs - 1;
    }

    /** Whether the file has enough to read, and the tail slot is free to take it. */
    method ReadPossible(drain: bool) returns (ok: bool)
      requires Rep() && !view.drained
      ensures ok == CanRead(view, drain)
    {
      hide SlotsRep, Wrap64;
      EndFree(slots[..], tail, view.cells, view.part, hRb);
      var size := Min(Wrap64(wPos - rPos), SLOT_SIZE);
      var slot := slots[tail];
      ok := size > 0 && (drain || size == SLOT_SIZE) && (slot.state == Empty || slot.state == Part)
            && rPos + size <= |file|;
    }

    /** Read a piece of the file into the tail slot. */
    method ReadTail(ghost drain: bool)
      requires Rep() && !view.drained && CanRead(view, drain)
      modifies this`view, this`tail, this`fslots, this`hRb, this`rPos, slots
      ensures Rep() && view == CacheModel.DiskRead(old(view)) && !view.drained
      ensures OutUntouched()
    {
      hide SlotsRep, Wrap64, SlotRead, Back, Dist, Next, Before;
      var size := Min(Wrap64(wPos - rPos), SLOT_SIZE);
      var bytes := file[rPos..rPos + size];
      EndFree(slots[..], tail, view.cells, view.part, hRb);
      ReadEnd(slots[..], tail, view.cells, view.part, hRb, bytes);
      AdvanceTail(SlotRead(slots[tail], bytes, hRb), bytes, Before(nslots, view.mNext));
      AddRead(size);
    }

    method Reload(drain: bool)
      requires Rep() && !view.drained
      modifies this`view, this`tail, this`fslots, this`lRb, this`hRb, this`rPos, slots
      ensures Rep() && view == CacheModel.Reload(old(view), drain)
      ensures OutUntouched()
    {
      hide Rep, CanRead, CacheModel.RecycleTail, CacheModel.DiskRead, ReloadRounds;
      Tied();
      var n := if drain then 1 else BitStorage(Wrap64(nslots - fslots));
      var i := 0;
      while i < n
        invariant 0 <= i <= n && Rep() && !view.drained && OutUntouched()
        invariant ReloadRounds(view, n - i, drain) == ReloadRounds(old(view), n, drain)
      {
        ReloadStep(view, n - i, drain);
        RecycleTail();
        var ok := ReadPossible(drain);
        if !ok {
          return;
        }
        ReadTail(drain);
        i := i + 1;
      }
      ReloadStep(view, 0, drain);
    }

    // -------------------------------------------------------------------------------------------------------------
    // Push

    /** No slot is free: the rest of a push goes to the file, and the ring will be copied before it. */
    method Overflow(data: seq<Byte>)
      requires Rep() && !view.drained
      modifies this`view, this`mDk, this`lDk, this`wPos, this`recording, this`migration, this`migNext, this`refs,
               this`file, this`hOffset, this`hDk
      ensures Rep() && view == CacheModel.DiskWrite(CacheModel.StartRecording(old(view)), data)
    {
      hide SlotsRep, CacheModel.DiskWrite, CacheModel.StartRecording, Back, Dist, Next;
      StartRecording();
      DiskWrite(data);
    }

    /** A free tail slot takes what fits. */
    method FillTail(data: seq<Byte>) returns (rest: seq<Byte>)
      requires Rep() && TailFree(view) && !migration.Copying? && data != []
      modifies this`view, this`tail, this`fslots, this`hRb, this`hOffset, slots
      ensures var k := Min(SLOT_SIZE - |old(view).part|, |data|);
        Rep() && view == WriteSlot(old(view), data[..k]) && rest == data[k..]
      ensures OutUntouched()
    {
      hide SlotsRep, WriteSlot, Back, Dist, Next;
      EndFree(slots[..], tail, view.cells, view.part, hRb);
      var k := Min(SLOT_SIZE - slots[tail].wptr, |data|);
      WriteTail(data[..k]);
      rest := data[k..];
    }

    method TailIsFree() returns (free: bool)
      requires Rep() && !view.drained
      ensures free == TailFree(view)
    {
      hide SlotsRep;
      EndFree(slots[..], tail, view.cells, view.part, hRb);
      free := slots[tail].state == Empty || slots[tail].state == Part;
    }

    ghost method Note(data: seq<Byte>)
      requires Rep()
      modifies this`stream
      ensures Rep() && stream == old(stream) + data
    {
      hide SlotsRep, Back, Dist, Next;
      stream := stream + data;
    }

    /** One round of the loop of a push into the ring. */
    method PushOnce(data: seq<Byte>) returns (rest: seq<Byte>)
      requires Valid() && !recording && !view.drained && data != [] && hOffset + |data| < INVALID_OFFSET
      modifies this, slots
      ensures Valid() && (view, rest) == PushRound(old(view), data)
      ensures old(Intact()) ==> Intact()
      ensures stream == old(stream) + data[..|data| - |rest|] && rest == data[|data| - |rest|..]
      ensures |rest| < |data| && hOffset + |rest| == old(hOffset) + |data|
      ensures !view.drained && (recording ==> rest == [])
      ensures OutUntouched()
    {
      hide Rep, Inv, Orderly, Back, Dist, Next, CacheModel.DiskWrite, WriteSlot, CacheModel.StartRecording,
           CacheModel.RecycleTail;
      Tied();
      NotCopyingRing(view);
      RoundKeeps(view, stream, data);
      RecycleTail();
      var free := TailIsFree();
      if free {
        rest := FillTail(data);
      } else {
        RecycleNothing(old(view));
        Overflow(data);
        rest := [];
      }
      Note(data[..|data| - |rest|]);
      Tied();
    }

    method Push(data: seq<Byte>)
      requires Valid() && !view.drained && hOffset + |data| < INVALID_OFFSET
      modifies this, slots
      ensures Rep() && view == CacheModel.Push(old(view), data) && stream == old(stream) + data
      ensures Short(old(view).hOffset + |data|) || WriteSafe(old(view), data) ==> Valid()
      ensures old(Intact()) && WriteSafe(old(view), data) ==> Intact()
      ensures OutUntouched()
    {
      hide Rep, Inv, Orderly, Back, Dist, Next, PushRound, WriteSafe, CacheModel.Push;
      Tied();
      PushIs(view, data);
      if recording {
        PushToDisk(data);
      } else {
        var rest := data;
        while rest != []
          invariant Valid() && !view.drained && (recording ==> rest == []) && (old(Intact()) ==> Intact())
          invariant PushRing(view, rest) == PushRing(old(view), data)
          invariant stream + rest == old(stream) + data
          invariant hOffset + |rest| == old(hOffset) + |data|
          invariant OutUntouched()
          decreases |rest|
        {
          AppendInParts(stream, rest, |rest|);
          Tied();
          rest := PushOnce(rest);
        }
        assert stream + [] == stream;
      }
    }

    /** A push while recording: to the file, and from it if the ring is empty. */
    method PushToDisk(data: seq<Byte>)
      requires Valid() && recording && !view.drained && hOffset + |data| < INVALID_OFFSET
      modifies this, slots
      ensures Rep() && view == CacheModel.Push(old(view), data) && stream == old(stream) + data
      ensures Short(old(view).hOffset + |data|) || WriteSafe(old(view), data) ==> Valid()
      ensures old(Intact()) && WriteSafe(old(view), data) ==> Intact()
      ensures OutUntouched()
    {
      hide Rep, Inv, Orderly, Back, Dist, Next, CacheModel.DiskWrite, CacheModel.Reload, WriteSafe;
      Tied();
      if Short(hOffset + |data|) || WriteSafe(view, data) {
        RecordingPushOrderly(view, data);
      }
      if Inv(view, stream) && WriteSafe(view, data) {
        RecordingWriteInv(view, stream, data);
      }
      DiskWriteKeeps(view, data);
      DiskWrite(data);
      Note(data);
      Tied();
      if fslots == 0 {
        Reload(false);
      }
    }

    // -------------------------------------------------------------------------------------------------------------
    // Pop and release

    /** Drain: a PART slot at the head becomes FULL where it is. */
    method FinishPart()
      requires Rep() && (view.head == |view.cells| && view.part != [] ==> !view.drained)
      modifies this`view, this`hRb, this`fslots, slots
      ensures Rep() && view == CacheModel.FinishPart(old(view))
      ensures OutUntouched()
    {
      hide SlotsRep;
      HeadSlot(slots[..], End(), view, head);
      var slot := slots[head];
      if slot.state == Part {
        FinishEnd(slots[..], tail, view);
        slots[head] := slot.(state := Full);
        assert slots[..] == old(slots[..])[head := slot.(state := Full)];
        hRb := slot.offset + slot.size;
        fslots := fslots + 1;
        view := CacheModel.FinishPart(view);
      }
    }

    method HeadIsFull() returns (full: bool)
      requires Rep()
      requires view.head < |view.cells| ==> HeadFull(view)
      requires |view.cells| > 0 && view.head == |view.cells| ==> view.cells[0].state != Full
      ensures full == HeadFull(view)
    {
      hide SlotsRep;
      HeadSlot(slots[..], End(), view, head);
      full := slots[head].state == Full;
    }

    /** Get the buffer at the head, or nothing. */
    method Pop(drain: bool) returns (buffer: Option<Buffer>)
      requires Valid()
      modifies this, slots
      ensures Rep() && view == PopCache(old(view), drain) && stream == old(stream)
      ensures buffer == PopBuffer(old(view), drain)
      ensures Short(old(view).hOffset) || PopSafe(old(view), drain) ==> Valid()
      ensures old(Intact()) && PopSafe(old(view), drain) ==> Intact()
      ensures OutUntouched()
    {
      hide Rep, Inv, Orderly, Back, Dist, Next, CacheModel.FinishPart, TakeAndReload, PopSafe;
      Tied();
      PopReady(view, drain);
      PopKeeps(view, stream, drain);
      if drain {
        FinishPart();
      }
      Tied();
      var full := HeadIsFull();
      if full {
        buffer := TakeOutAndReload(drain);
      } else {
        buffer := None;
      }
    }

    /** Hand out the head slot and, when playing from the file, refill the ring. */
    method TakeOutAndReload(drain: bool) returns (buffer: Option<Buffer>)
      requires Rep() && HeadFull(view)
      requires view.recording && view.migrated ==> !view.drained
      modifies this`view, this`head, this`tail, this`fslots, this`needDiscont, this`refs,
               this`lRb, this`hRb, this`rPos, slots
      ensures Rep() && view == TakeAndReload(old(view), drain)
      ensures buffer == Some(Buffer(old(view).cells[old(view).head].offset, old(view).cells[old(view).head].bytes,
                                    old(view).needDiscont))
      ensures OutUntouched()
    {
      hide Rep, CacheModel.Reload;
      Tied();
      buffer := TakeOutHead();
      Tied();
      if recording && migrated {
        Reload(drain);
      }
    }

    /** Hand out the head slot, which is FULL. */
    method TakeOutHead() returns (buffer: Option<Buffer>)
      requires Rep() && HeadFull(view)
      modifies this`view, this`head, this`fslots, this`needDiscont, this`refs, slots
      ensures Rep() && view == TakeHead(old(view))
      ensures buffer == Some(Buffer(old(view).cells[old(view).head].offset, old(view).cells[old(view).head].bytes,
                                    old(view).needDiscont))
      ensures OutUntouched()
    {
      hide SlotsRep, Back, Dist, Next;
      Tied();
      HeadSlot(slots[..], End(), view, head);
      var slot := slots[head];
      buffer := Some(Buffer(slot.offset, slot.data[..slot.size], needDiscont));
      MarkOut();
      PassHead();
    }

    method MarkOut()
      requires Rep() && view.head < |view.cells| && slots[head].state != SlotState.Pop
      modifies this`view, slots
      ensures Rep() && OutUntouched()
      ensures var c := old(view);
        view == c.(cells := c.cells[c.head := c.cells[c.head].(state := SlotState.Pop)])
    {
      hide SlotsRep, Back, Dist, Next;
      Tied();
      HeadSlot(slots[..], End(), view, head);
      RestateSlot(slots[..], End(), view.cells, view.part, hRb, head, SlotState.Pop);
      var out := slots[head].(state := SlotState.Pop);
      slots[head] := out;
      assert slots[..] == old(slots[..])[head := out];
      view := view.(cells := view.cells[view.head := view.cells[view.head].(state := SlotState.Pop)]);
    }

    method PassHead()
      requires Rep() && view.head < |view.cells|
      modifies this`view, this`head, this`fslots, this`needDiscont, this`refs
      ensures Rep()
      ensures view == old(view).(head := old(view).head + 1, fslots := old(view).fslots - 1,
                                 needDiscont := false, refs := old(view).refs + 1)
    {
      hide SlotsRep, Back, Dist, Next;
      Tied();
      BackPrev(nslots, End(), |view.cells| - view.head - 1);
      view := view.(head := view.head + 1, fslots := view.fslots - 1, needDiscont := false, refs := view.refs + 1);
      head, fslots, needDiscont, refs := Next(nslots, head), fslots - 1, false, refs + 1;
    }

    /** Downstream frees the buffer made of slot `p`. */
    method Release(p: nat)
      requires Valid() && p < nslots && slots[p].state == SlotState.Pop
      modifies this`view, this`refs, slots
      ensures 1 <= Dist(nslots, End(), p) <= |old(view).cells|
      ensures var i := |old(view).cells| - Dist(nslots, End(), p);
        old(view).cells[i].state == SlotState.Pop && view == CacheModel.Release(old(view), i)
      ensures Valid() && slots[..] == old(slots[..])[p := old(slots[p]).(state := Recycle)]
      ensures old(Intact()) ==> Intact()
    {
      hide SlotsRep, Inv, Orderly;
      SlotAt(slots[..], End(), view.cells, view.part, hRb, p);
      ghost var i := |view.cells| - Dist(nslots, End(), p);
      RestateSlot(slots[..], End(), view.cells, view.part, hRb, p, Recycle);
      SlotsFit(view);
      ReleaseOrderly(view, i);
      if Inv(view, stream) {
        LetGoInv(view, stream, i);
      }
      slots[p] := slots[p].(state := Recycle);
      assert slots[..] == old(slots[..])[p := old(slots[p]).(state := Recycle)];
      view := CacheModel.Release(view, i);
      refs := refs - 1;
    }

    /** The slot last handed out is the one before the head. */
    lemma LastOut(p: nat)
      requires Rep() && 0 < view.head <= |view.cells| && view.cells[view.head - 1].state == SlotState.Pop
      requires p == Prev(nslots, head)
      ensures p < nslots && slots[p].state == SlotState.Pop
      ensures Dist(nslots, End(), p) == |view.cells| - view.head + 1
    {
      hide SlotsRep;
      Tied();
      BackPrev(nslots, End(), |view.cells| - view.head);
      SlotCell(slots[..], End(), view, p);
    }

    /** Downstream frees the buffer that was handed out last. */
    method ReleaseLast()
      requires Valid()
      requires 0 < view.head <= |view.cells| && view.cells[view.head - 1].state == SlotState.Pop
      modifies this`view, this`refs, slots
      ensures Valid() && view == CacheModel.Release(old(view), old(view).head - 1)
      ensures old(Intact()) ==> Intact()
    {
      hide Rep, Inv, Orderly, Back, Dist;
      Tied();
      var p := Prev(nslots, head);
      LastOut(p);
      Release(p);
    }

    method HasOffset(x: nat) returns (has: bool)
      requires Rep()
      ensures has == CacheModel.HasOffset(view, x)
    {
      has := if recording && migrated then lDk <= x < hDk else lRb <= x < hOffset;
    }

    // -------------------------------------------------------------------------------------------------------------
    // Seek

    /** A RECYCLE slot becomes FULL again; true if the slot is FULL afterwards. */
    method Rollback(p: nat) returns (ok: bool)
      requires Rep() && p < nslots
      modifies this`view, this`fslots, slots
      ensures Rep() && view == Roll(old(view), |old(view).cells| - Dist(nslots, End(), p), Recycle, Full)
      ensures ok == (slots[p].state == Full) && End() == old(End())
      ensures OutUntouched()
    {
      hide SlotsRep, Back, Dist, Next;
      ghost var i := |view.cells| - Dist(nslots, End(), p);
      SlotCell(slots[..], End(), view, p);
      if slots[p].state == Recycle {
        RestateSlot(slots[..], End(), view.cells, view.part, hRb, p, Full);
        slots[p] := slots[p].(state := Full);
        assert slots[..] == old(slots[..])[p := old(slots[p]).(state := Full)];
        view := Roll(view, i, Recycle, Full);
        fslots := fslots + 1;
      }
      ok := slots[p].state == Full;
    }

    /** A FULL slot becomes RECYCLE. */
    method Rollforward(p: nat)
      requires Rep() && p < nslots
      modifies this`view, this`fslots, slots
      ensures Rep() && view == Roll(old(view), |old(view).cells| - Dist(nslots, End(), p), Full, Recycle)
      ensures End() == old(End())
      ensures OutUntouched()
    {
      hide SlotsRep, Back, Dist, Next;
      ghost var i := |view.cells| - Dist(nslots, End(), p);
      SlotCell(slots[..], End(), view, p);
      if slots[p].state == Full {
        RestateSlot(slots[..], End(), view.cells, view.part, hRb, p, Recycle);
        slots[p] := slots[p].(state := Recycle);
        assert slots[..] == old(slots[..])[p := old(slots[p]).(state := Recycle)];
        view := Roll(view, i, Full, Recycle);
        fslots := fslots - 1;
      }
    }

    method MoveHead(p: nat, ghost k: nat)
      requires Rep() && p < nslots && k <= |view.cells| && p == Back(nslots, End(), |view.cells| - k)
      modifies this`view, this`head
      ensures Rep() && view == old(view).(head := k)
    {
      hide SlotsRep, Back, Dist, Next;
      head := p;
      view := view.(head := k);
    }

    /** One step of the walk forward: recycle the slot, go to the next, look whether it holds `x`. */
    method AheadOnce(seeker: nat, x: nat, ghost c: Cache, ghost k: nat) returns (next: nat, found: bool)
      requires Rep() && Shape(c) && c.lRb <= x < c.hRb && WalkStart(c) <= k && k + 1 < |c.cells|
      requires view == Ahead(c, k) && seeker < nslots && Dist(nslots, End(), seeker) == |c.cells| - k
      modifies this`view, this`fslots, slots
      ensures Rep() && view == Ahead(c, k + 1) && End() == old(End())
      ensures next < nslots && Dist(nslots, End(), next) == |c.cells| - (k + 1)
      ensures found <==> k + 1 == Locate(c.cells, x)
      ensures OutUntouched()
    {
      hide SlotsRep, Back, Dist, Next, Shape, Ahead, Locate, Roll;
      AheadStep(c, k);
      AheadFields(c, k);
      AheadFields(c, k + 1);
      SlotCell(slots[..], End(), view, seeker);
      DistNext(nslots, End(), seeker);
      FoundAt(c, k + 1, x);
      Rollforward(seeker);
      next := Next(nslots, seeker);
      SlotCell(slots[..], End(), view, next);
      found := slots[next].offset <= x < slots[next].offset + slots[next].size;
    }

    /** Walk forward from the head, recycling, to the slot that holds `x`; make that one FULL and the new head. */
    method SeekAhead(x: nat, ghost t: nat)
      requires Rep() && Shape(view) && view.lRb <= x < view.hRb
      requires t == Locate(view.cells, x) && WalkStart(view) < t < |view.cells|
      modifies this`view, this`fslots, this`head, slots
      ensures Rep() && view == SeekRing(old(view), x)
      ensures OutUntouched()
    {
      hide Rep, Back, Dist, Next, Shape, Ahead, Locate, SeekRing, WalkStart;
      ghost var c := view;
      ghost var k: nat := WalkStart(c);
      Tied();
      WalkStartsAtHead(nslots, End(), c, head);
      AheadNone(c);
      var seeker: nat := head;
      var found := false;
      while !found
        invariant Rep() && seeker < nslots && OutUntouched() && End() == old(End())
        invariant view == Ahead(c, k) && WalkStart(c) <= k <= t
        invariant Dist(nslots, End(), seeker) == |c.cells| - k
        invariant found <==> k == t
        decreases t - k
      {
        seeker, found := AheadOnce(seeker, x, c, k);
        k := k + 1;
      }
      AheadFields(c, k);
      AheadEnd(c, x);
      BackDist(nslots, End(), seeker);
      var ok := Rollback(seeker);
      MoveHead(seeker, t);
    }

    /** One step of the walk back: go to the slot before and revive it, unless it is still out. */
    method BackOnce(seeker: nat, x: nat, ghost c: Cache, ghost t: nat, ghost k: nat)
      returns (prev: nat, ok: bool, found: bool)
      requires Rep() && Shape(c) && c.lRb <= x < c.hRb && t == Locate(c.cells, x) < k <= c.head
      requires view == Behind(c, k) && seeker == Back(nslots, End(), |c.cells| - k)
      modifies this`view, this`fslots, slots
      ensures Rep() && prev < nslots && End() == old(End())
      ensures ok == (c.cells[k - 1].state != SlotState.Pop)
      ensures prev == Back(nslots, End(), |c.cells| - k + 1)
      ensures view == Behind(c, if ok then k - 1 else k)
      ensures ok ==> (found <==> k - 1 == t)
      ensures OutUntouched()
    {
      hide SlotsRep, Back, Dist, Next, Prev, Shape, Behind, Locate, Roll, Landing;
      BehindFields(c, k);
      BehindFields(c, k - 1);
      BehindStep(c, t, k);
      FoundAt(c, k - 1, x);
      SlotCell(slots[..], End(), view, head);
      BackPrev(nslots, End(), |c.cells| - k);
      prev := Prev(nslots, seeker);
      ok := Rollback(prev);
      SlotCell(slots[..], End(), view, prev);
      found := slots[prev].offset <= x < slots[prev].offset + slots[prev].size;
    }

    /** Walk back from the head, reviving, to the slot that holds `x`, or to the one behind a slot still out. */
    method SeekBehind(x: nat, ghost t: nat)
      requires Rep() && Shape(view) && view.lRb <= x < view.hRb && !CaughtUpFull(view)
      requires t == Locate(view.cells, x) && t < view.head
      modifies this`view, this`fslots, this`head, slots
      ensures Rep() && view == SeekRing(old(view), x)
      ensures OutUntouched()
    {
      hide Rep, Back, Dist, Next, Prev, Shape, Behind, Locate, SeekRing, Landing, Roll;
      ghost var c := view;
      ghost var k: nat := c.head;
      Tied();
      HeadStays(nslots, End(), c, head);
      var ok := Rollback(head);
      BehindNone(c);
      var seeker: nat := head;
      var found := false;
      while !found
        invariant Rep() && seeker < nslots && OutUntouched() && End() == old(End())
        invariant view == Behind(c, k) && t <= k <= c.head <= |c.cells|
        invariant seeker == Back(nslots, End(), |c.cells| - k)
        invariant Landing(c.cells, t, k) == Landing(c.cells, t, c.head)
        invariant found ==> Landing(c.cells, t, k) == k
        invariant !found ==> t < k
        decreases !found, k
      {
        BehindStep(c, t, k);
        BackPrev(nslots, End(), |c.cells| - k);
        seeker, ok, found := BackOnce(seeker, x, c, t, k);
        if ok {
          k := k - 1;
          LandingHere(c.cells, t, k);
        } else {
          seeker := Next(nslots, seeker);
          found := true;
        }
      }
      BehindFields(c, k);
      BehindEnd(c, x, k);
      MoveHead(seeker, k);
    }

    lemma HeadTells(x: nat)
      requires Rep() && Shape(view) && view.lRb <= x < view.hRb
      ensures var t := Locate(view.cells, x);
        && t < |view.cells|
        && (x < slots[head].offset <==> t < WalkStart(view) && !CaughtUpFull(view))
        && (slots[head].offset <= x < slots[head].offset + slots[head].size <==> t == WalkStart(view))
    {
      HeadOffset(slots[..], End(), view, head, x);
    }

    /** Seek to an offset the ring holds. */
    method SeekInRing(x: nat)
      requires Rep() && Shape(view) && view.lRb <= x < view.hRb
      modifies this`view, this`fslots, this`head, slots
      ensures Rep() && view == SeekRing(old(view), x)
      ensures OutUntouched()
    {
      hide Rep, Back, Dist, Next, Shape, Locate, SeekRing;
      Tied();
      HeadTells(x);
      ghost var t := Locate(view.cells, x);
      var slot := slots[head];
      if x < slot.offset {
        SeekBehind(x, t);
      } else if x < slot.offset + slot.size {
        SeekHere(nslots, End(), view, head, x);
        var ok := Rollback(head);
        MoveHead(head, if CaughtUpFull(old(view)) && old(view).cells[0].state == Recycle then 0 else old(view).head);
      } else {
        SeekAhead(x, t);
      }
    }

    /** Forget the ring. */
    method Flush()
      requires Rep() && !migration.Copying?
      modifies this`view, this`head, this`tail, this`fslots, this`needDiscont, slots
      ensures Rep() && view == CacheModel.Flush(old(view))
    {
      hide SlotsRep, Dist, Next;
      BlankSlots();
      head, tail, fslots, needDiscont := 0, 0, 0, true;
      view := CacheModel.Flush(view);
    }

    method BlankSlots()
      requires Rep()
      modifies slots
      ensures SlotsRep(slots[..], 0, [], [], hRb)
    {
      MemorySize(slots[..], End(), view.cells, view.part, hRb);
      hide Rep, SlotsRep;
      assert forall p :: 0 <= p < slots.Length ==> slots[..][p] == slots[p];
      var i := 0;
      while i < slots.Length
        invariant 0 <= i <= slots.Length
        invariant forall p :: 0 <= p < slots.Length ==> |slots[p].data| == SLOT_SIZE
        invariant forall p :: 0 <= p < i ==> Blank(slots[p])
      {
        slots[i] := slots[i].(state := Empty, offset := INVALID_OFFSET, wptr := 0, size := 0);
        i := i + 1;
      }
      AllBlank(slots[..], 0, hRb);
    }

    /** Seek in the file. */
    method SeekInFile(x: nat)
      requires Rep() && !migration.Copying? && lDk <= x
      modifies this, slots
      ensures Rep() && view == SeekDisk(old(view), x) && stream == old(stream)
    {
      hide Rep, CacheModel.Reload;
      Tied();
      Flush();
      GoTo(x);
      Reload(false);
    }

    /** Set the read position and the bounds of the empty ring. */
    method GoTo(x: nat)
      requires Rep() && !view.drained && view.cells == [] && view.part == [] && lDk <= x
      modifies this`view, this`rPos, this`hRb, this`lRb
      ensures Rep() && view == old(view).(rPos := x - old(view).lDk, hRb := x, lRb := x)
    {
      hide SlotsRep, Back, Dist, Next;
      rPos, hRb, lRb := x - lDk, x, x;
      view := view.(rPos := x - lDk, hRb := x, lRb := x);
      NoPartAnyOffset(slots[..], End(), hRb, old(hRb));
    }

    /** Reposition the cache, in the ring if it holds the clamped offset, else in the file if that is usable. */
    method Seek(offset: nat)
      requires Valid()
      modifies this, slots
      ensures Rep() && view == CacheModel.Seek(old(view), offset) && stream == old(stream)
      ensures SeekAllowed(old(view), offset) ==> Valid() && (old(Intact()) ==> Intact())
      ensures !old(view).DiskUsable() || old(view).lRb <= Clamp(old(view), offset) < old(view).hRb ==> OutUntouched()
    {
      hide Rep, Inv, Orderly, Back, Dist, Next, SeekRing, SeekDisk, SeekAllowed;
      Tied();
      SeekReady(view, stream, offset);
      var x := if recording && migrated then Max(Min(offset, hDk), lDk) else Max(Min(offset, hRb), lRb);
      if lRb <= x < hRb {
        SeekInRing(x);
      } else if recording && migrated {
        SeekInFile(x);
      }
    }
  }

  lemma SeekReady(c: Cache, stream: seq<Byte>, offset: nat)
    requires Orderly(c)
    ensures Shape(c) && (c.DiskUsable() ==> !c.migration.Copying?)
    ensures SeekAllowed(c, offset) ==> Orderly(CacheModel.Seek(c, offset))
    ensures SeekAllowed(c, offset) && Inv(c, stream) ==> Inv(CacheModel.Seek(c, offset), stream)
  {
    SlotsFit(c);
    hide CacheModel.Seek, Shape, SeekAllowed, Inv;
    if SeekAllowed(c, offset) {
      SeekOrderly(c, offset);
      if Inv(c, stream) {
        SeekToInv(c, stream, offset);
      }
    }
  }

  lemma CopyKeeps(c: Cache, stream: seq<Byte>)
    requires Orderly(c) && c.migration.Copying?
    ensures c.migration.i <= c.nslots && |c.cells| <= c.nslots && c.part == [] && !c.drained
    ensures Orderly(Migrate(c)) && (Inv(c, stream) ==> Inv(Migrate(c), stream))
  {
    hide *;
    SlotsFit(c);
    MayCopy(c);
    MigrateOrderly(c);
    if Inv(c, stream) {
      CopyInv(c, stream);
    }
  }

  lemma RoundKeeps(c: Cache, stream: seq<Byte>, data: seq<Byte>)
    requires Orderly(c) && !c.recording && !c.drained && data != [] && c.hOffset + |data| < INVALID_OFFSET
    ensures var (r, rest) := PushRound(c, data);
      && Orderly(r) && !r.drained && (Inv(c, stream) ==> Inv(r, stream + data[..|data| - |rest|]))
      && rest == data[|data| - |rest|..] && r.hOffset == c.hOffset + |data| - |rest| && (r.recording ==> rest == [])
  {
    hide Orderly, Inv, PushRound;
    PushRoundOrderly(c, data);
    if Inv(c, stream) {
      PushRoundInv(c, stream, data);
    }
  }

  lemma NotCopyingRing(c: Cache)
    requires Orderly(c) && !c.recording
    ensures c.migration.NotStarted? && CacheModel.RecycleTail(c).migration == c.migration
  {
    hide Contiguous, InOrder;
  }

  lemma MemorySize(slots: seq<Slot>, e: nat, cells: seq<Cell>, part: seq<Byte>, hRb: nat)
    requires SlotsRep(slots, e, cells, part, hRb)
    ensures forall p :: 0 <= p < |slots| ==> |slots[p].data| == SLOT_SIZE
  {
  }

  lemma AllBlank(slots: seq<Slot>, e: nat, hRb: nat)
    requires e < |slots| && forall p :: 0 <= p < |slots| ==> Blank(slots[p]) && |slots[p].data| == SLOT_SIZE
    ensures SlotsRep(slots, e, [], [], hRb)
  {
  }

  lemma NoPartAnyOffset(slots: seq<Slot>, e: nat, a: nat, b: nat)
    requires SlotsRep(slots, e, [], [], b)
    ensures SlotsRep(slots, e, [], [], a)
  {
  }

  /** How the offset of the head slot tells a walk forward from a walk back. */
  lemma HeadOffset(slots: seq<Slot>, e: nat, c: Cache, head: nat, x: nat)
    requires SlotsRep(slots, e, c.cells, c.part, c.hRb) && |slots| == c.nslots && Shape(c)
    requires head < |slots| && head == Back(|slots|, e, |c.cells| - c.head)
    requires c.lRb <= x < c.hRb
    ensures e < |slots|
    ensures var t := Locate(c.cells, x);
      && t < |c.cells|
      && (x < slots[head].offset <==> t < WalkStart(c) && !CaughtUpFull(c))
      && (slots[head].offset <= x < slots[head].offset + slots[head].size <==> t == WalkStart(c))
  {
    LocateContains(c.cells, c.lRb, c.hRb, x);
    SlotCell(slots, e, c, head);
    HeadSlot(slots, e, c, head);
    var t := Locate(c.cells, x);
    if WalkStart(c) < |c.cells| {
      WalkStartsAtHead(|slots|, e, c, head);
      hide SlotsRep, InOrder, Locate, Back, Dist;
      var i := WalkStart(c);
      assert t < i ==> c.cells[t].End() <= c.cells[i].offset;
      assert i < t ==> c.cells[i].End() <= c.cells[t].offset;
    } else {
      SlotAt(slots, e, c.cells, c.part, c.hRb, head);
      hide SlotsRep, InOrder, Locate;
    }
  }

  /** The slot at the head already holds `x`: it is made FULL, and the head stays. */
  lemma SeekHere(n: nat, e: nat, c: Cache, head: nat, x: nat)
    requires Shape(c) && n == c.nslots && e < n && head < n && head == Back(n, e, |c.cells| - c.head)
    requires Locate(c.cells, x) == WalkStart(c) < |c.cells|
    ensures var r := Roll(c, |c.cells| - Dist(n, e, head), Recycle, Full);
      r.(head := if CaughtUpFull(c) && c.cells[0].state == Recycle then 0 else r.head) == SeekRing(c, x)
    ensures CaughtUpFull(c) ==> Back(n, e, n) == head
  {
    WalkStartsAtHead(n, e, c, head);
    hide Locate, Contiguous;
    var t := WalkStart(c);
    assert Flip(c.cells, t, t, Full, Recycle) == c.cells;
    if CaughtUpFull(c) {
      assert c.cells[0].state == Recycle ==>
        Flip(c.cells, 0, 1, Recycle, Full) == c.cells[0 := c.cells[0].(state := Full)];
    }
  }

  lemma LandingHere(cells: seq<Cell>, t: nat, k: nat)
    requires k <= |cells|
    ensures t == k ==> Landing(cells, t, k) == k
  {
  }

  // ---------------------------------------------------------------------------------------------------------------
  // Walks

  function Prev(n: nat, p: nat): int {
    if p == 0 then n - 1 else p - 1
  }

  lemma BackDist(n: nat, e: nat, p: nat)
    requires e < n && p < n
    ensures Back(n, e, Dist(n, e, p)) == p
  {
  }

  lemma BackPrev(n: nat, e: nat, b: nat)
    requires e < n && b < n
    ensures 0 <= Back(n, e, b) < n && 0 <= Back(n, e, b + 1) < n
    ensures Prev(n, Back(n, e, b)) == Back(n, e, b + 1) && Next(n, Back(n, e, b + 1)) == Back(n, e, b)
    ensures Dist(n, e, Back(n, e, b + 1)) == b + 1
  {
  }

  /** Index of the cell the head slot holds when a forward walk starts. */
  function WalkStart(c: Cache): nat {
    if CaughtUpFull(c) then 0 else c.head
  }

  lemma WalkStartsAtHead(n: nat, e: nat, c: Cache, head: nat)
    requires n == c.nslots && e < n && head < n && WalkStart(c) < |c.cells| <= n && c.head <= |c.cells|
    requires head == Back(n, e, |c.cells| - c.head)
    ensures Dist(n, e, head) == |c.cells| - WalkStart(c)
  {
  }

  /** After rolling forward over the cells from the start of the walk to `k`. */
  function Ahead(c: Cache, k: nat): Cache {
    c.(cells := Flip(c.cells, WalkStart(c), k, Full, Recycle),
       fslots := if CaughtUpFull(c) then c.fslots else c.fslots - (k - c.head))
  }

  lemma AheadNone(c: Cache)
    ensures Ahead(c, WalkStart(c)) == c
  {
  }

  lemma AheadFields(c: Cache, k: nat)
    ensures var r := Ahead(c, k);
      && r.drained == c.drained && |r.cells| == |c.cells| && r.head == c.head && r.part == c.part
      && (k < |c.cells| ==> r.cells[k] == c.cells[k])
  {
  }

  lemma AheadStep(c: Cache, k: nat)
    requires Shape(c) && WalkStart(c) <= k < |c.cells|
    ensures Roll(Ahead(c, k), k, Full, Recycle) == Ahead(c, k + 1)
  {
    hide Contiguous;
    assert c.cells[k].state == Full <==> !CaughtUpFull(c);
    assert Roll(Ahead(c, k), k, Full, Recycle).cells == Ahead(c, k + 1).cells;
  }

  lemma AheadEnd(c: Cache, x: nat)
    requires Shape(c) && WalkStart(c) < Locate(c.cells, x) < |c.cells|
    ensures var t := Locate(c.cells, x);
      Roll(Ahead(c, t), t, Recycle, Full).(head := t) == SeekRing(c, x)
  {
    hide Contiguous, Locate;
    var t := Locate(c.cells, x);
    assert c.cells[t].state == Full <==> !CaughtUpFull(c);
    assert Roll(Ahead(c, t), t, Recycle, Full).cells == SeekRing(c, x).cells;
  }

  /** A cell holds `x` exactly when it is the one located. */
  lemma FoundAt(c: Cache, k: nat, x: nat)
    requires Shape(c) && c.lRb <= x < c.hRb && k < |c.cells|
    ensures c.cells[k].offset <= x < c.cells[k].offset + |c.cells[k].bytes| <==> k == Locate(c.cells, x)
  {
    LocateContains(c.cells, c.lRb, c.hRb, x);
    if c.cells[k].Contains(x) {
      ContainsOnce(c.cells, c.lRb, c.hRb, x, k);
    }
  }

  /** After rolling back the cells from `k` to the head. */
  function Behind(c: Cache, k: nat): Cache {
    c.(cells := Flip(c.cells, k, c.head, Recycle, Full), fslots := c.fslots + (c.head - k))
  }

  lemma BehindNone(c: Cache)
    ensures Behind(c, c.head) == c
  {
  }

  lemma BehindFields(c: Cache, k: nat)
    ensures var r := Behind(c, k);
      && r.drained == c.drained && |r.cells| == |c.cells| && r.head == c.head && r.part == c.part
      && (forall i :: 0 <= i < |c.cells| ==>
            r.cells[i].offset == c.cells[i].offset && r.cells[i].bytes == c.cells[i].bytes)
      && (0 < k <= |c.cells| ==> r.cells[k - 1] == c.cells[k - 1])
  {
  }

  /** The head slot is FULL, or holds no cell: rolling it back does nothing. */
  lemma HeadStays(n: nat, e: nat, c: Cache, head: nat)
    requires Shape(c) && !CaughtUpFull(c) && n == c.nslots && e < n && head < n
    requires head == Back(n, e, |c.cells| - c.head)
    ensures Roll(c, |c.cells| - Dist(n, e, head), Recycle, Full) == c
  {
  }

  lemma BehindStep(c: Cache, t: nat, k: nat)
    requires Shape(c) && t < k <= c.head
    ensures var r := Roll(Behind(c, k), k - 1, Recycle, Full);
      if c.cells[k - 1].state == Pop then
        r == Behind(c, k) && r.cells[k - 1].state == Pop && Landing(c.cells, t, k) == k
      else
        r == Behind(c, k - 1) && r.cells[k - 1].state == Full && Landing(c.cells, t, k) == Landing(c.cells, t, k - 1)
  {
    hide Contiguous;
    assert c.cells[k - 1].state == Pop || c.cells[k - 1].state == Recycle;
    if c.cells[k - 1].state == Recycle {
      assert Roll(Behind(c, k), k - 1, Recycle, Full).cells == Behind(c, k - 1).cells;
    }
  }

  lemma BehindEnd(c: Cache, x: nat, k: nat)
    requires c.head <= |c.cells| && Locate(c.cells, x) < c.head && !CaughtUpFull(c)
    requires k == Landing(c.cells, Locate(c.cells, x), c.head)
    ensures Behind(c, k).(head := k) == SeekRing(c, x)
  {
  }

  /** The `i`-th cell, if there is one and it is in state `from`, goes to `to`, and `fslots` follows. */
  function Roll(c: Cache, i: int, from: SlotState, to: SlotState): Cache {
    if 0 <= i < |c.cells| && c.cells[i].state == from then
      c.(cells := c.cells[i := c.cells[i].(state := to)], fslots := c.fslots + (if to == Full then 1 else -1))
    else c
  }

  /** A slot is in state FULL, POP or RECYCLE exactly when it holds a cell in that state. */
  lemma SlotCell(slots: seq<Slot>, e: nat, c: Cache, p: nat)
    requires SlotsRep(slots, e, c.cells, c.part, c.hRb) && p < |slots|
    ensures e < |slots| && |c.cells| <= |slots| && 1 <= Dist(|slots|, e, p) <= |slots|
    ensures var i := |c.cells| - Dist(|slots|, e, p);
      if 0 <= i < |c.cells| then Holds(slots[p], c.cells[i])
      else slots[p].state == Part || slots[p].state == Empty
  {
  }

  /** What the slot at the head holds: the cell at the head if there is one, else the slot at the end. */
  lemma HeadSlot(slots: seq<Slot>, e: nat, c: Cache, head: nat)
    requires SlotsRep(slots, e, c.cells, c.part, c.hRb) && |slots| == c.nslots && c.head <= |c.cells|
    requires |c.cells| == c.nslots || c.drained ==> c.part == []
    requires head < |slots| && head == Back(|slots|, e, |c.cells| - c.head)
    ensures e < |slots| && |c.cells| <= |slots|
    ensures c.head < |c.cells| ==> Dist(|slots|, e, head) == |c.cells| - c.head && Holds(slots[head], c.cells[c.head])
    ensures slots[head].state == Part <==> c.head == |c.cells| && c.part != []
    ensures slots[head].state == Part ==> slots[head].offset == c.hRb && slots[head].size == |c.part| && head == e
    ensures c.head == |c.cells| < c.nslots ==> slots[head].state == Part || slots[head].state == Empty
    ensures c.head == |c.cells| == c.nslots ==> slots[head].state == c.cells[0].state
  {
  }

  /** The PART slot at the end becomes the newest cell without the tail moving. */
  lemma FinishEnd(slots: seq<Slot>, e: nat, c: Cache)
    requires SlotsRep(slots, e, c.cells, c.part, c.hRb) && |c.cells| < |slots|
    requires c.part != [] && slots[e].state == Part
    ensures SlotsRep(slots[e := slots[e].(state := Full)], Next(|slots|, e), c.cells + [Cell(Full, c.hRb, c.part)], [],
                     c.hRb + |c.part|)
  {
  }

  /** What a valid cache tells a pop about its head. */
  lemma PopReady(c: Cache, drain: bool)
    requires Orderly(c)
    ensures c.part != [] ==> !c.drained && |c.cells| < c.nslots
    ensures var d := if drain then CacheModel.FinishPart(c) else c;
      && (d.head < |d.cells| ==> HeadFull(d))
      && (|d.cells| > 0 && d.head == |d.cells| ==> d.cells[0].state != Full)
      && (d.recording && d.migrated ==> !d.drained && d.migration.Finished?)
  {
  }

  lemma PopKeeps(c: Cache, stream: seq<Byte>, drain: bool)
    requires Orderly(c)
    ensures Short(c.hOffset) || PopSafe(c, drain) ==> Orderly(PopCache(c, drain))
    ensures Inv(c, stream) && PopSafe(c, drain) ==> Inv(PopCache(c, drain), stream)
  {
    hide Orderly, Inv, PopCache, PopBuffer, PopSafe;
    if Short(c.hOffset) || PopSafe(c, drain) {
      TakeOutOrderly(c, drain);
    }
    if Inv(c, stream) && PopSafe(c, drain) {
      TakeOutInv(c, stream, drain);
    }
  }

  lemma DiskWriteKeeps(c: Cache, data: seq<Byte>)
    ensures var r := CacheModel.DiskWrite(c, data);
      && r.fslots == c.fslots && r.drained == c.drained && r.migration == c.migration
  {
  }

  lemma RecycleNothing(c: Cache)
    requires !TailFree(CacheModel.RecycleTail(c)) && !c.drained
    ensures CacheModel.RecycleTail(c) == c
  {
  }

  // ---------------------------------------------------------------------------------------------------------------
  // Counting the FULL slots

  function Nearest(n: nat, e: nat, b: nat): set<int> {
    set p | 0 <= p < n && Dist(n, e, p) <= b
  }

  lemma {:induction false} NearestCount(n: nat, e: nat, b: nat)
    requires e < n && b <= n
    ensures |Nearest(n, e, b)| == b
  {
    if b == 0 {
      assert Nearest(n, e, 0) == {};
    } else {
      NearestCount(n, e, b - 1);
      var p := Back(n, e, b);
      forall q
        ensures q in Nearest(n, e, b) <==> q in Nearest(n, e, b - 1) || q == p
      {
        NearestStep(n, e, b, q);
      }
      hide *;
      assert Nearest(n, e, b) == Nearest(n, e, b - 1) + {p};
      assert p !in Nearest(n, e, b - 1);
    }
  }

  /** The one slot at distance `b` is the one `b` places back. */
  lemma NearestStep(n: nat, e: nat, b: nat, q: int)
    requires e < n && 1 <= b <= n
    ensures q in Nearest(n, e, b) <==> q in Nearest(n, e, b - 1) || q == Back(n, e, b)
    ensures Back(n, e, b) !in Nearest(n, e, b - 1)
  {
    hide Nearest;
    NearestHas(n, e, b, q);
    NearestHas(n, e, b - 1, q);
    NearestHas(n, e, b - 1, Back(n, e, b));
  }

  lemma NearestHas(n: nat, e: nat, b: nat, q: int)
    ensures q in Nearest(n, e, b) <==> 0 <= q < n && Dist(n, e, q) <= b
  {
  }

  /** `fslots`, which tells the element whether there is anything to pop, counts exactly the slots in state FULL. */
  lemma FslotsCountsFull(cache: ShifterCache)
    requires cache.Valid()
    ensures cache.fslots == |set p | 0 <= p < cache.nslots && cache.slots[p].state == Full|
    ensures cache.fslots > 0 ==> cache.slots[cache.head].state == Full
  {
    var c, e, n := cache.view, cache.End(), cache.nslots;
    HeadSlot(cache.slots[..], e, c, cache.head);
    forall p | 0 <= p < n
      ensures cache.slots[p].state == Full <==> Dist(n, e, p) <= c.fslots
    {
      SlotCell(cache.slots[..], e, c, p);
      assert cache.slots[..][p] == cache.slots[p];
    }
    assert e < n && c.fslots <= n;
    hide *;
    NearestCount(n, e, c.fslots);
    assert (set p | 0 <= p < n && cache.slots[p].state == Full) == Nearest(n, e, c.fslots) by {
      NearestIs(n, e, c.fslots);
    }
  }

  lemma NearestIs(n: nat, e: nat, b: nat)
    ensures Nearest(n, e, b) == set p | 0 <= p < n && Dist(n, e, p) <= b
  {
  }
}
