/** The shifter cache as a value: what every operation of src/flucache.c does to the ring and to the disk file.

    The ring is seen in stream order. `cells` are the slots that hold a finished piece of the stream, oldest first;
    `head` is the index of the next one to pop; `part` is the content of the tail slot while it is PART. `drained` says
    that the newest cell still sits in the tail slot, which is where a drain leaves it. `mNext` is the slot the
    migration thread looks at next, counted from the tail: it keeps to its slot of the array when the tail moves. */
module CacheModel {
  import opened Bytes

  const SLOT_SIZE: nat := 32 * 1024
  const INVALID_OFFSET: nat := 0xFFFF_FFFF_FFFF_FFFF

  datatype SlotState = Empty | Part | Full | Pop | Recycle

  datatype Cell = Cell(state: SlotState, offset: nat, bytes: seq<Byte>) {
    function End(): nat { offset + |bytes| }

    predicate Contains(x: nat) { offset <= x < End() }
  }

  /** What a pop hands downstream. */
  datatype Buffer = Buffer(offset: nat, bytes: seq<Byte>, discont: bool) {
    function End(): nat { offset + |bytes| }
  }

  /** Progress of the thread that copies the ring to the file: `Copying(i)` has looked at `i` slots. */
  datatype Migration = NotStarted | Copying(i: nat) | Finished

  /** Content of a slot that is not full yet. */
  type Piece = s: seq<Byte> | |s| < SLOT_SIZE witness []

  datatype Cache = Cache(
    nslots: nat, cells: seq<Cell>, head: nat, fslots: int, part: Piece, drained: bool,
    hOffset: nat, lRb: nat, hRb: nat, lDk: nat, hDk: nat, mDk: nat, needDiscont: bool,
    file: seq<Byte>, wPos: nat, rPos: nat, mPos: nat, mNext: nat,
    recording: bool, migrated: bool, migration: Migration, refs: int)
  {
    /** Offset of the byte the next pop starts with. */
    function NextOffset(): nat {
      if head < |cells| then cells[head].offset else hRb
    }

    predicate DiskUsable() { recording && migrated }

    /** Stream offset of the first byte of the file. */
    function FileStart(): nat {
      if migration.Finished? then lDk else mDk
    }
  }

  // ---------------------------------------------------------------------------------------------------------------
  // Invariants

  /** The cells cover [lRb, hRb) without gap or overlap, in order. */
  ghost predicate Contiguous(cells: seq<Cell>, lRb: nat, hRb: nat) {
    && (|cells| == 0 ==> lRb == hRb)
    && (|cells| > 0 ==> lRb == cells[0].offset && cells[|cells| - 1].End() == hRb)
    && (forall i :: 0 <= i < |cells| ==>
          lRb <= cells[i].offset && 0 < |cells[i].bytes| <= SLOT_SIZE && cells[i].End() <= hRb)
    && (forall i, j :: 0 <= i < j < |cells| ==>
          cells[i].End() <= cells[j].offset && (j == i + 1 ==> cells[i].End() == cells[j].offset))
  }

  /** Exactly the cells from `head` on are FULL; the ones before it were handed out. */
  ghost predicate InOrder(cells: seq<Cell>, head: nat) {
    forall i :: 0 <= i < |cells| ==>
      if i < head then cells[i].state == Pop || cells[i].state == Recycle else cells[i].state == Full
  }

  /** No buffer is out: every cell behind the head was let go. */
  predicate NoneOut(cells: seq<Cell>) {
    forall i :: 0 <= i < |cells| ==> cells[i].state != Pop
  }

  /** What every operation keeps, whatever the bytes are, and whatever a reload has read. */
  ghost predicate Shape(c: Cache) {
    && 1 <= c.nslots && |c.cells| <= c.nslots
    && 0 <= c.fslots && c.head + c.fslots == |c.cells|
    && (|c.cells| == c.nslots || c.drained ==> c.part == [])
    && (c.drained ==> |c.cells| > 0)
    && Contiguous(c.cells, c.lRb, c.hRb)
    && InOrder(c.cells, c.head)
    && c.hRb + |c.part| < INVALID_OFFSET && c.hOffset < INVALID_OFFSET
    && (!c.recording ==> c.hOffset == c.hRb + |c.part|)
    && (c.recording <==> !c.migration.NotStarted?)
    && (c.migrated <==> c.migration.Finished?)
    && (c.recording ==> c.part == [] && !c.drained)
  }

  /** Where the file is read and written; a reload that reads bytes once more labels them as new ones, so labels run
      ahead of what was received by no more than was read. */
  ghost predicate Placed(c: Cache) {
    && c.hRb + |c.part| <= c.hOffset + c.rPos
    && if c.recording then
         && c.mDk <= c.hOffset && c.wPos == c.hOffset - c.mDk && c.rPos <= c.wPos
         && (c.hDk == INVALID_OFFSET || c.hDk == c.hOffset)
         && (c.migration.Copying? ==> c.migration.i <= c.nslots) && (c.migration.Finished? ==> c.lDk == c.mDk)
       else c.rPos == 0 && c.hDk == INVALID_OFFSET
  }

  /** What holds of every cache, even after a reload that put wrong bytes into it. */
  ghost predicate Orderly(c: Cache) {
    Shape(c) && Placed(c)
  }

  /** The cell is the piece of the stream its offset says it is. */
  ghost predicate IsSlice(cell: Cell, stream: seq<Byte>) {
    cell.End() <= |stream| && cell.bytes == stream[cell.offset..cell.End()]
  }

  ghost predicate Slices(cells: seq<Cell>, stream: seq<Byte>) {
    forall i :: 0 <= i < |cells| ==> IsSlice(cells[i], stream)
  }

  /** Everything the ring holds is what was pushed at that offset. */
  ghost predicate Faithful(c: Cache, stream: seq<Byte>) {
    && |stream| == c.hOffset
    && Slices(c.cells, stream)
    && c.hRb + |c.part| <= |stream|
    && c.part == stream[c.hRb..c.hRb + |c.part|]
  }

  // ---------------------------------------------------------------------------------------------------------------
  // Ring operations

  function New(nslots: nat): Cache {
    Cache(nslots, [], 0, 0, [], false, 0, 0, 0, INVALID_OFFSET, INVALID_OFFSET, INVALID_OFFSET, true,
          [], 0, 0, 0, 0, false, false, NotStarted, 1)
  }

  /** The tail slot, if it is in RECYCLE, becomes EMPTY: the ring was full and its oldest cell goes. */
  function RecycleTail(c: Cache): Cache {
    if !c.drained && 0 < |c.cells| == c.nslots && c.cells[0].state == Recycle then
      c.(cells := c.cells[1..], lRb := if c.cells[0].offset != INVALID_OFFSET then c.cells[0].End() else c.lRb,
         head := if c.head > 0 then c.head - 1 else |c.cells| - 1)
    else c
  }

  /** The tail slot is EMPTY or PART. */
  predicate TailFree(c: Cache) {
    !c.drained && |c.cells| < c.nslots
  }

  /** Append `data`, which fits, to the tail slot; the slot that becomes full joins the cells. */
  function WriteSlot(c: Cache, data: seq<Byte>): Cache
    requires |c.part| + |data| <= SLOT_SIZE
  {
    var part := c.part + data;
    if |part| == SLOT_SIZE then
      c.(cells := c.cells + [Cell(Full, c.hRb, part)], part := [], fslots := c.fslots + 1,
         hRb := c.hRb + SLOT_SIZE, hOffset := c.hOffset + |data|)
    else c.(part := part, hOffset := c.hOffset + |data|)
  }

  /** One round of the ring branch of a push: the cache after it, and the data it did not take. */
  function PushRound(c: Cache, data: seq<Byte>): (r: (Cache, seq<Byte>))
    requires data != []
    ensures |r.1| < |data|
  {
    var c1 := RecycleTail(c);
    if TailFree(c1) then
      var k := Min(SLOT_SIZE - |c1.part|, |data|);
      (WriteSlot(c1, data[..k]), data[k..])
    else
      (DiskWrite(StartRecording(c), data), [])
  }

  // ---------------------------------------------------------------------------------------------------------------
  // Disk operations

  function DiskWrite(c: Cache, data: seq<Byte>): Cache {
    c.(file := WriteAt(c.file, c.wPos, data), wPos := c.wPos + |data|,
       hOffset := c.hOffset + |data|, hDk := c.hOffset + |data|)
  }

  /** How much a read takes; the difference is an unsigned 64-bit one. */
  function ReadSize(c: Cache): nat {
    Min(Wrap64(c.wPos - c.rPos), SLOT_SIZE)
  }

  predicate CanRead(c: Cache, drain: bool) {
    var size := ReadSize(c);
    size > 0 && (drain || size == SLOT_SIZE) && TailFree(c) && c.rPos + size <= |c.file|
  }

  /** The slot after and the slot before one on a ring of `n`. */
  function After(n: nat, p: nat): nat {
    if p + 1 >= n then 0 else p + 1
  }

  function Before(n: nat, p: nat): nat {
    if p > 0 then p - 1 else if n > 0 then n - 1 else 0
  }

  /** The tail slot is filled from the file, labelled with the highest ring offset, and the tail moves. */
  function DiskRead(c: Cache): Cache
    requires c.rPos + ReadSize(c) <= |c.file|
  {
    var size := ReadSize(c);
    c.(cells := c.cells + [Cell(Full, c.hRb, c.file[c.rPos..c.rPos + size])], part := [],
       fslots := c.fslots + 1, rPos := c.rPos + size, hRb := c.hRb + size, mNext := Before(c.nslots, c.mNext))
  }

  /** Number of bits of `k`, at least one. */
  function BitStorage(k: nat): (r: nat)
    ensures 1 <= r
  {
    if k <= 1 then 1 else 1 + BitStorage(k / 2)
  }

  function ReloadRounds(c: Cache, rounds: nat, drain: bool): Cache
    decreases rounds
  {
    if rounds == 0 then c
    else
      var c1 := RecycleTail(c);
      if CanRead(c1, drain) then ReloadRounds(DiskRead(c1), rounds - 1, drain) else c1
  }

  /** How many rounds a reload has at most. */
  function ReloadCount(c: Cache, drain: bool): nat {
    if drain then 1 else BitStorage(Wrap64(c.nslots - c.fslots))
  }

  function Reload(c: Cache, drain: bool): Cache {
    ReloadRounds(c, ReloadCount(c, drain), drain)
  }

  /** How many slots a reload reads into. */
  function Reads(c: Cache, rounds: nat, drain: bool): (r: nat)
    ensures r <= rounds
    decreases rounds
  {
    if rounds == 0 then 0
    else
      var c1 := RecycleTail(c);
      if CanRead(c1, drain) then 1 + Reads(DiskRead(c1), rounds - 1, drain) else 0
  }

  /** How many slots a reload changes: it may empty one more than it reads into. */
  function Touched(c: Cache, rounds: nat, drain: bool): (r: nat)
    ensures Reads(c, rounds, drain) <= r <= Reads(c, rounds, drain) + 1 && r <= rounds
    decreases rounds
  {
    if rounds == 0 then 0
    else
      var c1 := RecycleTail(c);
      if CanRead(c1, drain) then 1 + Touched(DiskRead(c1), rounds - 1, drain)
      else if c1 != c then 1 else 0
  }

  function StartRecording(c: Cache): Cache {
    if !c.migration.NotStarted? then c
    else c.(mDk := c.lRb, lDk := c.hOffset, wPos := Wrap64(c.hOffset - c.lRb), recording := true,
            migration := Copying(0), mNext := 0, refs := c.refs + 1)
  }

  /** Content of the slot `p` places after the tail; [] for an EMPTY one. */
  function SlotBytes(c: Cache, p: nat): seq<Byte>
    requires |c.cells| <= c.nslots
  {
    var first := c.nslots - |c.cells| + if c.drained then 1 else 0;
    if c.drained && p == 0 && c.cells != [] then c.cells[|c.cells| - 1].bytes
    else if first <= p < c.nslots && p - first < |c.cells| then c.cells[p - first].bytes
    else if p == 0 then c.part
    else []
  }

  /** One step of the migration thread: copy a slot, or finish. */
  function Migrate(c: Cache): Cache
    requires c.migration.Copying? && |c.cells| <= c.nslots
  {
    var i := c.migration.i;
    if i < c.nslots then
      var bytes := SlotBytes(c, c.mNext);
      c.(file := WriteAt(c.file, c.mPos, bytes), mPos := c.mPos + |bytes|, mNext := After(c.nslots, c.mNext),
         migration := Copying(i + 1))
    else
      c.(lDk := c.mDk, migrated := true, migration := Finished, refs := c.refs - 1)
  }

  // ---------------------------------------------------------------------------------------------------------------
  // The interface of the cache

  /** A push of a whole buffer. */
  function Push(c: Cache, data: seq<Byte>): Cache {
    if c.recording then
      var c1 := DiskWrite(c, data);
      if c1.fslots == 0 then Reload(c1, false) else c1
    else PushRing(c, data)
  }

  function PushRing(c: Cache, data: seq<Byte>): Cache
    decreases |data|
  {
    if data == [] then c
    else
      var (c1, rest) := PushRound(c, data);
      PushRing(c1, rest)
  }

  /** A drain turns the PART slot at the head into a FULL one, without moving the tail. */
  function FinishPart(c: Cache): Cache {
    if c.head == |c.cells| && c.part != [] then
      c.(cells := c.cells + [Cell(Full, c.hRb, c.part)], part := [], drained := true,
         hRb := c.hRb + |c.part|, fslots := c.fslots + 1)
    else c
  }

  /** The head slot is handed out. */
  function TakeHead(c: Cache): Cache
    requires c.head < |c.cells| && c.fslots > 0
  {
    c.(cells := c.cells[c.head := c.cells[c.head].(state := Pop)], head := c.head + 1, fslots := c.fslots - 1,
       needDiscont := false, refs := c.refs + 1)
  }

  predicate HeadFull(c: Cache) {
    c.head < |c.cells| && c.cells[c.head].state == Full && c.fslots > 0
  }

  /** After handing out the head slot the ring is refilled from the file, once the file is complete. */
  function TakeAndReload(c: Cache, drain: bool): Cache
    requires HeadFull(c)
  {
    var c1 := TakeHead(c);
    if c1.DiskUsable() then Reload(c1, drain) else c1
  }

  function PopBuffer(c: Cache, drain: bool): Option<Buffer> {
    var c1 := if drain then FinishPart(c) else c;
    if HeadFull(c1) then
      Some(Buffer(c1.cells[c1.head].offset, c1.cells[c1.head].bytes, c1.needDiscont))
    else None
  }

  function PopCache(c: Cache, drain: bool): Cache {
    var c1 := if drain then FinishPart(c) else c;
    if HeadFull(c1) then TakeAndReload(c1, drain) else c1
  }

  /** Downstream lets go of the buffer of cell `i`. */
  function Release(c: Cache, i: nat): Cache
    requires i < |c.cells| && c.cells[i].state == Pop
  {
    c.(cells := c.cells[i := c.cells[i].(state := Recycle)], refs := c.refs - 1)
  }

  predicate HasOffset(c: Cache, x: nat) {
    if c.DiskUsable() then c.lDk <= x < c.hDk else c.lRb <= x < c.hOffset
  }

  function Clamp(c: Cache, x: nat): nat {
    if c.DiskUsable() then Max(Min(x, c.hDk), c.lDk) else Max(Min(x, c.hRb), c.lRb)
  }

  /** Index of the first cell that ends after `x`. */
  function Locate(cells: seq<Cell>, x: nat): (i: nat)
    ensures i <= |cells|
  {
    if cells == [] || x < cells[0].End() then 0 else 1 + Locate(cells[1..], x)
  }

  /** Where a walk back from `from` towards `target` ends: at the target, or behind the first slot still handed out. */
  function Landing(cells: seq<Cell>, target: nat, from: nat): (k: nat)
    requires from <= |cells|
    ensures k <= from && (target <= from ==> target <= k)
  {
    if from > target && cells[from - 1].state != Pop then Landing(cells, target, from - 1) else from
  }

  /** The cells of [a, b) put in state `to` if they are in state `from`. */
  function Flip(cells: seq<Cell>, a: nat, b: nat, from: SlotState, to: SlotState): (r: seq<Cell>)
    ensures |r| == |cells|
    ensures forall i :: 0 <= i < |cells| ==>
      r[i] == if a <= i < b && cells[i].state == from then cells[i].(state := to) else cells[i]
  {
    seq(|cells|, i requires 0 <= i < |cells| =>
          if a <= i < b && cells[i].state == from then cells[i].(state := to) else cells[i])
  }

  /** The consumer has caught up with a ring without a free slot: the head slot is then the oldest one. */
  predicate CaughtUpFull(c: Cache) {
    c.head == |c.cells| == c.nslots
  }

  /** Walk from the head, which is then slot 0, to slot `t`: there is nothing to roll forward over, and only the
      slot found is rolled back. */
  function SeekWrapped(c: Cache, t: nat): Cache
    requires t < |c.cells|
  {
    if c.cells[t].state == Recycle then
      c.(cells := Flip(c.cells, t, t + 1, Recycle, Full), head := t, fslots := c.fslots + 1)
    else if t == 0 then c
    else c.(head := t)
  }

  function SeekForward(c: Cache, t: nat): Cache
    requires c.head <= t
  {
    c.(cells := Flip(c.cells, c.head, t, Full, Recycle), head := t, fslots := c.fslots - (t - c.head))
  }

  function SeekBack(c: Cache, t: nat): Cache
    requires t <= c.head <= |c.cells|
  {
    var k := Landing(c.cells, t, c.head);
    c.(cells := Flip(c.cells, k, c.head, Recycle, Full), head := k, fslots := c.fslots + (c.head - k))
  }

  /** A seek to an offset the ring holds. */
  function SeekRing(c: Cache, x: nat): Cache
    requires c.head <= |c.cells|
  {
    var t := Locate(c.cells, x);
    if t >= |c.cells| then c
    else if CaughtUpFull(c) then SeekWrapped(c, t)
    else if t >= c.head then SeekForward(c, t)
    else SeekBack(c, t)
  }

  function Flush(c: Cache): Cache {
    c.(cells := [], head := 0, fslots := 0, part := [], drained := false, needDiscont := true)
  }

  /** A seek in the file: forget the ring, set the read position, refill. */
  function SeekDisk(c: Cache, x: nat): Cache
    requires c.lDk <= x
  {
    Reload(Flush(c).(rPos := x - c.lDk, hRb := x, lRb := x), false)
  }

  function Seek(c: Cache, offset: nat): Cache
    requires c.head <= |c.cells|
  {
    var x := Clamp(c, offset);
    if c.lRb <= x < c.hRb then SeekRing(c, x)
    else if c.DiskUsable() then SeekDisk(c, x)
    else c
  }
}
