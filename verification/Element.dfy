/** The time-shifting element of src/flutsbase.c: upstream pushes into the cache, its loop pops from it and pushes
    downstream, the application seeks. Every place where the flow lock is given up lets others step in. */
module Element {
  import opened Bytes
  import opened CacheModel
  import opened DiskProofs
  import opened Runs
  import opened OrderlyRuns
  import opened RingCache
  import TsIndexer
  import D = Delivery
  import S = Seeker

  /** The answer to a push downstream; `Error` stands for every answer worse than EOS, and for not being linked. */
  datatype Flow = Ok | Flushing | Eos | Error

  /** What is sent downstream; a buffer that is popped and thrown away is noted as `Discarded`. */
  datatype Event =
    | Segment(start: nat) | Data(buffer: Buffer) | Discarded(buffer: Buffer) | EndOfStream | FlushStart | FlushStop

  /** The element. `unexpected` says that downstream has answered EOS; `pushing` that the loop is inside a push
      downstream, without the lock; `seeking` is the offset of a seek that has flushed downstream but not moved the
      cache yet; `ended` says that upstream has sent its EOS. */
  datatype Elem = Elem(
    cache: Cache, stream: seq<Byte>,
    srcresult: Flow, isEos: bool, unexpected: bool, needSegment: bool, running: bool, pushing: bool,
    seeking: Option<nat>, ended: bool, out: seq<Event>)

  function Activated(nslots: nat): Elem {
    Elem(New(nslots), [], Ok, false, false, true, true, false, None, false, [])
  }

  /** What can happen next: data, EOS or SEGMENT from upstream, the loop starting a round or coming back from a push,
      the two halves of a seek, a buffer coming back, a recording being asked for, the migration thread copying. */
  datatype Act =
    | Chain(data: seq<Byte>)
    | SinkEos
    | SinkSegment
    | Loop
    | PushReturned(result: Flow)
    | SeekBegin(flush: bool, seek: S.SeekEvent)
    | SeekEnd
    | Returned(cell: nat)
    | AskRecording
    | MigrationStep

  // ---------------------------------------------------------------------------------------------------------------
  // Throwing away what the cache has

  function FileLeft(c: Cache): nat {
    if c.rPos < |c.file| then |c.file| - c.rPos else 0
  }

  function CellsLeft(c: Cache): nat {
    (if c.head < |c.cells| then |c.cells| - c.head else 0) + if c.part != [] then 1 else 0
  }

  lemma {:induction false} ReloadShrinks(c: Cache, rounds: nat, drain: bool)
    requires 0 < c.head <= |c.cells|
    ensures var r := ReloadRounds(c, rounds, drain);
      FileLeft(r) < FileLeft(c) || (FileLeft(r) == FileLeft(c) && CellsLeft(r) == CellsLeft(c))
    decreases rounds
  {
    hide ReadSize, CanRead;
    if rounds > 0 {
      var c1 := RecycleTail(c);
      if CanRead(c1, drain) {
        CanReadFits(c1, drain);
        ReadShrinks(c1, drain, rounds - 1);
      }
    }
  }

  lemma {:induction false} ReadShrinks(c: Cache, drain: bool, rounds: nat)
    requires CanRead(c, drain) && c.rPos + ReadSize(c) <= |c.file|
    ensures FileLeft(ReloadRounds(DiskRead(c), rounds, drain)) < FileLeft(c)
    decreases rounds, 1
  {
    hide ReloadRounds;
    assert ReadSize(c) > 0;
    ReadsOnly(DiskRead(c), rounds, drain);
  }

  lemma {:induction false} ReadsOnly(c: Cache, rounds: nat, drain: bool)
    ensures FileLeft(ReloadRounds(c, rounds, drain)) <= FileLeft(c)
    decreases rounds
  {
    hide ReadSize, CanRead;
    if rounds > 0 {
      var c1 := RecycleTail(c);
      if CanRead(c1, drain) {
        CanReadFits(c1, drain);
        ReadsOnly(DiskRead(c1), rounds - 1, drain);
      }
    }
  }

  /** A pop takes a slot, or a reload reads on in the file. */
  lemma RoundShrinks(c: Cache, drain: bool)
    requires PopBuffer(c, drain).Some?
    ensures var r := D.AfterRound(c, drain, true);
      FileLeft(r) < FileLeft(c) || (FileLeft(r) == FileLeft(c) && CellsLeft(r) < CellsLeft(c))
  {
    hide ReloadRounds;
    var c1 := if drain then FinishPart(c) else c;
    var c2 := TakeHead(c1);
    ReloadShrinks(c2, ReloadCount(c2, drain), drain);
    D.PoppedBehindHead(c, drain);
  }

  /** Pop and let go, until there is nothing to pop. */
  function DiscardAll(e: Elem): Elem
    decreases FileLeft(e.cache), CellsLeft(e.cache)
  {
    match PopBuffer(e.cache, e.isEos)
    case Some(b) =>
      RoundShrinks(e.cache, e.isEos);
      DiscardAll(e.(cache := D.AfterRound(e.cache, e.isEos, true), out := e.out + [Discarded(b)]))
    case None => e.(cache := PopCache(e.cache, e.isEos))
  }

  /** Each of these pops is safe. */
  predicate DiscardSafe(c: Cache, drain: bool)
    decreases FileLeft(c), CellsLeft(c)
  {
    if PopBuffer(c, drain).None? then PopSafe(c, drain)
    else
      RoundShrinks(c, drain);
      PopSafe(c, drain) && DiscardSafe(D.AfterRound(c, drain, true), drain)
  }

  /** From a linked cache they are. */
  lemma {:induction false} LinkedDiscardSafe(c: Cache, stream: seq<Byte>, drain: bool)
    requires Inv(c, stream) && (c.migration.Finished? ==> Linked(c))
    ensures DiscardSafe(c, drain)
    decreases c.hOffset - c.NextOffset()
  {
    hide Inv, PopSafe, PopBuffer, D.AfterRound;
    LinkedPopSafe(c, stream, drain);
    if PopBuffer(c, drain).Some? {
      D.RoundProgress(c, stream, drain, true);
      LinkedDiscardSafe(D.AfterRound(c, drain, true), stream, drain);
    }
  }

  // ---------------------------------------------------------------------------------------------------------------
  // What each act does

  /** A push that stays below the offset the cache keeps as invalid. */
  predicate PushAllowed(c: Cache, data: seq<Byte>) {
    && !c.drained && c.hOffset + |data| < INVALID_OFFSET
    && (Short(c.hOffset + |data|) || WriteSafe(c, data))
  }

  /** gst_flutsbase_get_bytes_offset, in unsigned 64-bit arithmetic. */
  function SeekTarget(c: Cache, seek: S.SeekEvent): nat {
    if seek.format != TsIndexer.BYTES then INVALID_OFFSET
    else
      match seek.startType
      case SeekSet => Wrap64(seek.start)
      case SeekEnd => Wrap64(c.hOffset + seek.start)
      case NoSeek => INVALID_OFFSET
  }

  predicate SeekAccepted(c: Cache, flush: bool, seek: S.SeekEvent) {
    flush && SeekTarget(c, seek) != INVALID_OFFSET && HasOffset(c, SeekTarget(c, seek))
  }

  predicate Possible(e: Elem, a: Act) {
    && |e.cache.cells| <= e.cache.nslots && e.cache.head <= |e.cache.cells|
    && match a
       case Chain(data) => !e.ended && (!e.isEos && !e.unexpected ==> PushAllowed(e.cache, data))
       case SinkEos => true
       case SinkSegment => true
       case Loop =>
         && e.running && !e.pushing
         && (e.srcresult == Ok ==>
               (e.cache.fslots > 0 || e.isEos) && (Short(e.cache.hOffset) || PopSafe(e.cache, e.isEos)))
       case PushReturned(result) =>
         && e.pushing
         && (e.srcresult == Ok && result == Eos ==>
               Short(e.cache.hOffset) || DiscardSafe(e.cache, e.isEos))
       case SeekBegin(_, _) => e.seeking.None?
       case SeekEnd =>
         && e.seeking.Some? && !e.pushing && NoneOut(e.cache.cells)
         && SeekAllowed(e.cache, e.seeking.value)
       case Returned(i) => i < |e.cache.cells| && e.cache.cells[i].state == Pop
       case AskRecording => Enabled(e.cache, Record)
       case MigrationStep => Enabled(e.cache, Copy)
  }

  /** An act whose reloads are safe. */
  predicate SafeAct(e: Elem, a: Act): (safe: bool)
    ensures safe ==> Possible(e, a)
  {
    && Possible(e, a)
    && match a
       case Chain(data) => !e.isEos && !e.unexpected ==> WriteSafe(e.cache, data)
       case Loop => e.srcresult == Ok ==> PopSafe(e.cache, e.isEos)
       case PushReturned(result) => e.srcresult == Ok && result == Eos ==> DiscardSafe(e.cache, e.isEos)
       case _ => true
  }

  /** The loop pauses itself; after an error downstream still gets its EOS, if upstream has ended. */
  function GiveUp(e: Elem): Elem {
    e.(running := false, out := if e.isEos && e.srcresult == Error then e.out + [EndOfStream] else e.out)
  }

  /** gst_flutsbase_pop from what was popped up to the push downstream, with the lock held and nothing flushing. */
  function Send(e: Elem, popped: Option<Buffer>): Elem {
    match popped
    case Some(b) =>
      e.(needSegment := false, pushing := true,
         out := e.out + (if e.needSegment then [Segment(b.offset)] else []) + [Data(b)])
    case None =>
      if e.isEos then e.(out := e.out + [EndOfStream], running := false) else GiveUp(e.(srcresult := Error))
  }

  function PopAndSend(e: Elem): Elem {
    Send(e.(cache := PopCache(e.cache, e.isEos)), PopBuffer(e.cache, e.isEos))
  }

  /** The rest of gst_flutsbase_pop and of the loop: the push has come back with `result`. */
  function Resume(e: Elem, result: Flow): Elem {
    if e.srcresult != Ok then GiveUp(e.(srcresult := Flushing))
    else
      match result
      case Ok => e
      case Eos => DiscardAll(e).(unexpected := true)
      case _ => GiveUp(e.(srcresult := result))
  }

  function Advance(e: Elem, a: Act): Elem
    requires Possible(e, a)
  {
    match a
    case Chain(data) =>
      if e.isEos || e.unexpected then e else e.(cache := Push(e.cache, data), stream := e.stream + data)
    case SinkEos => e.(isEos := true, ended := true)
    case SinkSegment => e.(unexpected := false)
    case Loop => if e.srcresult != Ok then GiveUp(e) else PopAndSend(e)
    case PushReturned(result) => Resume(e.(pushing := false), result)
    case SeekBegin(flush, seek) =>
      if SeekAccepted(e.cache, flush, seek) then
        e.(srcresult := Flushing, seeking := Some(SeekTarget(e.cache, seek)), out := e.out + [FlushStart])
      else e
    case SeekEnd =>
      e.(cache := Seek(e.cache, e.seeking.value), srcresult := Ok, isEos := false, unexpected := false,
         needSegment := true, running := true, seeking := None, out := e.out + [FlushStop])
    case Returned(i) => e.(cache := Release(e.cache, i))
    case AskRecording => e.(cache := StartRecording(e.cache))
    case MigrationStep => e.(cache := Migrate(e.cache))
  }

  predicate CanGo(e: Elem, acts: seq<Act>)
    decreases |acts|
  {
    acts == [] || (Possible(e, acts[0]) && CanGo(Advance(e, acts[0]), acts[1..]))
  }

  function Go(e: Elem, acts: seq<Act>): Elem
    requires CanGo(e, acts)
    decreases |acts|
  {
    if acts == [] then e else Go(Advance(e, acts[0]), acts[1..])
  }

  /** A run whose reloads are all safe. */
  predicate SafeGo(e: Elem, acts: seq<Act>): (safe: bool)
    ensures safe ==> CanGo(e, acts)
    decreases |acts|
  {
    acts == [] || (SafeAct(e, acts[0]) && SafeGo(Advance(e, acts[0]), acts[1..]))
  }

  // ---------------------------------------------------------------------------------------------------------------
  // What downstream sees

  /** The event accounts for a buffer taken out of the cache. */
  predicate Takes(ev: Event) {
    ev.Data? || ev.Discarded?
  }

  /** Where the next buffer has to start: nowhere before a SEGMENT has said so. */
  function Expected(out: seq<Event>): Option<nat> {
    if out == [] then None
    else
      match out[|out| - 1]
      case Segment(start) => Some(start)
      case Data(b) => Some(b.End())
      case Discarded(b) => Some(b.End())
      case FlushStop => None
      case _ => Expected(out[..|out| - 1])
  }

  /** Every buffer, sent or thrown away, starts where the SEGMENT before it says, or where the one before it ended. */
  predicate WellPlaced(out: seq<Event>) {
    out == [] ||
    (WellPlaced(out[..|out| - 1]) &&
     (Takes(out[|out| - 1]) ==> Expected(out[..|out| - 1]) == Some(out[|out| - 1].buffer.offset)))
  }

  /** Every buffer is the piece of the stream its offset says. */
  predicate TrueData(out: seq<Event>, stream: seq<Byte>) {
    forall i :: 0 <= i < |out| && Takes(out[i]) ==>
      out[i].buffer.End() <= |stream| && out[i].buffer.bytes == stream[out[i].buffer.offset..out[i].buffer.End()]
  }

  /** What every act keeps, whatever reloads have read. */
  ghost predicate ElemOrderly(e: Elem) {
    && Orderly(e.cache) && |e.stream| == e.cache.hOffset
    && (e.cache.drained ==> e.ended)
    && WellPlaced(e.out)
    && Expected(e.out) == (if e.needSegment then None else Some(e.cache.NextOffset()))
    && (e.pushing ==> e.running && !e.needSegment)
    && (e.isEos ==> e.ended)
  }

  /** And what is kept as long as reloads are safe. */
  ghost predicate ElemInv(e: Elem) {
    ElemOrderly(e) && Inv(e.cache, e.stream) && TrueData(e.out, e.stream)
  }

  // ---------------------------------------------------------------------------------------------------------------
  // Every act keeps the order

  lemma PlaceQuiet(out: seq<Event>, ev: Event)
    requires WellPlaced(out) && !Takes(ev)
    ensures WellPlaced(out + [ev])
    ensures Expected(out + [ev]) == match ev
                                    case Segment(start) => Some(start)
                                    case FlushStop => None
                                    case _ => Expected(out)
  {
    assert (out + [ev])[..|out + [ev]| - 1] == out;
  }

  lemma PlaceTaken(out: seq<Event>, ev: Event)
    requires WellPlaced(out) && Takes(ev) && Expected(out) == Some(ev.buffer.offset)
    ensures WellPlaced(out + [ev]) && Expected(out + [ev]) == Some(ev.buffer.End())
  {
    assert (out + [ev])[..|out + [ev]| - 1] == out;
  }

  lemma LoopOrderly(e: Elem)
    requires ElemOrderly(e) && Possible(e, Loop) && e.srcresult == Ok
    ensures ElemOrderly(PopAndSend(e)) && PopAndSend(e).srcresult == Ok
  {
    hide Orderly, PopCache, PopBuffer, PopSafe, WellPlaced, Expected;
    var c := e.cache;
    TakeOutOrderly(c, e.isEos);
    PopDrained(c, e.isEos);
    match PopBuffer(c, e.isEos)
    case Some(b) =>
      var sent := if e.needSegment then e.out + [Segment(b.offset)] else e.out;
      PlaceQuiet(e.out, Segment(b.offset));
      PlaceTaken(sent, Data(b));
      assert PopAndSend(e).out == sent + [Data(b)];
    case None =>
      PlaceQuiet(e.out, EndOfStream);
  }

  lemma GiveUpOrderly(e: Elem)
    requires ElemOrderly(e) && !e.pushing
    ensures ElemOrderly(GiveUp(e))
  {
    hide Orderly, WellPlaced, Expected;
    PlaceQuiet(e.out, EndOfStream);
  }

  /** One buffer is thrown away. */
  function DiscardOne(e: Elem): Elem
    requires PopBuffer(e.cache, e.isEos).Some?
  {
    e.(cache := D.AfterRound(e.cache, e.isEos, true), out := e.out + [Discarded(PopBuffer(e.cache, e.isEos).value)])
  }

  lemma DiscardedOne(e: Elem, r: Elem)
    requires PopBuffer(e.cache, e.isEos).Some?
    requires 0 < PopCache(e.cache, e.isEos).head <= |PopCache(e.cache, e.isEos).cells|
    requires PopCache(e.cache, e.isEos).cells[PopCache(e.cache, e.isEos).head - 1].state == Pop
    requires r.cache == Release(PopCache(e.cache, e.isEos), PopCache(e.cache, e.isEos).head - 1)
    requires r == e.(cache := r.cache, out := e.out + [Discarded(PopBuffer(e.cache, e.isEos).value)])
    ensures r == DiscardOne(e)
  {
    hide PopCache, PopBuffer, Release;
  }

  lemma DiscardOneOrderly(e: Elem)
    requires ElemOrderly(e) && !e.needSegment && PopBuffer(e.cache, e.isEos).Some?
    requires Short(e.cache.hOffset) || PopSafe(e.cache, e.isEos)
    ensures ElemOrderly(DiscardOne(e)) && DiscardOne(e).cache.hOffset == e.cache.hOffset
  {
    hide Orderly, PopCache, PopBuffer, PopSafe, WellPlaced, Expected;
    var c := e.cache;
    TakeOutOrderly(c, e.isEos);
    PopDrained(c, e.isEos);
    D.PoppedBehindHead(c, e.isEos);
    var r := PopCache(c, e.isEos);
    ReleaseOrderly(r, r.head - 1);
    PlaceTaken(e.out, Discarded(PopBuffer(c, e.isEos).value));
  }

  lemma DiscardNoneOrderly(e: Elem)
    requires ElemOrderly(e) && !e.needSegment && PopBuffer(e.cache, e.isEos).None?
    requires Short(e.cache.hOffset) || PopSafe(e.cache, e.isEos)
    ensures ElemOrderly(e.(cache := PopCache(e.cache, e.isEos)))
    ensures PopCache(e.cache, e.isEos).hOffset == e.cache.hOffset
    ensures PopBuffer(PopCache(e.cache, e.isEos), e.isEos).None?
  {
    hide Orderly, PopCache, PopBuffer, PopSafe, WellPlaced, Expected;
    TakeOutOrderly(e.cache, e.isEos);
    PopDrained(e.cache, e.isEos);
    NothingTwice(e.cache, e.isEos);
  }

  lemma DiscardReady(e: Elem)
    requires ElemOrderly(e) && !e.needSegment && (Short(e.cache.hOffset) || PopSafe(e.cache, e.isEos))
    ensures var r := PopCache(e.cache, e.isEos);
      if PopBuffer(e.cache, e.isEos).Some? then
        && ElemOrderly(DiscardOne(e)) && DiscardOne(e).cache.hOffset == e.cache.hOffset
        && 0 < r.head <= |r.cells| && r.cells[r.head - 1].state == Pop
      else ElemOrderly(e.(cache := r)) && r.hOffset == e.cache.hOffset
  {
    hide ElemOrderly, PopCache, PopBuffer, PopSafe, Short;
    if PopBuffer(e.cache, e.isEos).Some? {
      DiscardOneOrderly(e);
      D.PoppedBehindHead(e.cache, e.isEos);
    } else {
      DiscardNoneOrderly(e);
    }
  }

  /** What is possible is what the cache can do. */
  lemma MayPop(e: Elem)
    ensures Possible(e, Loop) && e.srcresult == Ok ==> Short(e.cache.hOffset) || PopSafe(e.cache, e.isEos)
    ensures Possible(e, PushReturned(Eos)) && e.srcresult == Ok ==>
      Short(e.cache.hOffset) || DiscardSafe(e.cache, e.isEos)
    ensures forall result :: Possible(e, PushReturned(result)) ==> e.pushing
  {
    hide PopSafe, DiscardSafe;
  }

  /** Asked again, the cache still has nothing. */
  lemma NothingTwice(c: Cache, drain: bool)
    requires PopBuffer(c, drain).None?
    ensures PopBuffer(PopCache(c, drain), drain).None?
  {
  }

  lemma DiscardStep(e: Elem)
    ensures PopBuffer(e.cache, e.isEos).Some? ==> DiscardAll(e) == DiscardAll(DiscardOne(e))
    ensures PopBuffer(e.cache, e.isEos).None? ==> DiscardAll(e) == e.(cache := PopCache(e.cache, e.isEos))
    ensures DiscardSafe(e.cache, e.isEos) ==> PopSafe(e.cache, e.isEos)
    ensures DiscardSafe(e.cache, e.isEos) && PopBuffer(e.cache, e.isEos).Some? ==>
      DiscardSafe(DiscardOne(e).cache, e.isEos)
  {
    hide PopSafe, PopCache, PopBuffer, D.AfterRound;
    if PopBuffer(e.cache, e.isEos).Some? {
      RoundShrinks(e.cache, e.isEos);
    }
  }

  /** After an EOS from downstream the cache is popped until it has nothing, in order. */
  lemma {:induction false} DiscardOrderly(e: Elem)
    requires ElemOrderly(e) && !e.needSegment && !e.pushing
    requires Short(e.cache.hOffset) || DiscardSafe(e.cache, e.isEos)
    ensures ElemOrderly(DiscardAll(e)) && PopBuffer(DiscardAll(e).cache, e.isEos).None?
    ensures var r := DiscardAll(e); r.srcresult == e.srcresult && !r.needSegment && !r.pushing
    decreases FileLeft(e.cache), CellsLeft(e.cache)
  {
    hide ElemOrderly, Short, PopCache, PopBuffer, PopSafe, D.AfterRound, DiscardAll, DiscardSafe, FileLeft, CellsLeft;
    DiscardStep(e);
    if PopBuffer(e.cache, e.isEos).Some? {
      DiscardOneOrderly(e);
      RoundShrinks(e.cache, e.isEos);
      DiscardOrderly(DiscardOne(e));
    } else {
      DiscardNoneOrderly(e);
    }
  }

  lemma PushBack(e: Elem)
    requires ElemOrderly(e) && e.pushing
    ensures ElemOrderly(e.(pushing := false)) && !e.needSegment
    ensures ElemInv(e) ==> ElemInv(e.(pushing := false))
  {
    hide Orderly, Inv, TrueData, WellPlaced, Expected;
  }

  lemma ResumeOrderly(e: Elem, result: Flow)
    requires ElemOrderly(e) && !e.needSegment && !e.pushing
    requires e.srcresult == Ok && result == Eos ==> Short(e.cache.hOffset) || DiscardSafe(e.cache, e.isEos)
    ensures ElemOrderly(Resume(e, result))
    ensures e.srcresult != Error && result != Error ==> Resume(e, result).srcresult != Error
  {
    hide Orderly, WellPlaced, Expected, DiscardAll, DiscardSafe, PopBuffer;
    if e.srcresult != Ok {
      GiveUpOrderly(e.(srcresult := Flushing));
    } else if result == Eos {
      DiscardOrderly(e);
    } else if result != Ok {
      GiveUpOrderly(e.(srcresult := result));
    }
  }

  lemma PopDrained(c: Cache, drain: bool)
    ensures PopCache(c, drain).drained ==> c.drained || drain
  {
    hide ReloadRounds;
    var c1 := if drain then FinishPart(c) else c;
    if HeadFull(c1) {
      var c2 := TakeHead(c1);
      ReloadNotDrained(c2, ReloadCount(c2, drain), drain);
    }
  }

  lemma SeekDrained(c: Cache, offset: nat)
    requires c.head <= |c.cells|
    ensures Seek(c, offset).drained ==> c.drained
  {
    hide ReloadRounds, Landing, Locate;
    var x := Clamp(c, offset);
    if c.DiskUsable() && !(c.lRb <= x < c.hRb) {
      var f := Flush(c).(rPos := x - c.lDk, hRb := x, lRb := x);
      ReloadNotDrained(f, ReloadCount(f, false), false);
    }
  }

  lemma StepOrder(e: Elem, a: Act)
    requires ElemOrderly(e) && Possible(e, a)
    ensures ElemOrderly(Advance(e, a))
  {
    hide Orderly, PopCache, PopBuffer, Push, Seek, SeekAllowed, Migrate, WellPlaced, Expected, PopAndSend, Resume,
         DiscardSafe, PopSafe, WriteSafe, SeekAccepted, SeekTarget, GiveUp;
    match a
    case Chain(data) =>
      if !e.isEos && !e.unexpected {
        PushOrderly(e.cache, data);
      }
    case Loop =>
      if e.srcresult == Ok {
        LoopOrderly(e);
      } else {
        GiveUpOrderly(e);
      }
    case PushReturned(result) => ResumeOrderly(e.(pushing := false), result);
    case SeekBegin(_, _) => PlaceQuiet(e.out, FlushStart);
    case SeekEnd =>
      SeekOrderly(e.cache, e.seeking.value);
      SeekDrained(e.cache, e.seeking.value);
      PlaceQuiet(e.out, FlushStop);
    case Returned(i) => ReleaseOrderly(e.cache, i);
    case AskRecording => StartRecordingOrderly(e.cache);
    case MigrationStep =>
      MigrateOrderly(e.cache);
      MigrateFields(e.cache);
    case _ =>
  }

  /** The loop never fails by itself: only downstream can make it. */
  lemma StepSound(e: Elem, a: Act)
    requires ElemOrderly(e) && Possible(e, a) && e.srcresult != Error && a != PushReturned(Error)
    ensures Advance(e, a).srcresult != Error
  {
    hide Orderly, PopCache, PopBuffer, Push, Seek, SeekAllowed, Migrate, WellPlaced, Expected, PopAndSend, Resume,
         DiscardSafe, PopSafe, WriteSafe, SeekAccepted, SeekTarget;
    match a
    case Loop =>
      if e.srcresult == Ok {
        LoopOrderly(e);
      }
    case PushReturned(result) =>
      PushBack(e);
      ResumeOrderly(e.(pushing := false), result);
    case _ =>
  }

  lemma MigrateFields(c: Cache)
    requires c.migration.Copying? && |c.cells| <= c.nslots
    ensures Migrate(c).drained == c.drained && Migrate(c).hOffset == c.hOffset
  {
  }

  // ---------------------------------------------------------------------------------------------------------------
  // Every safe act keeps the bytes true

  lemma TrueDataGrows(out: seq<Event>, stream: seq<Byte>, data: seq<Byte>)
    requires TrueData(out, stream)
    ensures TrueData(out, stream + data)
  {
  }

  lemma SendTrue(out: seq<Event>, stream: seq<Byte>, ev: Event)
    requires TrueData(out, stream)
    requires Takes(ev) ==> ev.buffer.End() <= |stream| && ev.buffer.bytes == stream[ev.buffer.offset..ev.buffer.End()]
    ensures TrueData(out + [ev], stream)
  {
  }

  lemma LoopTrue(e: Elem)
    requires Inv(e.cache, e.stream) && TrueData(e.out, e.stream) && PopSafe(e.cache, e.isEos)
    ensures var r := PopAndSend(e); Inv(r.cache, r.stream) && TrueData(r.out, r.stream)
  {
    hide Inv, PopCache, PopBuffer, PopSafe, TrueData;
    var c := e.cache;
    TakeOutInv(c, e.stream, e.isEos);
    SendTrue(e.out, e.stream, EndOfStream);
    match PopBuffer(c, e.isEos)
    case Some(b) =>
      var sent := if e.needSegment then e.out + [Segment(b.offset)] else e.out;
      SendTrue(e.out, e.stream, Segment(b.offset));
      SendTrue(sent, e.stream, Data(b));
      assert PopAndSend(e).out == sent + [Data(b)];
    case None =>
  }

  lemma DiscardOneTrue(e: Elem)
    requires Inv(e.cache, e.stream) && TrueData(e.out, e.stream) && PopSafe(e.cache, e.isEos)
    requires PopBuffer(e.cache, e.isEos).Some?
    ensures Inv(DiscardOne(e).cache, e.stream) && TrueData(DiscardOne(e).out, e.stream)
  {
    hide Inv, PopCache, PopBuffer, PopSafe, TrueData;
    var c := e.cache;
    TakeOutInv(c, e.stream, e.isEos);
    D.PoppedBehindHead(c, e.isEos);
    var r := PopCache(c, e.isEos);
    InBounds(r, e.stream);
    LetGoInv(r, e.stream, r.head - 1);
    SendTrue(e.out, e.stream, Discarded(PopBuffer(c, e.isEos).value));
  }

  lemma {:induction false} DiscardTrue(e: Elem)
    requires Inv(e.cache, e.stream) && TrueData(e.out, e.stream) && DiscardSafe(e.cache, e.isEos)
    ensures var r := DiscardAll(e); r.stream == e.stream && Inv(r.cache, r.stream) && TrueData(r.out, r.stream)
    decreases FileLeft(e.cache), CellsLeft(e.cache)
  {
    hide Inv, PopCache, PopBuffer, PopSafe, D.AfterRound, TrueData, DiscardAll, DiscardSafe, FileLeft, CellsLeft;
    DiscardStep(e);
    if PopBuffer(e.cache, e.isEos).Some? {
      DiscardOneTrue(e);
      RoundShrinks(e.cache, e.isEos);
      DiscardTrue(DiscardOne(e));
    } else {
      TakeOutInv(e.cache, e.stream, e.isEos);
    }
  }

  lemma StepTrue(e: Elem, a: Act)
    requires Inv(e.cache, e.stream) && TrueData(e.out, e.stream) && SafeAct(e, a)
    ensures var r := Advance(e, a); Inv(r.cache, r.stream) && TrueData(r.out, r.stream)
  {
    hide Inv, PopCache, PopBuffer, Push, Seek, SeekAllowed, Migrate, TrueData, PopAndSend, DiscardAll, DiscardSafe,
         PopSafe, WriteSafe, SeekAccepted, SeekTarget;
    SendTrue(e.out, e.stream, EndOfStream);
    match a
    case Chain(data) =>
      if !e.isEos && !e.unexpected {
        PushInv(e.cache, e.stream, data);
        TrueDataGrows(e.out, e.stream, data);
      }
    case Loop =>
      if e.srcresult == Ok {
        LoopTrue(e);
      }
    case PushReturned(result) =>
      if e.srcresult == Ok && result == Eos {
        DiscardTrue(e.(pushing := false));
      }
    case SeekBegin(_, _) => SendTrue(e.out, e.stream, FlushStart);
    case SeekEnd =>
      SeekToInv(e.cache, e.stream, e.seeking.value);
      SendTrue(e.out, e.stream, FlushStop);
    case Returned(i) => LetGoInv(e.cache, e.stream, i);
    case AskRecording => RecordInv(e.cache, e.stream);
    case MigrationStep => CopyInv(e.cache, e.stream);
    case _ =>
  }

  lemma StepKeeps(e: Elem, a: Act)
    requires ElemOrderly(e) && Possible(e, a)
    ensures ElemOrderly(Advance(e, a))
    ensures ElemInv(e) && SafeAct(e, a) ==> ElemInv(Advance(e, a))
  {
    hide ElemOrderly, Inv, TrueData, Advance, Possible, SafeAct;
    StepOrder(e, a);
    if ElemInv(e) && SafeAct(e, a) {
      StepTrue(e, a);
    }
  }

  // ---------------------------------------------------------------------------------------------------------------
  // Whole runs

  predicate Answers(acts: seq<Act>, result: Flow) {
    exists i :: 0 <= i < |acts| && acts[i] == PushReturned(result)
  }

  /** Downstream contiguity: over every interleaving, each SEGMENT starts where the next buffer does, between SEGMENTs
      every buffer starts where the one before it ended, and the loop never fails unless downstream does, whatever
      reloads have read; and as long as reloads are safe every buffer is true. This counts the buffers thrown away after
      downstream has answered EOS. */
  lemma {:induction false} DownstreamContiguous(e: Elem, acts: seq<Act>)
    requires ElemOrderly(e) && CanGo(e, acts)
    ensures var r := Go(e, acts);
      && ElemOrderly(r) && WellPlaced(r.out)
      && (e.srcresult != Error && !Answers(acts, Error) ==> r.srcresult != Error)
      && (ElemInv(e) && SafeGo(e, acts) ==> ElemInv(r) && TrueData(r.out, r.stream))
    decreases |acts|
  {
    if acts != [] {
      hide Inv, Orderly, Advance, Possible, SafeAct, TrueData, WellPlaced, Expected;
      StepKeeps(e, acts[0]);
      var rest := acts[1..];
      if e.srcresult != Error && !Answers(acts, Error) {
        assert acts[0] != PushReturned(Error);
        StepSound(e, acts[0]);
      }
      assert Answers(rest, Error) ==> Answers(acts, Error) by {
        assert forall i :: 0 <= i < |rest| ==> rest[i] == acts[i + 1];
      }
      DownstreamContiguous(Advance(e, acts[0]), rest);
    }
  }

  lemma ActivatedInv(nslots: nat)
    requires 1 <= nslots
    ensures ElemInv(Activated(nslots))
  {
  }

  /** When the loop sends EOS, everything up to the end of the stream was taken out if and only if the ring reaches to
      that end. Without recording it always does; while recording, what is only in the file is given up. */
  lemma EosExact(e: Elem)
    requires ElemOrderly(e) && !e.needSegment && e.isEos && PopBuffer(e.cache, true).None?
    ensures PopAndSend(e).out == e.out + [EndOfStream] && !PopAndSend(e).running
    ensures Expected(e.out) == Some(|e.stream|) <==> e.cache.hRb == e.cache.hOffset
    ensures !e.cache.recording ==> e.cache.hRb == e.cache.hOffset
  {
  }

  predicate NoEos(acts: seq<Act>) {
    forall i :: 0 <= i < |acts| ==> !acts[i].SinkEos?
  }

  predicate HasEos(out: seq<Event>) {
    exists i :: 0 <= i < |out| && out[i].EndOfStream?
  }

  lemma StepForgetsEos(e: Elem, a: Act)
    requires !e.isEos && Possible(e, a) && !a.SinkEos?
    ensures var r := Advance(e, a); !r.isEos && e.out <= r.out && !HasEos(r.out[|e.out|..])
  {
    hide PopBuffer, PopCache, Push, Seek, Migrate, DiscardAll, SeekAccepted, SeekTarget;
    if a.PushReturned? && a.result == Eos {
      DiscardForgetsEos(e.(pushing := false));
    }
  }

  lemma {:induction false} DiscardForgetsEos(e: Elem)
    ensures var r := DiscardAll(e); r.isEos == e.isEos && e.out <= r.out && !HasEos(r.out[|e.out|..])
    decreases FileLeft(e.cache), CellsLeft(e.cache)
  {
    hide PopBuffer, PopCache, D.AfterRound, FileLeft, CellsLeft, DiscardAll;
    DiscardStep(e);
    if PopBuffer(e.cache, e.isEos).Some? {
      RoundShrinks(e.cache, e.isEos);
      var e1, r := DiscardOne(e), DiscardAll(e);
      DiscardForgetsEos(e1);
      assert r.out[|e.out|..] == e1.out[|e.out|..] + r.out[|e1.out|..];
    }
  }

  /** A seek forgets that upstream has ended: unless it ends again, downstream is never told, however much is played. */
  lemma {:induction false} SeekForgetsEos(e: Elem, acts: seq<Act>)
    requires !e.isEos && CanGo(e, acts) && NoEos(acts)
    ensures e.out <= Go(e, acts).out && !HasEos(Go(e, acts).out[|e.out|..])
    decreases |acts|
  {
    hide Advance, Possible;
    if acts != [] {
      var e1 := Advance(e, acts[0]);
      StepForgetsEos(e, acts[0]);
      SeekForgetsEos(e1, acts[1..]);
      var r := Go(e, acts);
      assert r.out[|e.out|..] == e1.out[|e.out|..] + r.out[|e1.out|..];
    }
  }

  // ---------------------------------------------------------------------------------------------------------------
  // After a seek

  /** Nothing that the loop or a seek does. */
  predicate Quiet(acts: seq<Act>) {
    forall i :: 0 <= i < |acts| ==>
      acts[i].Chain? || acts[i].SinkEos? || acts[i].SinkSegment? || acts[i].Returned? || acts[i].AskRecording?
      || acts[i].MigrationStep?
  }

  lemma QuietStep(e: Elem, a: Act)
    requires ElemOrderly(e) && Possible(e, a) && Quiet([a])
    ensures var r := Advance(e, a);
      && ElemOrderly(r) && r.cache.NextOffset() == e.cache.NextOffset()
      && r.out == e.out && r.needSegment == e.needSegment && r.srcresult == e.srcresult
  {
    hide Orderly, Push, Migrate, WellPlaced, Expected, SeekAllowed, WriteSafe;
    StepOrder(e, a);
    assert a == [a][0];
    match a
    case Chain(data) =>
      if !e.isEos && !e.unexpected {
        PushOrderly(e.cache, data);
      }
    case Returned(i) => ReleaseOrderly(e.cache, i);
    case AskRecording => StartRecordingOrderly(e.cache);
    case MigrationStep => MigrateOrderly(e.cache);
    case _ =>
  }

  lemma {:induction false} QuietKeeps(e: Elem, acts: seq<Act>)
    requires ElemOrderly(e) && CanGo(e, acts) && Quiet(acts)
    ensures var r := Go(e, acts);
      && ElemOrderly(r) && r.cache.NextOffset() == e.cache.NextOffset()
      && r.out == e.out && r.needSegment == e.needSegment && r.srcresult == e.srcresult
    decreases |acts|
  {
    hide ElemOrderly, Advance, Possible;
    if acts != [] {
      QuietStep(e, acts[0]);
      QuietKeeps(Advance(e, acts[0]), acts[1..]);
    }
  }

  /** Whatever else goes on meanwhile, the first thing sent after a seek is a SEGMENT that starts where the cache has
      landed, with the buffer that starts there. */
  lemma FirstAfterSeek(e: Elem, acts: seq<Act>)
    requires ElemOrderly(e) && Possible(e, SeekEnd) && CanGo(Advance(e, SeekEnd), acts) && Quiet(acts)
    ensures var landed := Advance(e, SeekEnd).cache.NextOffset();
      var r := Go(Advance(e, SeekEnd), acts);
      && ElemOrderly(r) && r.srcresult == Ok
      && match PopBuffer(r.cache, r.isEos)
         case Some(b) => b.offset == landed && PopAndSend(r).out == e.out + [FlushStop, Segment(landed), Data(b)]
         case None => true
  {
    hide PopBuffer, PopCache, Seek, SeekAllowed, WellPlaced, Expected, Orderly;
    StepOrder(e, SeekEnd);
    var s := Advance(e, SeekEnd);
    QuietKeeps(s, acts);
    var r := Go(s, acts);
    NextOffsetPops(r.cache, r.isEos);
    match PopBuffer(r.cache, r.isEos)
    case Some(b) =>
      assert e.out + [FlushStop] + [Segment(b.offset)] + [Data(b)] == e.out + [FlushStop, Segment(b.offset), Data(b)];
    case None =>
  }

  lemma NextOffsetPops(c: Cache, drain: bool)
    requires Orderly(c)
    ensures match PopBuffer(c, drain)
            case Some(b) => b.offset == c.NextOffset()
            case None => true
  {
    FinishPartOrderly(c);
  }

  // ---------------------------------------------------------------------------------------------------------------
  // Which seeks are accepted

  /** The offset a seek in bytes asks for, before it is made unsigned. */
  function SeekPlace(c: Cache, seek: S.SeekEvent): int {
    if seek.startType == S.SeekEnd then c.hOffset + seek.start else seek.start
  }

  /** A seek is accepted exactly when it flushes, is in bytes, is relative to the start or the end, and asks for a byte
      that is still held and has been received, provided the upper bound of the file is valid. */
  lemma SeekAcceptedReceived(c: Cache, flush: bool, seek: S.SeekEvent)
    requires Orderly(c) && c.hOffset <= 0x8000_0000_0000_0000
    requires -0x8000_0000_0000_0000 <= seek.start < 0x8000_0000_0000_0000
    requires c.DiskUsable() ==> c.hDk != INVALID_OFFSET
    ensures SeekAccepted(c, flush, seek) <==>
      && flush && seek.format == TsIndexer.BYTES && seek.startType != S.NoSeek
      && (if c.DiskUsable() then c.lDk else c.lRb) <= SeekPlace(c, seek) < c.hOffset
    ensures SeekAccepted(c, flush, seek) ==> SeekTarget(c, seek) == SeekPlace(c, seek)
  {
    assert Placed(c) && (c.recording ==> c.hDk == INVALID_OFFSET || c.hDk == c.hOffset) by {
      hide Shape;
    }
    hide Orderly, Wrap64;
    Wrapped(SeekPlace(c, seek));
  }

  lemma Wrapped(x: int)
    requires -0x8000_0000_0000_0000 <= x < 0x1_0000_0000_0000_0000
    ensures Wrap64(x) == if x < 0 then x + 0x1_0000_0000_0000_0000 else x
  {
  }

  /** Without a valid bound, right after an explicit start, even a seek to two bytes before the start is. */
  lemma SeekAcceptedUnbounded(c: Cache, seek: S.SeekEvent)
    requires c.DiskUsable() && c.hDk == INVALID_OFFSET && c.lDk < 0xFFFF_FFFF_FFFF_FFFE
    requires seek.format == TsIndexer.BYTES && seek.startType == S.SeekSet && seek.start == -2
    ensures SeekAccepted(c, true, seek)
  {
  }

  // ---------------------------------------------------------------------------------------------------------------
  // The element over the cache object

  class FluTsBase {
    const cache: ShifterCache
    var srcresult: Flow
    var isEos: bool
    var unexpected: bool
    var needSegment: bool
    var running: bool
    var pushing: bool
    var seeking: Option<nat>
    var sent: seq<Event>
    ghost var ended: bool

    ghost function View(): Elem
      reads this, cache
    {
      Elem(cache.view, cache.stream, srcresult, isEos, unexpected, needSegment, running, pushing, seeking, ended, sent)
    }

    ghost predicate Valid()
      reads this, cache, cache.slots
    {
      cache.Valid() && ElemOrderly(View())
    }

    constructor (size: nat)
      requires size >= SLOT_SIZE
      ensures Valid() && fresh(cache) && fresh(cache.slots) && View() == Activated(size / SLOT_SIZE)
    {
      srcresult, isEos, unexpected, needSegment, running, pushing := Ok, false, false, true, true, false;
      seeking, sent, ended := None, [], false;
      cache := new ShifterCache(size);
      new;
      ActivatedInv(size / SLOT_SIZE);
    }

    /** gst_flutsbase_push. */
    method ChainData(data: seq<Byte>) returns (accepted: bool)
      requires Valid() && Possible(View(), Chain(data))
      modifies cache, cache.slots
      ensures Valid() && View() == Advance(old(View()), Chain(data)) && accepted == (!isEos && !unexpected)
    {
      hide ShifterCache.Rep, Inv, ElemOrderly, CacheModel.Push, WriteSafe;
      StepOrder(View(), Chain(data));
      if isEos || unexpected {
        return false;
      }
      cache.Tied();
      cache.Push(data);
      accepted := true;
    }

    method ReceiveEos()
      requires Valid() && Possible(View(), SinkEos)
      modifies this`isEos, this`ended
      ensures Valid() && View() == Advance(old(View()), SinkEos)
    {
      hide ShifterCache.Valid, ElemOrderly;
      StepOrder(View(), SinkEos);
      isEos, ended := true, true;
    }

    method ReceiveSegment()
      requires Valid() && Possible(View(), SinkSegment)
      modifies this`unexpected
      ensures Valid() && View() == Advance(old(View()), SinkSegment)
    {
      hide ShifterCache.Valid, ElemOrderly;
      StepOrder(View(), SinkSegment);
      unexpected := false;
    }

    /** gst_flutsbase_loop with gst_flutsbase_pop, from taking the lock to giving it up for the push downstream. */
    method LoopOnce()
      requires Valid() && Possible(View(), Loop)
      modifies this`srcresult, this`needSegment, this`running, this`pushing, this`sent, cache, cache.slots
      ensures Valid() && View() == Advance(old(View()), Loop)
    {
      hide ShifterCache.Valid, ShifterCache.Rep, ElemOrderly, Possible, Send, CacheModel.PopCache,
           CacheModel.PopBuffer, PopSafe, Short;
      StepOrder(View(), Loop);
      MayPop(View());
      if srcresult != Ok {
        PauseLoop();
        return;
      }
      var buffer := cache.Pop(isEos);
      SendPopped(buffer);
    }

    /** What the loop sends downstream, or that it ends. */
    method SendPopped(popped: Option<Buffer>)
      modifies this`srcresult, this`needSegment, this`running, this`pushing, this`sent
      ensures View() == Send(old(View()), popped)
    {
      match popped
      case Some(b) =>
        if needSegment {
          sent := sent + [Segment(b.offset)];
          needSegment := false;
        }
        sent := sent + [Data(b)];
        pushing := true;
        assert sent == old(sent) + (if old(needSegment) then [Segment(b.offset)] else []) + [Data(b)];
      case None =>
        if isEos {
          sent := sent + [EndOfStream];
          running := false;
        } else {
          srcresult := Error;
          PauseLoop();
        }
    }

    /** The end of gst_flutsbase_loop. */
    method PauseLoop()
      modifies this`running, this`sent
      ensures View() == GiveUp(old(View()))
    {
      running := false;
      if isEos && srcresult == Error {
        sent := sent + [EndOfStream];
      }
    }

    /** The second half of gst_flutsbase_pop and of the loop: the push has come back with `result`. */
    method PushDone(result: Flow)
      requires Valid() && Possible(View(), PushReturned(result))
      modifies this`srcresult, this`unexpected, this`pushing, this`running, this`sent, cache, cache.slots
      ensures Valid() && View() == Advance(old(View()), PushReturned(result))
    {
      hide ShifterCache.Valid, ShifterCache.Rep, ElemOrderly, DiscardSafe, DiscardAll, GiveUp, Possible, Short;
      StepOrder(View(), PushReturned(result));
      MayPop(View());
      PushBack(View());
      pushing := false;
      if srcresult != Ok {
        srcresult := Flushing;
        PauseLoop();
      } else if result == Eos {
        DiscardRest();
        unexpected := true;
      } else if result != Ok {
        srcresult := result;
        PauseLoop();
      }
    }

    /** Downstream has answered EOS: pop all there is. */
    method DiscardRest()
      requires Valid() && !needSegment && !pushing && (Short(cache.view.hOffset) || DiscardSafe(cache.view, isEos))
      modifies this`sent, cache, cache.slots
      ensures Valid() && View() == DiscardAll(old(View()))
    {
      hide ShifterCache.Valid, ElemOrderly, DiscardSafe, DiscardAll, PopSafe, PopBuffer, Short,
           D.AfterRound, FileLeft, CellsLeft;
      var more := true;
      while more
        invariant Valid() && View().(cache := old(View()).cache, stream := View().stream, out := old(View()).out)
                             == old(View()).(stream := View().stream)
        invariant if more then
                    DiscardAll(View()) == DiscardAll(old(View()))
                    && (Short(cache.view.hOffset) || DiscardSafe(cache.view, isEos))
                  else View() == DiscardAll(old(View()))
        decreases more, FileLeft(cache.view), CellsLeft(cache.view)
      {
        DiscardStep(View());
        if PopBuffer(cache.view, isEos).Some? {
          RoundShrinks(cache.view, isEos);
        }
        more := DiscardNext();
      }
    }

    /** Pop one buffer and let go of it. */
    method DiscardNext() returns (more: bool)
      requires Valid() && !needSegment && !pushing && (Short(cache.view.hOffset) || PopSafe(cache.view, isEos))
      modifies this`sent, cache, cache.slots
      ensures Valid() && more == PopBuffer(old(View()).cache, isEos).Some?
      ensures View() == if more then DiscardOne(old(View()))
                        else old(View()).(cache := PopCache(old(View()).cache, isEos))
      ensures cache.view.hOffset == old(cache.view.hOffset)
    {
      hide ShifterCache.Valid, ElemOrderly, CacheModel.PopCache, CacheModel.PopBuffer,
           CacheModel.Release, PopSafe, Short;
      DiscardReady(View());
      var buffer := cache.Pop(isEos);
      more := buffer.Some?;
      if more {
        cache.ReleaseLast();
        sent := sent + [Discarded(buffer.value)];
        DiscardedOne(old(View()), View());
      }
    }

    /** gst_flutsbase_get_bytes_offset. */
    method SeekOffset(seek: S.SeekEvent) returns (offset: nat)
      requires Valid()
      ensures offset == SeekTarget(cache.view, seek)
    {
      hide ElemOrderly, Inv, Wrap64;
      offset := INVALID_OFFSET;
      if seek.format == TsIndexer.BYTES {
        if seek.startType == S.SeekSet {
          offset := Wrap64(seek.start);
        } else if seek.startType == S.SeekEnd {
          cache.Tied();
          offset := Wrap64(cache.hOffset + seek.start);
        }
      }
    }

    /** gst_flutsbase_handle_seek up to waiting for the loop to be idle. */
    method SeekStart(flush: bool, seek: S.SeekEvent) returns (accepted: bool)
      requires Valid() && Possible(View(), SeekBegin(flush, seek))
      modifies this`srcresult, this`seeking, this`sent
      ensures Valid() && View() == Advance(old(View()), SeekBegin(flush, seek))
      ensures accepted == SeekAccepted(cache.view, flush, seek)
    {
      hide ShifterCache.Rep, ElemOrderly, CacheModel.HasOffset, SeekTarget, Inv, Possible;
      StepOrder(View(), SeekBegin(flush, seek));
      var offset := SeekOffset(seek);
      accepted := false;
      if flush && offset != INVALID_OFFSET {
        accepted := cache.HasOffset(offset);
      }
      if accepted {
        srcresult, seeking, sent := Flushing, Some(offset), sent + [FlushStart];
      }
    }

    /** The rest of gst_flutsbase_handle_seek: the loop is idle and every buffer has come back. */
    method SeekFinish()
      requires Valid() && Possible(View(), SeekEnd)
      modifies this`srcresult, this`isEos, this`unexpected, this`needSegment, this`running, this`seeking, this`sent,
               cache, cache.slots
      ensures Valid() && View() == Advance(old(View()), SeekEnd)
    {
      hide ShifterCache.Valid, ShifterCache.Rep, ElemOrderly, SeekAllowed, CacheModel.Seek;
      StepOrder(View(), SeekEnd);
      cache.Seek(seeking.value);
      srcresult, isEos, unexpected, needSegment, running := Ok, false, false, true, true;
      seeking, sent := None, sent + [FlushStop];
    }
  }
}
