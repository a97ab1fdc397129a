/** What runs of the element guarantee beyond the order of its buffers: which seeks it takes, that a seek sets it going
    again, and when downstream is told of the end. */
module ElementRuns {
  import opened Bytes
  import opened CacheModel
  import opened Runs
  import opened OrderlyRuns
  import opened Playback
  import opened Bounds
  import opened Element

  // ---------------------------------------------------------------------------------------------------------------
  // Which seeks are accepted, over whole runs

  /** The act writes to the file. */
  predicate ChainToFile(e: Elem, a: Act)
    requires Possible(e, a)
  {
    a.Chain? && !e.isEos && !e.unexpected && Advance(e, a).cache.recording
  }

  /** Something is written to the file. */
  predicate ChainedToFile(e: Elem, acts: seq<Act>)
    requires CanGo(e, acts)
    decreases |acts|
  {
    acts != [] && (ChainToFile(e, acts[0]) || ChainedToFile(Advance(e, acts[0]), acts[1..]))
  }

  /** What the upper bound of the file says. */
  predicate FileBound(e: Elem, filed: bool) {
    e.cache.hDk == if filed then |e.stream| else INVALID_OFFSET
  }

  lemma {:induction false} DiscardKeepsBound(e: Elem)
    ensures DiscardAll(e).cache.hDk == e.cache.hDk && DiscardAll(e).stream == e.stream
    decreases FileLeft(e.cache), CellsLeft(e.cache)
  {
    hide PopBuffer, PopCache, FileLeft, CellsLeft, DiscardAll;
    DiscardStep(e);
    PopKeepsBound(e.cache, e.isEos);
    if PopBuffer(e.cache, e.isEos).Some? {
      RoundShrinks(e.cache, e.isEos);
      DiscardKeepsBound(DiscardOne(e));
    }
  }

  lemma ChainBound(c: Cache, data: seq<Byte>)
    requires Orderly(c) && PushAllowed(c, data)
    ensures var r := Push(c, data);
      && r.hDk == (if r.recording then c.hOffset + |data| else c.hDk) && (c.recording ==> r.recording)
    ensures c.hDk != INVALID_OFFSET ==> c.recording
  {
    SlotsFit(c);
    assert c.hDk != INVALID_OFFSET ==> c.recording by {
      hide Shape;
    }
    hide Orderly, Push, WriteSafe;
    PushBound(c, data);
    PushOrderly(c, data);
  }

  lemma ActBound(e: Elem, a: Act, filed: bool)
    requires ElemOrderly(e) && Possible(e, a) && FileBound(e, filed)
    ensures FileBound(Advance(e, a), filed || ChainToFile(e, a))
  {
    hide Orderly, PopCache, PopBuffer, Push, Seek, Migrate, DiscardAll, DiscardSafe, PopSafe, WellPlaced, Expected,
         SeekAccepted, SeekTarget, SeekAllowed;
    match a
    case Chain(data) =>
      if !e.isEos && !e.unexpected {
        assert PushAllowed(e.cache, data);
        hide PushAllowed;
        ChainBound(e.cache, data);
        StreamFits(e);
      }
    case Loop => PopKeepsBound(e.cache, e.isEos);
    case PushReturned(result) => DiscardKeepsBound(e.(pushing := false));
    case SeekEnd => SeekKeepsBound(e.cache, e.seeking.value);
    case MigrationStep => MigrateKeepsBound(e.cache);
    case _ =>
  }

  lemma StreamFits(e: Elem)
    requires ElemOrderly(e)
    ensures |e.stream| == e.cache.hOffset < INVALID_OFFSET
  {
    hide Contiguous, InOrder, WellPlaced, Expected;
  }

  lemma {:induction false} GoBound(e: Elem, acts: seq<Act>, filed: bool)
    requires ElemOrderly(e) && CanGo(e, acts) && FileBound(e, filed)
    ensures ElemOrderly(Go(e, acts)) && FileBound(Go(e, acts), filed || ChainedToFile(e, acts))
    decreases |acts|
  {
    hide ElemOrderly, Advance, Possible, FileBound, ChainToFile;
    if acts != [] {
      StepOrder(e, acts[0]);
      ActBound(e, acts[0], filed);
      GoBound(Advance(e, acts[0]), acts[1..], filed || ChainToFile(e, acts[0]));
    }
  }

  /** The offset a seek asks for is at least `low` and below `high`. */
  predicate AsksWithin(c: Cache, seek: S.SeekEvent, low: nat, high: nat) {
    seek.format == TsIndexer.BYTES && seek.startType != S.NoSeek && low <= Wrap64(SeekPlace(c, seek)) < high
  }

  /** Over every run a seek is accepted exactly when it flushes, is in bytes, is relative to the start or the end, and
      asks for a byte that is still held and has been received; but if the file is played of which nothing was written
      since recording was asked for, nothing counts as not received. */
  lemma SeekAcceptedRun(nslots: nat, acts: seq<Act>, flush: bool, seek: S.SeekEvent)
    requires 1 <= nslots && CanGo(Activated(nslots), acts)
    ensures var e := Activated(nslots);
      var r := Go(e, acts);
      var c := r.cache;
      SeekAccepted(c, flush, seek) <==>
        flush && AsksWithin(c, seek, if c.DiskUsable() then c.lDk else c.lRb,
                            if c.DiskUsable() && !ChainedToFile(e, acts) then INVALID_OFFSET else |r.stream|)
  {
    var e := Activated(nslots);
    ActivatedInv(nslots);
    var r := Go(e, acts);
    hide ElemOrderly, Go, ChainedToFile;
    GoBound(e, acts, false);
    StreamFits(r);
  }

  predicate Asked(acts: seq<Act>) {
    exists i :: 0 <= i < |acts| && acts[i].AskRecording?
  }

  lemma AskedRest(acts: seq<Act>)
    requires acts != []
    ensures Asked(acts) <==> acts[0].AskRecording? || Asked(acts[1..])
  {
    assert forall i :: 0 < i < |acts| ==> acts[i] == acts[1..][i - 1];
  }

  lemma {:induction false} DiscardKeepsRecording(e: Elem)
    ensures SameRecording(e.cache, DiscardAll(e).cache)
    decreases FileLeft(e.cache), CellsLeft(e.cache)
  {
    hide PopBuffer, PopCache, FileLeft, CellsLeft, DiscardAll;
    DiscardStep(e);
    PopSameRecording(e.cache, e.isEos);
    if PopBuffer(e.cache, e.isEos).Some? {
      RoundShrinks(e.cache, e.isEos);
      DiscardKeepsRecording(DiscardOne(e));
    }
  }

  /** What turns recording on is that somebody asks for it, or else writes to the file; and it stays on. */
  lemma ActStarts(e: Elem, a: Act)
    requires Possible(e, a) && (!e.cache.recording ==> e.cache.migration.NotStarted?)
    ensures var r := Advance(e, a).cache;
      && (e.cache.recording ==> r.recording)
      && (!e.cache.recording ==> (r.recording <==> ChainToFile(e, a) || a.AskRecording?))
      && (!r.recording ==> r.migration.NotStarted?)
  {
    hide PopCache, PopBuffer, Push, Seek, DiscardAll, DiscardSafe, PopSafe, PushAllowed, SeekAccepted, SeekTarget,
         SeekAllowed, WriteAt, SlotBytes;
    match a
    case Chain(data) => PushBound(e.cache, data);
    case Loop => PopSameRecording(e.cache, e.isEos);
    case PushReturned(result) => DiscardKeepsRecording(e.(pushing := false));
    case SeekEnd => SeekSameRecording(e.cache, e.seeking.value);
    case _ =>
  }

  lemma {:induction false} GoRecording(e: Elem, acts: seq<Act>)
    requires CanGo(e, acts) && e.cache.recording
    ensures Go(e, acts).cache.recording
    decreases |acts|
  {
    hide Advance, Possible;
    if acts != [] {
      ActStarts(e, acts[0]);
      GoRecording(Advance(e, acts[0]), acts[1..]);
    }
  }

  lemma NobodyAsked()
    ensures !Asked([])
  {
  }

  /** Recording is on exactly if somebody has asked for it or something was written to the file: if nobody has, it has
      started by an overflow, and so with something written to the file. */
  lemma {:induction false} OverflowFiled(e: Elem, acts: seq<Act>)
    requires CanGo(e, acts) && !e.cache.recording && e.cache.migration.NotStarted?
    ensures Go(e, acts).cache.recording <==> ChainedToFile(e, acts) || Asked(acts)
    decreases |acts|
  {
    hide Advance, Possible, ChainToFile, Asked;
    if acts == [] {
      NobodyAsked();
    } else {
      ActStarts(e, acts[0]);
      AskedRest(acts);
      var e1 := Advance(e, acts[0]);
      if e1.cache.recording {
        GoRecording(e1, acts[1..]);
      } else {
        OverflowFiled(e1, acts[1..]);
      }
    }
  }

  // ---------------------------------------------------------------------------------------------------------------
  // A seek sets the element going again

  lemma {:induction false} GoLast(e: Elem, acts: seq<Act>, a: Act)
    requires CanGo(e, acts) && Possible(Go(e, acts), a)
    ensures CanGo(e, acts + [a]) && Go(e, acts + [a]) == Advance(Go(e, acts), a)
    decreases |acts|
  {
    hide Advance, Possible;
    if acts == [] {
      assert [a][1..] == [];
    } else {
      assert (acts + [a])[1..] == acts[1..] + [a];
      GoLast(Advance(e, acts[0]), acts[1..], a);
    }
  }

  /** Upstream ends. */
  predicate Ends(acts: seq<Act>) {
    exists i :: 0 <= i < |acts| && acts[i].SinkEos?
  }

  /** What the loop goes by is not touched by what upstream, downstream, the application and the migrator do. */
  lemma {:induction false} QuietRunning(e: Elem, acts: seq<Act>)
    requires CanGo(e, acts) && Quiet(acts)
    ensures var r := Go(e, acts);
      && r.running == e.running && r.pushing == e.pushing && r.seeking == e.seeking && r.srcresult == e.srcresult
      && (!e.unexpected ==> !r.unexpected) && (r.isEos <==> e.isEos || Ends(acts))
    decreases |acts|
  {
    hide Possible, Advance, Ends;
    if acts != [] {
      QuietAct(e, acts[0]);
      QuietRunning(Advance(e, acts[0]), acts[1..]);
      EndsRest(acts);
    } else {
      NoneEnds();
    }
  }

  lemma QuietAct(e: Elem, a: Act)
    requires Possible(e, a) && Quiet([a])
    ensures var r := Advance(e, a);
      && r.running == e.running && r.pushing == e.pushing && r.seeking == e.seeking && r.srcresult == e.srcresult
      && (!e.unexpected ==> !r.unexpected) && (r.isEos <==> e.isEos || a.SinkEos?)
  {
    hide Push, Migrate, PushAllowed;
    assert a == [a][0];
  }

  lemma NoneEnds()
    ensures !Ends([])
  {
  }

  lemma EndsRest(acts: seq<Act>)
    requires acts != []
    ensures Ends(acts) <==> acts[0].SinkEos? || Ends(acts[1..])
  {
    assert forall i :: 0 < i < |acts| ==> acts[i] == acts[1..][i - 1];
  }

  /** When the loop may start a round. */
  lemma MayLoop(e: Elem)
    requires Orderly(e.cache) && e.running && !e.pushing && e.srcresult == Ok
    requires (e.cache.fslots > 0 || e.isEos) && (Short(e.cache.hOffset) || PopSafe(e.cache, e.isEos))
    ensures Possible(e, Loop) && Advance(e, Loop) == PopAndSend(e)
  {
    SlotsFit(e.cache);
    hide Orderly, PopSafe, PopAndSend;
  }

  /** The end of a seek sets the loop going, whatever had stopped it, an EOS or an error included: whatever else goes on
      meanwhile, as soon as there is something to pop the loop can go round, and sends a SEGMENT for the place where the
      cache has landed and the buffer that starts there; and if upstream has ended again and nothing is left, it sends
      the EOS. */
  lemma SeekRestarts(e: Elem, acts: seq<Act>)
    requires ElemOrderly(e) && Possible(e, SeekEnd) && CanGo(Advance(e, SeekEnd), acts) && Quiet(acts)
    ensures var s := Advance(e, SeekEnd);
      var landed, r := s.cache.NextOffset(), Go(s, acts);
      && (r.isEos <==> Ends(acts))
      && (Short(r.cache.hOffset) || PopSafe(r.cache, r.isEos) ==>
            match PopBuffer(r.cache, r.isEos)
            case Some(b) =>
              && b.offset == landed && CanGo(s, acts + [Loop])
              && Go(s, acts + [Loop]).out == e.out + [FlushStop, Segment(landed), Data(b)]
            case None =>
              Ends(acts) ==>
                CanGo(s, acts + [Loop]) && Go(s, acts + [Loop]).out == e.out + [FlushStop, EndOfStream])
  {
    var s := Advance(e, SeekEnd);
    EndOfSeek(e);
    StepOrder(e, SeekEnd);
    FirstAfterSeek(e, acts);
    QuietRunning(s, acts);
    QuietKeeps(s, acts);
    var r := Go(s, acts);
    hide ElemOrderly, PopBuffer, PopAndSend, PopSafe, Short, Advance, Possible, Go, CanGo, Quiet;
    if Short(r.cache.hOffset) || PopSafe(r.cache, r.isEos) {
      LoopsWhen(r);
      if PopBuffer(r.cache, r.isEos).Some? || r.isEos {
        GoLast(s, acts, Loop);
      }
      SendsEos(r);
      assert e.out + [FlushStop] + [EndOfStream] == e.out + [FlushStop, EndOfStream];
    }
  }

  lemma EndOfSeek(e: Elem)
    requires Possible(e, SeekEnd)
    ensures var s := Advance(e, SeekEnd);
      s.running && !s.pushing && s.srcresult == Ok && !s.isEos && !s.unexpected && s.needSegment
      && s.out == e.out + [FlushStop]
  {
    hide Seek, SeekAllowed;
  }

  /** The loop may go round as soon as there is something to pop, or upstream has ended. */
  lemma LoopsWhen(e: Elem)
    requires ElemOrderly(e) && e.running && !e.pushing && e.srcresult == Ok
    requires Short(e.cache.hOffset) || PopSafe(e.cache, e.isEos)
    ensures PopBuffer(e.cache, e.isEos).Some? || e.isEos ==>
      Possible(e, Loop) && Advance(e, Loop) == PopAndSend(e)
  {
    hide WellPlaced, Expected, PopBuffer, PopSafe, PopAndSend, Short, Possible, Advance, Orderly;
    TakeOutOrderly(e.cache, e.isEos);
    if PopBuffer(e.cache, e.isEos).Some? || e.isEos {
      MayLoop(e);
    }
  }

  lemma SendsEos(e: Elem)
    ensures e.isEos && PopBuffer(e.cache, e.isEos).None? ==>
      PopAndSend(e) == e.(cache := PopCache(e.cache, e.isEos), out := e.out + [EndOfStream], running := false)
  {
    hide PopBuffer, PopCache;
  }

  /** After a seek data is taken again, whatever had been refused, another seek can begin, and downstream is not told of
      the end unless upstream ends again. */
  lemma SeekReopens(e: Elem, acts: seq<Act>)
    requires Possible(e, SeekEnd) && CanGo(Advance(e, SeekEnd), acts) && NoEos(acts)
    ensures var s := Advance(e, SeekEnd);
      && (forall data :: Possible(s, Chain(data)) ==> Advance(s, Chain(data)).stream == s.stream + data)
      && (ElemOrderly(e) ==> forall flush, seek :: Possible(s, SeekBegin(flush, seek)))
      && s.out <= Go(s, acts).out && !HasEos(Go(s, acts).out[|s.out|..])
  {
    hide Push, Seek, SeekAllowed, Go, CanGo, PushAllowed, Orderly, WellPlaced, Expected;
    SeekForgetsEos(Advance(e, SeekEnd), acts);
    if ElemOrderly(e) {
      SeekOrderly(e.cache, e.seeking.value);
      SlotsFit(Seek(e.cache, e.seeking.value));
    }
  }

  /** Whether upstream has ended, and whether downstream wants no more, after `acts`. */
  function Refusal(e: Elem, acts: seq<Act>, over: bool, full: bool): (bool, bool)
    requires CanGo(e, acts)
    decreases |acts|
  {
    if acts == [] then (over, full)
    else
      var e1, rest := Advance(e, acts[0]), acts[1..];
      match acts[0]
      case SinkEos => Refusal(e1, rest, true, full)
      case SinkSegment => Refusal(e1, rest, over, false)
      case SeekEnd => Refusal(e1, rest, false, false)
      case PushReturned(result) => Refusal(e1, rest, over, full || (e.srcresult == Ok && result == Eos))
      case _ => Refusal(e1, rest, over, full)
  }

  lemma {:induction false} RefusalIs(e: Elem, acts: seq<Act>)
    requires CanGo(e, acts)
    ensures var r := Go(e, acts); (r.isEos, r.unexpected) == Refusal(e, acts, e.isEos, e.unexpected)
    decreases |acts|
  {
    hide Advance, Possible;
    if acts != [] {
      FlagsAfter(e, acts[0]);
      RefusalIs(Advance(e, acts[0]), acts[1..]);
    }
  }

  lemma FlagsAfter(e: Elem, a: Act)
    requires Possible(e, a)
    ensures var r := Advance(e, a);
      && r.isEos == (if a.SinkEos? then true else if a.SeekEnd? then false else e.isEos)
      && r.unexpected == (if a.SinkSegment? || a.SeekEnd? then false
                          else e.unexpected || (a == PushReturned(Eos) && e.srcresult == Ok))
  {
    hide PopAndSend, Resume, Push, Seek, Migrate, Release, DiscardSafe, PopSafe, PushAllowed, SeekAccepted, SeekTarget,
         SeekAllowed, Short;
    match a
    case Loop => LoopFlags(e);
    case PushReturned(result) => ResumeFlags(e.(pushing := false), result);
    case _ =>
  }

  lemma LoopFlags(e: Elem)
    ensures PopAndSend(e).isEos == e.isEos && PopAndSend(e).unexpected == e.unexpected
  {
    hide PopBuffer, PopCache;
  }

  lemma ResumeFlags(e: Elem, result: Flow)
    ensures var r := Resume(e, result);
      r.isEos == e.isEos && r.unexpected == (e.unexpected || (result == Eos && e.srcresult == Ok))
  {
    hide DiscardAll;
    DiscardFlags(e);
  }

  lemma {:induction false} DiscardFlags(e: Elem)
    ensures DiscardAll(e).isEos == e.isEos && DiscardAll(e).unexpected == e.unexpected
    decreases FileLeft(e.cache), CellsLeft(e.cache)
  {
    hide PopBuffer, PopCache, FileLeft, CellsLeft, DiscardAll, D.AfterRound;
    DiscardStep(e);
    if PopBuffer(e.cache, e.isEos).Some? {
      RoundShrinks(e.cache, e.isEos);
      DiscardFlags(DiscardOne(e));
    }
  }

  /** Over every run data is refused exactly if upstream has ended and no seek has since, or downstream has answered EOS
      and neither a seek has ended nor a SEGMENT come from upstream since; and else all of it is taken. */
  lemma TakesData(e: Elem, acts: seq<Act>, data: seq<Byte>)
    requires CanGo(e, acts) && Possible(Go(e, acts), Chain(data))
    ensures var r := Go(e, acts);
      var (over, full) := Refusal(e, acts, e.isEos, e.unexpected);
      Advance(r, Chain(data)) ==
      if over || full then r else r.(cache := Push(r.cache, data), stream := r.stream + data)
  {
    RefusalIs(e, acts);
    hide Push, PushAllowed, Go, CanGo, Refusal;
  }

  // ---------------------------------------------------------------------------------------------------------------
  // A seek can be finished

  /** The acts that return every buffer of the cells from `k` on. */
  function Returns(cells: seq<Cell>, k: nat): seq<Act>
    decreases |cells| - k
  {
    if k >= |cells| then []
    else (if cells[k].state == SlotState.Pop then [Returned(k)] else []) + Returns(cells, k + 1)
  }

  lemma ReturnOne(e: Elem, k: nat)
    requires |e.cache.cells| <= e.cache.nslots && e.cache.head <= |e.cache.cells|
    requires k < |e.cache.cells| && e.cache.cells[k].state == SlotState.Pop
    ensures Possible(e, Returned(k))
    ensures var r := Advance(e, Returned(k));
      r == e.(cache := e.cache.(cells := e.cache.cells[k := e.cache.cells[k].(state := Recycle)],
                                refs := e.cache.refs - 1))
  {
  }

  /** Of the cells from `k` on those that were out have been let go. */
  predicate LetGoFrom(cells: seq<Cell>, cells': seq<Cell>, k: nat) {
    && |cells'| == |cells|
    && forall i :: 0 <= i < |cells| ==>
         cells'[i] == if i >= k && cells[i].state == SlotState.Pop then cells[i].(state := Recycle) else cells[i]
  }

  /** And nothing else has happened. */
  predicate OnlyReturned(e: Elem, r: Elem, k: nat) {
    && r == e.(cache := e.cache.(cells := r.cache.cells, refs := r.cache.refs))
    && LetGoFrom(e.cache.cells, r.cache.cells, k)
  }

  lemma OneMoreReturned(e: Elem, e1: Elem, r: Elem, k: nat)
    requires k < |e.cache.cells| && OnlyReturned(e1, r, k + 1)
    requires if e.cache.cells[k].state == SlotState.Pop then
               e1 == e.(cache := e.cache.(cells := e.cache.cells[k := e.cache.cells[k].(state := Recycle)],
                                          refs := e.cache.refs - 1))
             else e1 == e
    ensures OnlyReturned(e, r, k)
  {
  }

  lemma {:induction false} ReturnsGo(e: Elem, k: nat)
    requires |e.cache.cells| <= e.cache.nslots && e.cache.head <= |e.cache.cells| && k <= |e.cache.cells|
    ensures CanGo(e, Returns(e.cache.cells, k)) && OnlyReturned(e, Go(e, Returns(e.cache.cells, k)), k)
    decreases |e.cache.cells| - k
  {
    var cells := e.cache.cells;
    if k == |cells| {
      assert OnlyReturned(e, e, k);
    } else {
      hide Possible, Advance, OnlyReturned;
      var rest := Returns(cells, k + 1);
      if cells[k].state == SlotState.Pop {
        ReturnOne(e, k);
        var e1 := Advance(e, Returned(k));
        SameReturns(cells, e1.cache.cells, k + 1);
        ReturnsGo(e1, k + 1);
        assert ([Returned(k)] + rest)[1..] == rest;
        OneMoreReturned(e, e1, Go(e1, rest), k);
      } else {
        ReturnsGo(e, k + 1);
        assert [] + rest == rest;
        OneMoreReturned(e, e, Go(e, rest), k);
      }
    }
  }

  lemma {:induction false} SameReturns(cells: seq<Cell>, cells': seq<Cell>, k: nat)
    requires |cells'| == |cells| && forall i :: k <= i < |cells| ==> cells'[i] == cells[i]
    ensures Returns(cells', k) == Returns(cells, k)
    decreases |cells| - k
  {
    if k < |cells| {
      SameReturns(cells, cells', k + 1);
    }
  }

  /** Once downstream has returned all its buffers, and the push under way, nothing but the order of the ring can keep a
      seek from ending. */
  lemma SeekCanEnd(e: Elem)
    requires ElemOrderly(e) && Seeking(e) && !e.pushing
    ensures CanGo(e, Returns(e.cache.cells, 0))
    ensures var r := Go(e, Returns(e.cache.cells, 0));
      && NoneOut(r.cache.cells) && r.cache.NextOffset() == e.cache.NextOffset() && Seeking(r)
      && (Possible(r, SeekEnd) <==> SeekAllowed(r.cache, e.seeking.value))
  {
    SlotsFit(e.cache);
    ReturnsGo(e, 0);
    hide SeekAllowed, Go, CanGo, ElemOrderly;
  }

  // ---------------------------------------------------------------------------------------------------------------
  // The end of the stream, and of the loop

  /** Downstream was told of the end, and has not been flushed since. */
  predicate Closed(out: seq<Event>) {
    out != [] &&
    match out[|out| - 1]
    case EndOfStream => true
    case FlushStop => false
    case _ => Closed(out[..|out| - 1])
  }

  /** Nothing is sent after the end. */
  predicate Silent(out: seq<Event>) {
    out == [] ||
    (Silent(out[..|out| - 1]) &&
     (Closed(out[..|out| - 1]) ==> out[|out| - 1].FlushStart? || out[|out| - 1].FlushStop?))
  }

  /** The loop stops only when it has sent the EOS, or because of what downstream answered, or for a seek. */
  ghost predicate LoopLives(e: Elem) {
    && Silent(e.out)
    && (Closed(e.out) ==> !e.running) && (e.pushing ==> e.running)
    && (e.running || Closed(e.out) || e.srcresult != Ok)
  }

  lemma MoreOut(out: seq<Event>, ev: Event)
    ensures Closed(out + [ev]) <==> ev.EndOfStream? || (!ev.FlushStop? && Closed(out))
    ensures Silent(out + [ev]) <==> Silent(out) && (Closed(out) ==> ev.FlushStart? || ev.FlushStop?)
  {
    assert (out + [ev])[..|out|] == out;
  }

  lemma {:induction false} DiscardLives(e: Elem)
    requires Silent(e.out) && !Closed(e.out)
    ensures var r := DiscardAll(e);
      && Silent(r.out) && !Closed(r.out)
      && r.running == e.running && r.pushing == e.pushing && r.srcresult == e.srcresult
    decreases FileLeft(e.cache), CellsLeft(e.cache)
  {
    hide PopBuffer, PopCache, FileLeft, CellsLeft, DiscardAll, D.AfterRound, Silent, Closed;
    DiscardStep(e);
    if PopBuffer(e.cache, e.isEos).Some? {
      RoundShrinks(e.cache, e.isEos);
      MoreOut(e.out, Discarded(PopBuffer(e.cache, e.isEos).value));
      DiscardLives(DiscardOne(e));
    }
  }

  lemma ActLives(e: Elem, a: Act)
    requires LoopLives(e) && Possible(e, a)
    ensures LoopLives(Advance(e, a))
  {
    hide PopCache, PopBuffer, Push, Seek, Migrate, DiscardAll, DiscardSafe, PopSafe, PushAllowed, SeekAccepted,
         SeekTarget, SeekAllowed, Closed, Silent;
    MoreOut(e.out, EndOfStream);
    match a
    case Loop =>
      match PopBuffer(e.cache, e.isEos) {
        case Some(b) =>
          MoreOut(e.out, Segment(b.offset));
          MoreOut(e.out + [Segment(b.offset)], Data(b));
          MoreOut(e.out, Data(b));
          assert e.out + [] == e.out;
        case None =>
      }
    case PushReturned(result) => DiscardLives(e.(pushing := false));
    case SeekBegin(_, _) => MoreOut(e.out, FlushStart);
    case SeekEnd => MoreOut(e.out, FlushStop);
    case _ =>
  }

  /** Over every run downstream gets nothing after the EOS until it is flushed; and a loop that has not sent the EOS
      still runs, unless a seek flushes it or downstream has answered something worse than OK and EOS. */
  lemma {:induction false} RunLives(e: Elem, acts: seq<Act>)
    requires LoopLives(e) && CanGo(e, acts)
    ensures LoopLives(Go(e, acts))
    decreases |acts|
  {
    hide LoopLives, Advance, Possible;
    if acts != [] {
      ActLives(e, acts[0]);
      RunLives(Advance(e, acts[0]), acts[1..]);
    }
  }

  lemma ActivatedLives(nslots: nat)
    ensures LoopLives(Activated(nslots))
  {
  }

  /** After each turn of the loop, and after each push, it goes on exactly if all is well and the EOS was not sent. */
  lemma LoopGoesOn(e: Elem, a: Act)
    requires LoopLives(e) && Possible(e, a) && (a.Loop? || a.PushReturned?)
    ensures var r := Advance(e, a); r.running <==> r.srcresult == Ok && !Closed(r.out)
  {
    ActLives(e, a);
    hide Closed, Silent, PopAndSend, Resume, DiscardSafe, PopSafe, Short;
    match a
    case Loop =>
      if e.srcresult == Ok {
        RunsIfOk(e);
      }
    case PushReturned(result) => ResumesIfOk(e.(pushing := false), result);
  }

  lemma RunsIfOk(e: Elem)
    requires e.running && e.srcresult == Ok
    ensures PopAndSend(e).running ==> PopAndSend(e).srcresult == Ok
  {
    hide PopBuffer, PopCache;
  }

  lemma ResumesIfOk(e: Elem, result: Flow)
    requires e.running && Silent(e.out) && !Closed(e.out)
    ensures Resume(e, result).running ==> Resume(e, result).srcresult == Ok
  {
    hide DiscardAll, Closed, Silent;
    DiscardLives(e);
  }

  predicate NoSeekEnd(acts: seq<Act>) {
    forall i :: 0 <= i < |acts| ==> !acts[i].SeekEnd?
  }

  /** All that is added to what downstream was sent is a flush that begins. */
  predicate OnlyFlushes(before: seq<Event>, after: seq<Event>) {
    before <= after && forall i :: |before| <= i < |after| ==> after[i].FlushStart?
  }

  lemma {:induction false} StoppedStays(e: Elem, acts: seq<Act>)
    requires !e.running && !e.pushing && CanGo(e, acts) && NoSeekEnd(acts)
    ensures !Go(e, acts).running && OnlyFlushes(e.out, Go(e, acts).out)
    decreases |acts|
  {
    hide Possible, Advance;
    if acts != [] {
      StoppedAct(e, acts[0]);
      StoppedStays(Advance(e, acts[0]), acts[1..]);
    }
  }

  lemma StoppedAct(e: Elem, a: Act)
    requires !e.running && !e.pushing && Possible(e, a) && !a.SeekEnd?
    ensures var r := Advance(e, a); !r.running && !r.pushing && OnlyFlushes(e.out, r.out)
  {
    hide Push, Migrate, PushAllowed, SeekAccepted, SeekTarget, PopSafe, DiscardSafe;
  }

  /** Flushed by a seek that has not moved the cache yet. */
  predicate Seeking(e: Elem) {
    e.srcresult == Flushing && e.seeking.Some?
  }

  lemma SeekingAct(e: Elem, a: Act)
    requires Seeking(e) && Possible(e, a) && !a.SeekEnd?
    ensures Seeking(Advance(e, a)) && Advance(e, a).out == e.out
  {
    hide Push, Migrate, PushAllowed, SeekAccepted, SeekTarget, PopSafe, DiscardSafe, SeekAllowed;
  }

  lemma {:induction false} SeekingStays(e: Elem, acts: seq<Act>)
    requires Seeking(e) && CanGo(e, acts) && NoSeekEnd(acts)
    ensures Seeking(Go(e, acts)) && Go(e, acts).out == e.out
    decreases |acts|
  {
    hide Possible, Advance, Seeking;
    if acts != [] {
      SeekingAct(e, acts[0]);
      SeekingStays(Advance(e, acts[0]), acts[1..]);
    }
  }

  /** From the flush with which a seek begins to its end nothing is sent, whatever the loop was doing and whatever else
      happens: not even the EOS. */
  lemma SeekIsSilent(e: Elem, flush: bool, seek: S.SeekEvent, acts: seq<Act>)
    requires Possible(e, SeekBegin(flush, seek)) && SeekAccepted(e.cache, flush, seek)
    requires CanGo(Advance(e, SeekBegin(flush, seek)), acts) && NoSeekEnd(acts)
    ensures Go(Advance(e, SeekBegin(flush, seek)), acts).out == e.out + [FlushStart]
  {
    var s := Advance(e, SeekBegin(flush, seek));
    hide SeekAccepted, SeekTarget;
    assert Seeking(s) && s.out == e.out + [FlushStart];
    hide Advance, Possible, Go, CanGo;
    SeekingStays(s, acts);
  }

  /** An error from downstream is the last word until a seek: downstream is told of the end after it if and only if
      upstream had ended before it, and of nothing else. */
  lemma ErrorThenEos(e: Elem, acts: seq<Act>)
    requires Possible(e, PushReturned(Error)) && e.srcresult == Ok
    requires CanGo(Advance(e, PushReturned(Error)), acts) && NoSeekEnd(acts)
    ensures OnlyFlushes(e.out + if e.isEos then [EndOfStream] else [], Go(Advance(e, PushReturned(Error)), acts).out)
  {
    var r := Advance(e, PushReturned(Error));
    assert !r.running && !r.pushing && r.out == e.out + if e.isEos then [EndOfStream] else [];
    hide Advance, Possible, Go, CanGo;
    StoppedStays(r, acts);
  }

  /** Upstream has ended, and the loop runs. */
  ghost predicate PlaysOn(e: Elem) {
    ElemOrderly(e) && Short(e.cache.hOffset) && e.isEos && e.running && !e.pushing && e.srcresult == Ok
  }

  lemma PopShrinks(c: Cache, drain: bool)
    requires PopBuffer(c, drain).Some?
    ensures var r := PopCache(c, drain);
      FileLeft(r) < FileLeft(c) || (FileLeft(r) == FileLeft(c) && CellsLeft(r) < CellsLeft(c))
  {
    hide PopCache, PopBuffer;
    RoundShrinks(c, drain);
    D.PoppedBehindHead(c, drain);
  }

  /** One round of the loop whose push downstream accepts. */
  lemma LoopAccepted(e: Elem)
    requires PlaysOn(e)
    ensures Possible(e, Loop)
    ensures var r := Advance(e, Loop);
      if PopBuffer(e.cache, true).Some? then
        && Possible(r, PushReturned(Ok)) && PlaysOn(Advance(r, PushReturned(Ok)))
        && Advance(r, PushReturned(Ok)).cache == PopCache(e.cache, true)
        && OnlyBuffers(e.out, Advance(r, PushReturned(Ok)).out)
      else r.out == e.out + [EndOfStream]
  {
    hide Orderly, WellPlaced, Expected, PopSafe;
    TakeOutOrderly(e.cache, true);
    SlotsFit(e.cache);
    SlotsFit(PopCache(e.cache, true));
    hide PopBuffer, PopCache;
    StepOrder(e, Loop);
    var r := Advance(e, Loop);
    if PopBuffer(e.cache, true).Some? {
      StepOrder(r, PushReturned(Ok));
    }
  }

  /** All that is added is SEGMENTs and buffers. */
  predicate OnlyBuffers(before: seq<Event>, after: seq<Event>) {
    before <= after && forall i :: |before| <= i < |after| ==> after[i].Segment? || after[i].Data?
  }

  /** Round after round, each push accepted, until there is nothing left. */
  ghost function Rounds(e: Elem): (acts: seq<Act>)
    requires PlaysOn(e)
    ensures acts != []
    decreases FileLeft(e.cache), CellsLeft(e.cache)
  {
    LoopAccepted(e);
    if PopBuffer(e.cache, true).None? then [Loop]
    else
      PopShrinks(e.cache, true);
      [Loop, PushReturned(Ok)] + Rounds(Advance(Advance(e, Loop), PushReturned(Ok)))
  }

  /** Once upstream has ended, a downstream that takes what it is sent is told so, after finitely many buffers. */
  lemma {:induction false} EosReached(e: Elem)
    requires PlaysOn(e)
    ensures CanGo(e, Rounds(e))
    ensures var out := Go(e, Rounds(e)).out;
      |out| > |e.out| && out[|out| - 1] == EndOfStream && OnlyBuffers(e.out, out[..|out| - 1])
    decreases FileLeft(e.cache), CellsLeft(e.cache)
  {
    hide PlaysOn, Possible, Advance, PopBuffer, PopCache, FileLeft, CellsLeft;
    LoopAccepted(e);
    var acts := Rounds(e);
    if PopBuffer(e.cache, true).None? {
      assert acts == [Loop] && acts[1..] == [];
    } else {
      PopShrinks(e.cache, true);
      var r := Advance(e, Loop);
      var r1 := Advance(r, PushReturned(Ok));
      EosReached(r1);
      assert acts[0] == Loop && acts[1..] == [PushReturned(Ok)] + Rounds(r1);
      assert acts[1..][1..] == Rounds(r1);
      assert CanGo(r, acts[1..]) && Go(r, acts[1..]) == Go(r1, Rounds(r1));
      assert Go(e, acts) == Go(r1, Rounds(r1));
    }
  }
}
