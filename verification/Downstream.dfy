/** What downstream gets of what the element takes out of its cache: after downstream has answered EOS, the element
    throws away what the cache has, and tells nobody. */
module Downstream {
  import opened Bytes
  import opened CacheModel
  import opened Runs
  import opened OrderlyRuns
  import opened Element
  import Spoiled

  /** What downstream gets. */
  function Sent(out: seq<Event>): seq<Event> {
    if out == [] then []
    else
      var before := Sent(out[..|out| - 1]);
      if out[|out| - 1].Discarded? then before else before + [out[|out| - 1]]
  }

  /** How many bytes were thrown away since downstream was last told a place. */
  function Hidden(out: seq<Event>): nat {
    if out == [] then 0
    else
      match out[|out| - 1]
      case Discarded(b) => Hidden(out[..|out| - 1]) + |b.bytes|
      case Segment(_) => 0
      case Data(_) => 0
      case FlushStop => 0
      case _ => Hidden(out[..|out| - 1])
  }

  /** A buffer is sent after others that were not, with no SEGMENT in between. */
  predicate Skips(out: seq<Event>) {
    exists i :: 0 <= i < |out| && out[i].Data? && Hidden(out[..i]) > 0
  }

  /** Without what was thrown away, the place downstream expects lies that much further back. */
  lemma {:induction false} SentPlaced(out: seq<Event>)
    requires WellPlaced(out)
    ensures WellPlaced(Sent(out)) <==> !Skips(out)
    ensures Expected(out).None? <==> Expected(Sent(out)).None?
    ensures Expected(out).Some? ==> Expected(Sent(out)).value + Hidden(out) == Expected(out).value
    ensures Expected(out).None? ==> Hidden(out) == 0
    decreases |out|
  {
    if out != [] {
      var before, last := out[..|out| - 1], out[|out| - 1];
      SentPlaced(before);
      SkipsLast(before, last);
      assert before + [last] == out;
      assert (Sent(before) + [last])[..|Sent(before)|] == Sent(before);
    }
  }

  lemma SkipsLast(before: seq<Event>, last: Event)
    ensures Skips(before + [last]) <==> Skips(before) || (last.Data? && Hidden(before) > 0)
  {
    hide Hidden;
    var out := before + [last];
    assert out[..|before|] == before;
    forall i | 0 <= i < |before|
      ensures out[i] == before[i] && out[..i] == before[..i]
    {
    }
    if last.Data? && Hidden(before) > 0 {
      assert out[|before|] == last && Hidden(out[..|before|]) > 0;
    }
    if Skips(before) {
      var i :| 0 <= i < |before| && before[i].Data? && Hidden(before[..i]) > 0;
      assert out[i].Data? && Hidden(out[..i]) > 0;
    }
  }

  // ---------------------------------------------------------------------------------------------------------------
  // Which runs skip

  /** The element before the `i`-th act. */
  function At(e: Elem, acts: seq<Act>, i: nat): Elem
    requires CanGo(e, acts) && i <= |acts|
    decreases i
  {
    if i == 0 then e else At(Advance(e, acts[0]), acts[1..], i - 1)
  }

  /** Downstream answers EOS, no flush has come meanwhile, and the cache has something left. */
  predicate Drops(e: Elem, a: Act) {
    a == PushReturned(Eos) && e.srcresult == Ok && PopBuffer(e.cache, e.isEos).Some?
  }

  /** The loop goes round and the cache has something. */
  predicate Sends(e: Elem, a: Act) {
    a == Loop && e.srcresult == Ok && PopBuffer(e.cache, e.isEos).Some?
  }

  predicate NoSeekEnd(acts: seq<Act>, from: nat, to: nat) {
    forall k :: from <= k < to && k < |acts| ==> acts[k] != SeekEnd
  }

  /** A buffer is sent before a seek has ended. */
  predicate SendsBeforeSeek(e: Elem, acts: seq<Act>)
    requires CanGo(e, acts)
  {
    exists j :: 0 <= j < |acts| && Sends(At(e, acts, j), acts[j]) && NoSeekEnd(acts, 0, j)
  }

  /** Something is thrown away, and later, with no seek in between, a buffer is sent. */
  predicate SendsAfterDrop(e: Elem, acts: seq<Act>)
    requires CanGo(e, acts)
  {
    exists i, j :: 0 <= i < j < |acts| && Drops(At(e, acts, i), acts[i]) && Sends(At(e, acts, j), acts[j])
                   && NoSeekEnd(acts, i, j)
  }

  lemma SendsUnrolled(e: Elem, acts: seq<Act>)
    requires CanGo(e, acts) && acts != []
    ensures SendsBeforeSeek(e, acts) <==>
      Sends(e, acts[0]) || (acts[0] != SeekEnd && SendsBeforeSeek(Advance(e, acts[0]), acts[1..]))
  {
    hide Sends, Advance, Possible, NoSeekEnd;
    var rest, e1 := acts[1..], Advance(e, acts[0]);
    assert At(e, acts, 0) == e;
    SeekEndShift(acts, 0, 0);
    hide At;
    if Sends(e, acts[0]) {
      assert Sends(At(e, acts, 0), acts[0]) && NoSeekEnd(acts, 0, 0);
    }
    if acts[0] != SeekEnd && SendsBeforeSeek(e1, rest) {
      var j :| 0 <= j < |rest| && Sends(At(e1, rest, j), rest[j]) && NoSeekEnd(rest, 0, j);
      SeekEndShift(acts, 0, j);
      AtShift(e, acts, j);
      assert Sends(At(e, acts, j + 1), acts[j + 1]) && NoSeekEnd(acts, 0, j + 1);
    }
    if SendsBeforeSeek(e, acts) {
      var j :| 0 <= j < |acts| && Sends(At(e, acts, j), acts[j]) && NoSeekEnd(acts, 0, j);
      if j > 0 {
        SeekEndShift(acts, 0, j - 1);
        AtShift(e, acts, j - 1);
        assert Sends(At(e1, rest, j - 1), rest[j - 1]) && NoSeekEnd(rest, 0, j - 1);
      }
    }
  }

  lemma SeekEndShift(acts: seq<Act>, i: nat, j: nat)
    requires acts != []
    ensures NoSeekEnd(acts[1..], i, j) <==> NoSeekEnd(acts, i + 1, j + 1)
    ensures NoSeekEnd(acts, 0, j + 1) <==> acts[0] != SeekEnd && NoSeekEnd(acts, 1, j + 1)
    ensures NoSeekEnd(acts, 0, 0)
  {
    var rest := acts[1..];
    assert forall k :: 0 <= k < |rest| ==> rest[k] == acts[k + 1];
    if NoSeekEnd(rest, i, j) {
      forall k | i + 1 <= k < j + 1 && k < |acts|
        ensures acts[k] != SeekEnd
      {
        assert rest[k - 1] != SeekEnd;
      }
    }
  }

  lemma AtShift(e: Elem, acts: seq<Act>, i: nat)
    requires CanGo(e, acts) && acts != [] && i < |acts[1..]|
    ensures At(e, acts, i + 1) == At(Advance(e, acts[0]), acts[1..], i) && acts[i + 1] == acts[1..][i]
  {
    hide Advance, Possible;
  }

  lemma DropsUnrolled(e: Elem, acts: seq<Act>)
    requires CanGo(e, acts) && acts != []
    ensures var e1, rest := Advance(e, acts[0]), acts[1..];
      SendsAfterDrop(e, acts) <==> (Drops(e, acts[0]) && SendsBeforeSeek(e1, rest)) || SendsAfterDrop(e1, rest)
  {
    hide Sends, Drops, Advance, Possible, NoSeekEnd, SendsAfterDrop, SendsBeforeSeek;
    var rest, e1 := acts[1..], Advance(e, acts[0]);
    if Drops(e, acts[0]) && SendsBeforeSeek(e1, rest) {
      DropsNow(e, acts);
    }
    if SendsAfterDrop(e1, rest) {
      DropsLater(e, acts);
    }
    if SendsAfterDrop(e, acts) {
      DropsSplit(e, acts);
    }
  }

  lemma DropsNow(e: Elem, acts: seq<Act>)
    requires CanGo(e, acts) && acts != [] && Drops(e, acts[0]) && SendsBeforeSeek(Advance(e, acts[0]), acts[1..])
    ensures SendsAfterDrop(e, acts)
  {
    hide Sends, Advance, Possible, NoSeekEnd;
    var rest, e1 := acts[1..], Advance(e, acts[0]);
    var j :| 0 <= j < |rest| && Sends(At(e1, rest, j), rest[j]) && NoSeekEnd(rest, 0, j);
    assert acts[0] != SeekEnd;
    hide Drops;
    SeekEndShift(acts, 0, j);
    AtShift(e, acts, j);
    assert At(e, acts, 0) == e;
    hide At;
    assert Drops(At(e, acts, 0), acts[0]) && Sends(At(e, acts, j + 1), acts[j + 1]) && NoSeekEnd(acts, 0, j + 1);
  }

  lemma DropsLater(e: Elem, acts: seq<Act>)
    requires CanGo(e, acts) && acts != [] && SendsAfterDrop(Advance(e, acts[0]), acts[1..])
    ensures SendsAfterDrop(e, acts)
  {
    hide Sends, Drops, Advance, Possible, NoSeekEnd, At;
    var rest, e1 := acts[1..], Advance(e, acts[0]);
    var i, j :| 0 <= i < j < |rest| && Drops(At(e1, rest, i), rest[i]) && Sends(At(e1, rest, j), rest[j])
                && NoSeekEnd(rest, i, j);
    SeekEndShift(acts, i, j);
    AtShift(e, acts, i);
    AtShift(e, acts, j);
    assert Drops(At(e, acts, i + 1), acts[i + 1]) && Sends(At(e, acts, j + 1), acts[j + 1])
        && NoSeekEnd(acts, i + 1, j + 1);
  }

  lemma DropsSplit(e: Elem, acts: seq<Act>)
    requires CanGo(e, acts) && acts != [] && SendsAfterDrop(e, acts)
    ensures var e1, rest := Advance(e, acts[0]), acts[1..];
      (Drops(e, acts[0]) && SendsBeforeSeek(e1, rest)) || SendsAfterDrop(e1, rest)
  {
    hide Sends, Drops, Advance, Possible, NoSeekEnd;
    var rest, e1 := acts[1..], Advance(e, acts[0]);
    var i, j :| 0 <= i < j < |acts| && Drops(At(e, acts, i), acts[i]) && Sends(At(e, acts, j), acts[j])
                && NoSeekEnd(acts, i, j);
    AtShift(e, acts, j - 1);
    assert At(e, acts, 0) == e;
    hide At;
    if i > 0 {
      SeekEndShift(acts, i - 1, j - 1);
      AtShift(e, acts, i - 1);
      assert Drops(At(e1, rest, i - 1), rest[i - 1]) && Sends(At(e1, rest, j - 1), rest[j - 1])
          && NoSeekEnd(rest, i - 1, j - 1);
    } else {
      SeekEndShift(acts, 0, j - 1);
      assert Sends(At(e1, rest, j - 1), rest[j - 1]) && NoSeekEnd(rest, 0, j - 1);
    }
  }

  // ---------------------------------------------------------------------------------------------------------------
  // What one act hides, and what it skips

  lemma OneMore(out: seq<Event>, ev: Event)
    ensures Skips(out + [ev]) <==> Skips(out) || (ev.Data? && Hidden(out) > 0)
    ensures Hidden(out + [ev]) == match ev
                                  case Discarded(b) => Hidden(out) + |b.bytes|
                                  case Segment(_) => 0
                                  case Data(_) => 0
                                  case FlushStop => 0
                                  case _ => Hidden(out)
  {
    hide Skips;
    SkipsLast(out, ev);
    assert (out + [ev])[..|out + [ev]| - 1] == out;
  }

  lemma DropOne(e: Elem)
    requires ElemOrderly(e) && PopBuffer(e.cache, e.isEos).Some?
    requires Short(e.cache.hOffset) || PopSafe(e.cache, e.isEos)
    ensures Hidden(DiscardOne(e).out) > Hidden(e.out) && (Skips(DiscardOne(e).out) <==> Skips(e.out))
  {
    hide Hidden, Skips, Orderly, PopBuffer, PopCache, PopSafe, WellPlaced, Expected, D.AfterRound;
    TakeOutOrderly(e.cache, e.isEos);
    OneMore(e.out, Discarded(PopBuffer(e.cache, e.isEos).value));
  }

  lemma {:induction false} DropAll(e: Elem)
    requires ElemOrderly(e) && !e.needSegment && !e.pushing
    requires Short(e.cache.hOffset) || DiscardSafe(e.cache, e.isEos)
    ensures var r := DiscardAll(e);
      && (Hidden(r.out) > 0 <==> Hidden(e.out) > 0 || PopBuffer(e.cache, e.isEos).Some?)
      && (Skips(r.out) <==> Skips(e.out))
    decreases FileLeft(e.cache), CellsLeft(e.cache)
  {
    hide ElemOrderly, Short, PopCache, PopBuffer, PopSafe, D.AfterRound, DiscardAll, DiscardSafe, FileLeft, CellsLeft,
         Hidden, Skips;
    DiscardStep(e);
    if PopBuffer(e.cache, e.isEos).Some? {
      DropOne(e);
      DiscardOneOrderly(e);
      RoundShrinks(e.cache, e.isEos);
      DropAll(DiscardOne(e));
    }
  }

  /** Bytes become hidden exactly when something is thrown away, and stay so until a buffer is sent or a seek ends; a
      buffer is sent after hidden bytes exactly when the loop sends one while there are some. */
  lemma StepHides(e: Elem, a: Act)
    requires ElemOrderly(e) && Possible(e, a)
    ensures var out := Advance(e, a).out;
      && (Skips(out) <==> Skips(e.out) || (Hidden(e.out) > 0 && Sends(e, a)))
      && (Hidden(out) > 0 <==> Drops(e, a) || (Hidden(e.out) > 0 && !Sends(e, a) && a != SeekEnd))
  {
    SegmentFirst(e);
    MayPop(e);
    ActOut(e, a);
    hide Hidden, Skips, ElemOrderly, PopAndSend, Resume, GiveUp, Advance, Possible, PopBuffer, DiscardSafe, Short;
    match a
    case Loop => LoopHides(e);
    case PushReturned(result) => ResumeHides(e, result);
    case SeekBegin(_, _) => OneMore(e.out, FlushStart);
    case SeekEnd => OneMore(e.out, FlushStop);
    case _ =>
  }

  /** What an act sends. */
  lemma ActOut(e: Elem, a: Act)
    requires Possible(e, a)
    ensures Advance(e, a).out ==
            match a
            case Loop => if e.srcresult != Ok then GiveUp(e).out else PopAndSend(e).out
            case PushReturned(result) => Resume(e.(pushing := false), result).out
            case SeekBegin(flush, seek) =>
              if SeekAccepted(e.cache, flush, seek) then e.out + [FlushStart] else e.out
            case SeekEnd => e.out + [FlushStop]
            case _ => e.out
  {
    hide PopAndSend, Resume, GiveUp, Push, Seek, Migrate, SeekAccepted, SeekTarget, PopSafe, WriteSafe, DiscardSafe,
         SeekAllowed, Short;
  }

  lemma ResumeHides(e: Elem, result: Flow)
    requires ElemOrderly(e) && e.pushing
    requires e.srcresult == Ok && result == Eos ==> Short(e.cache.hOffset) || DiscardSafe(e.cache, e.isEos)
    ensures var out := Resume(e.(pushing := false), result).out;
      && (Skips(out) <==> Skips(e.out))
      && (Hidden(out) > 0 <==> Hidden(e.out) > 0 || Drops(e, PushReturned(result)))
  {
    hide Hidden, Skips, ElemOrderly, DiscardAll, DiscardSafe, Short, PopBuffer;
    PushBack(e);
    OneMore(e.out, EndOfStream);
    if e.srcresult == Ok && result == Eos {
      DropAll(e.(pushing := false));
    }
  }

  /** Before the SEGMENT nothing is hidden. */
  lemma SegmentFirst(e: Elem)
    requires ElemOrderly(e)
    ensures e.needSegment ==> Hidden(e.out) == 0
  {
    hide Orderly;
    SentPlaced(e.out);
  }

  lemma LoopHides(e: Elem)
    requires e.needSegment ==> Hidden(e.out) == 0
    ensures Skips(PopAndSend(e).out) <==> Skips(e.out) || (Hidden(e.out) > 0 && PopBuffer(e.cache, e.isEos).Some?)
    ensures Hidden(PopAndSend(e).out) > 0 <==> Hidden(e.out) > 0 && PopBuffer(e.cache, e.isEos).None?
    ensures Skips(GiveUp(e).out) <==> Skips(e.out)
    ensures Hidden(GiveUp(e).out) == Hidden(e.out)
  {
    hide Hidden, Skips, PopBuffer, PopCache;
    OneMore(e.out, EndOfStream);
    match PopBuffer(e.cache, e.isEos)
    case Some(b) =>
      OneMore(e.out, Segment(b.offset));
      OneMore(e.out, Data(b));
      OneMore(e.out + [Segment(b.offset)], Data(b));
      assert e.out + [] == e.out;
    case None =>
  }

  lemma {:induction false} RunHides(e: Elem, acts: seq<Act>)
    requires ElemOrderly(e) && CanGo(e, acts)
    ensures Skips(Go(e, acts).out) <==>
      Skips(e.out) || (Hidden(e.out) > 0 && SendsBeforeSeek(e, acts)) || SendsAfterDrop(e, acts)
    decreases |acts|
  {
    hide ElemOrderly, Advance, Possible, Skips, Hidden, Sends, Drops;
    if acts == [] {
    } else {
      StepOrder(e, acts[0]);
      StepHides(e, acts[0]);
      SendsUnrolled(e, acts);
      DropsUnrolled(e, acts);
      hide SendsBeforeSeek, SendsAfterDrop;
      RunHides(Advance(e, acts[0]), acts[1..]);
    }
  }

  /** Over every interleaving, what downstream gets is contiguous unless, and only unless, at some point downstream
      answers EOS while the cache has something left, and later the loop finds something to send, with no seek ended in
      between. */
  lemma SentExact(e: Elem, acts: seq<Act>)
    requires ElemOrderly(e) && CanGo(e, acts) && Hidden(e.out) == 0 && !Skips(e.out)
    ensures WellPlaced(Sent(Go(e, acts).out)) <==> !SendsAfterDrop(e, acts)
  {
    hide Orderly, WellPlaced, Expected, Sent, Skips, Hidden, SendsAfterDrop, SendsBeforeSeek;
    DownstreamContiguous(e, acts);
    RunHides(e, acts);
    SentPlaced(Go(e, acts).out);
  }

  /** As long as downstream does not answer EOS, what it gets is contiguous. */
  lemma SentContiguous(e: Elem, acts: seq<Act>)
    requires ElemOrderly(e) && CanGo(e, acts) && !Answers(acts, Eos)
    requires Hidden(e.out) == 0 && !Skips(e.out)
    ensures WellPlaced(Sent(Go(e, acts).out))
  {
    hide ElemOrderly, WellPlaced, Sent, Skips, Hidden, Sends;
    SentExact(e, acts);
  }

  // ---------------------------------------------------------------------------------------------------------------
  // A run in which it is not

  function Caught(nslots: nat, a: seq<Byte>, b: seq<Byte>, part: Piece): Cache {
    New(nslots).(cells := [Cell(Full, 0, a), Cell(Full, SLOT_SIZE, b)], fslots := 2, part := part,
                 hRb := 2 * SLOT_SIZE, hOffset := 2 * SLOT_SIZE + |part|)
  }

  lemma PushPart(c: Cache, d: Piece)
    requires !c.recording && TailFree(c) && c.part == [] && d != []
    requires RecycleTail(c) == c
    ensures Push(c, d) == c.(part := d, hOffset := c.hOffset + |d|)
  {
    assert d[..|d|] == d && d[|d|..] == [] && [] + d == d;
    var c1 := PushRound(c, d).0;
    assert PushRing(c1, []) == c1;
  }

  lemma Fills(nslots: nat, a: Spoiled.Slotful, b: Spoiled.Slotful, d: Piece)
    requires 3 <= nslots && d != []
    ensures Push(New(nslots), a) == One(nslots, a)
    ensures Push(One(nslots, a), b) == Caught(nslots, a, b, [])
    ensures Push(Caught(nslots, a, b, []), d) == Caught(nslots, a, b, d)
  {
    hide Push;
    PushSlot(New(nslots), a);
    PushSlot(One(nslots, a), b);
    assert [] + [Cell(Full, 0, a)] == [Cell(Full, 0, a)];
    assert One(nslots, a).cells + [Cell(Full, SLOT_SIZE, b)] == Caught(nslots, a, b, []).cells;
    PushPart(Caught(nslots, a, b, []), d);
  }

  function One(nslots: nat, a: seq<Byte>): Cache {
    New(nslots).(cells := [Cell(Full, 0, a)], fslots := 1, hRb := SLOT_SIZE, hOffset := SLOT_SIZE)
  }

  lemma PushSlot(c: Cache, a: Spoiled.Slotful)
    requires !c.recording && !c.drained && |c.cells| < c.nslots && c.part == []
    ensures Push(c, a) == c.(cells := c.cells + [Cell(Full, c.hRb, a)], fslots := c.fslots + 1,
                             hRb := c.hRb + SLOT_SIZE, hOffset := c.hOffset + SLOT_SIZE)
  {
    hide PushRound;
    Spoiled.ChunkFits(c, a);
    var c1 := PushRound(c, a).0;
    assert PushRing(c1, []) == c1;
  }

  /** What is left after the first slot was sent and the second thrown away. */
  function LeftOver(nslots: nat, a: seq<Byte>, b: seq<Byte>, d: Piece): Cache {
    Caught(nslots, a, b, d).(cells := [Cell(Pop, 0, a), Cell(Recycle, SLOT_SIZE, b)], head := 2, fslots := 0,
                             needDiscont := false, refs := 2)
  }

  function FirstSent(nslots: nat, a: seq<Byte>, b: seq<Byte>, d: Piece): Cache {
    Caught(nslots, a, b, d).(cells := [Cell(Pop, 0, a), Cell(Full, SLOT_SIZE, b)], head := 1, fslots := 1,
                             needDiscont := false, refs := 2)
  }

  /** The element after the three pushes, with what was sent so far. */
  function Holding(c: Cache, stream: seq<Byte>, out: seq<Event>): Elem {
    Activated(c.nslots).(cache := c, stream := stream, needSegment := out == [], out := out)
  }

  lemma FirstPop(nslots: nat, a: Spoiled.Slotful, b: Spoiled.Slotful, d: Piece)
    ensures var c := Caught(nslots, a, b, d);
      PopBuffer(c, false) == Some(Buffer(0, a, true)) && PopCache(c, false) == FirstSent(nslots, a, b, d)
      && PopSafe(c, false)
  {
  }

  lemma SecondPop(e: Elem, nslots: nat, a: Spoiled.Slotful, b: Spoiled.Slotful, d: Piece)
    requires e.cache == FirstSent(nslots, a, b, d) && !e.isEos
    ensures DiscardSafe(e.cache, false)
    ensures DiscardAll(e) ==
            e.(cache := LeftOver(nslots, a, b, d), out := e.out + [Discarded(Buffer(SLOT_SIZE, b, false))])
  {
    var c, r := FirstSent(nslots, a, b, d), LeftOver(nslots, a, b, d);
    assert PopBuffer(c, false) == Some(Buffer(SLOT_SIZE, b, false));
    assert D.AfterRound(c, false, true) == r;
    assert PopBuffer(r, false).None? && PopCache(r, false) == r && PopSafe(r, false);
    assert PopSafe(c, false);
    hide PopBuffer, PopCache, D.AfterRound, PopSafe, DiscardAll;
    DiscardStep(e);
    DiscardStep(DiscardOne(e));
  }

  lemma ThirdPop(nslots: nat, a: Spoiled.Slotful, b: Spoiled.Slotful, d: Piece)
    requires d != []
    ensures var c := LeftOver(nslots, a, b, d);
      PopBuffer(c, true) == Some(Buffer(2 * SLOT_SIZE, d, false)) && PopSafe(c, true)
  {
  }

  function SkipActs(a: seq<Byte>, b: seq<Byte>, d: Piece): seq<Act> {
    [Chain(a), Chain(b), Chain(d), Loop, PushReturned(Eos), SinkEos, Loop]
  }

  lemma GoMore(e: Elem, a: Act, rest: seq<Act>)
    requires Possible(e, a) && CanGo(Advance(e, a), rest)
    ensures CanGo(e, [a] + rest) && Go(e, [a] + rest) == Go(Advance(e, a), rest)
  {
    hide Possible, Advance;
    assert ([a] + rest)[1..] == rest;
  }

  lemma FillSteps(nslots: nat, a: Spoiled.Slotful, b: Spoiled.Slotful, d: Piece)
    requires 3 <= nslots && d != []
    ensures var e0 := Activated(nslots);
      var e1, e2 := e0.(cache := One(nslots, a), stream := a), e0.(cache := Caught(nslots, a, b, []), stream := a + b);
      && Possible(e0, Chain(a)) && Advance(e0, Chain(a)) == e1
      && Possible(e1, Chain(b)) && Advance(e1, Chain(b)) == e2
      && Possible(e2, Chain(d)) && Advance(e2, Chain(d)) == Holding(Caught(nslots, a, b, d), a + b + d, [])
  {
    hide Push;
    Fills(nslots, a, b, d);
    assert [] + a == a;
  }

  lemma SendSteps(nslots: nat, a: Spoiled.Slotful, b: Spoiled.Slotful, d: Piece, stream: seq<Byte>)
    requires 3 <= nslots && d != []
    ensures var e0 := Holding(Caught(nslots, a, b, d), stream, []);
      var out := [Segment(0), Data(Buffer(0, a, true))];
      var e1 := Holding(FirstSent(nslots, a, b, d), stream, out).(pushing := true);
      && Possible(e0, Loop) && Advance(e0, Loop) == e1
  {
    hide PopBuffer, PopCache, PopSafe;
    FirstPop(nslots, a, b, d);
    assert [] + [Segment(0)] + [Data(Buffer(0, a, true))] == [Segment(0), Data(Buffer(0, a, true))];
  }

  lemma DropSteps(nslots: nat, a: Spoiled.Slotful, b: Spoiled.Slotful, d: Piece, stream: seq<Byte>, out: seq<Event>)
    requires 3 <= nslots && d != [] && out != []
    ensures var e1 := Holding(FirstSent(nslots, a, b, d), stream, out).(pushing := true);
      var dropped := out + [Discarded(Buffer(SLOT_SIZE, b, false))];
      var e2 := Holding(LeftOver(nslots, a, b, d), stream, dropped).(unexpected := true);
      var e3 := e2.(isEos := true, ended := true);
      && Possible(e1, PushReturned(Eos)) && Advance(e1, PushReturned(Eos)) == e2
      && Possible(e2, SinkEos) && Advance(e2, SinkEos) == e3
      && Possible(e3, Loop) && Advance(e3, Loop).out == dropped + [Data(Buffer(2 * SLOT_SIZE, d, false))]
  {
    hide PopBuffer, PopCache, PopSafe, DiscardAll, DiscardSafe;
    SecondPop(Holding(FirstSent(nslots, a, b, d), stream, out), nslots, a, b, d);
    ThirdPop(nslots, a, b, d);
    var dropped := out + [Discarded(Buffer(SLOT_SIZE, b, false))];
    assert dropped + [] == dropped;
  }

  /** Downstream answers EOS to the first buffer; the second is thrown away; what was not a whole slot then is sent when
      upstream ends, without a SEGMENT, a slot further on than downstream can know. */
  lemma SkipIsReached(nslots: nat, a: Spoiled.Slotful, b: Spoiled.Slotful, d: Piece)
    requires 3 <= nslots && d != []
    ensures CanGo(Activated(nslots), SkipActs(a, b, d))
    ensures var out := Go(Activated(nslots), SkipActs(a, b, d)).out;
      && Sent(out) == [Segment(0), Data(Buffer(0, a, true)), Data(Buffer(2 * SLOT_SIZE, d, false))]
      && Skips(out) && !WellPlaced(Sent(out))
  {
    var e0 := Activated(nslots);
    var acts := SkipActs(a, b, d);
    var sent := [Segment(0), Data(Buffer(0, a, true))];
    FillSteps(nslots, a, b, d);
    SendSteps(nslots, a, b, d, a + b + d);
    DropSteps(nslots, a, b, d, a + b + d, sent);
    var e1, e2 := e0.(cache := One(nslots, a), stream := a), e0.(cache := Caught(nslots, a, b, []), stream := a + b);
    var e3 := Holding(Caught(nslots, a, b, d), a + b + d, []);
    var e4 := Holding(FirstSent(nslots, a, b, d), a + b + d, sent).(pushing := true);
    var e5 := Advance(e4, PushReturned(Eos));
    var e6 := Advance(e5, SinkEos);
    hide Possible, Advance, Push, CanGo, Go, Sent, WellPlaced, Skips;
    GoNone(Advance(e6, Loop));
    GoMore(e6, Loop, []);
    GoMore(e5, SinkEos, [Loop]);
    GoMore(e4, PushReturned(Eos), [SinkEos, Loop]);
    GoMore(e3, Loop, [PushReturned(Eos), SinkEos, Loop]);
    GoMore(e2, Chain(d), [Loop, PushReturned(Eos), SinkEos, Loop]);
    GoMore(e1, Chain(b), [Chain(d), Loop, PushReturned(Eos), SinkEos, Loop]);
    GoMore(e0, Chain(a), [Chain(b), Chain(d), Loop, PushReturned(Eos), SinkEos, Loop]);
    assert sent + [Discarded(Buffer(SLOT_SIZE, b, false))] + [Data(Buffer(2 * SLOT_SIZE, d, false))]
        == SkipOut(a, b, d);
    SkipSent(a, b, d);
  }

  function SkipOut(a: seq<Byte>, b: seq<Byte>, d: seq<Byte>): seq<Event> {
    [Segment(0), Data(Buffer(0, a, true)), Discarded(Buffer(SLOT_SIZE, b, false)),
     Data(Buffer(2 * SLOT_SIZE, d, false))]
  }

  lemma SkipSent(a: Spoiled.Slotful, b: Spoiled.Slotful, d: seq<Byte>)
    ensures var out := SkipOut(a, b, d);
      && Sent(out) == [Segment(0), Data(Buffer(0, a, true)), Data(Buffer(2 * SLOT_SIZE, d, false))]
      && Skips(out) && !WellPlaced(Sent(out))
  {
    var out := SkipOut(a, b, d);
    var two := [Segment(0), Data(Buffer(0, a, true))];
    var three := two + [Discarded(Buffer(SLOT_SIZE, b, false))];
    assert out[..3] == three && three[..2] == two && two[..1] == [Segment(0)] && [Segment(0)][..0] == [];
    assert Sent([Segment(0)]) == [Segment(0)] && Sent(two) == two && Sent(three) == two;
    assert Hidden(three) == SLOT_SIZE;
    assert out[3].Data? && Hidden(out[..3]) > 0;
    var sent := two + [Data(Buffer(2 * SLOT_SIZE, d, false))];
    assert sent[..2] == two && Expected(two) == Some(SLOT_SIZE);
  }

  lemma GoNone(e: Elem)
    ensures CanGo(e, []) && Go(e, []) == e
  {
  }
}
