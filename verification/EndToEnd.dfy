/** A seek by time through the whole chain: indexer, seeker, element, cache, and back down to the time of the next
    buffer. */
module EndToEnd {
  import opened Bytes
  import opened CacheModel
  import opened SeekProofs
  import opened Runs
  import opened OrderlyRuns
  import opened Delivery
  import opened ElementRuns
  import opened MemIndex
  import opened TsIndexer
  import opened PacketScan
  import E = Element
  import S = Seeker

  // ---------------------------------------------------------------------------------------------------------------
  // Where the cache lands

  /** With every buffer returned, a seek to an offset the cache accepts never lands behind it. It lands in the slot that
      holds the offset when the ring does, on the very byte when only the file does, and stays where it was when the
      offset is in the slot being filled. */
  lemma LandsAtOrBefore(c: Cache, o: nat)
    requires Orderly(c) && NoneOut(c.cells) && SeekAllowed(c, o) && HasOffset(c, o) && o < c.hOffset
    ensures var r := Seek(c, o);
      && r.NextOffset() <= o
      && (c.lRb <= o < c.hRb ==> o < r.NextOffset() + SLOT_SIZE)
      && (c.DiskUsable() && !(c.lRb <= o < c.hRb) ==> r.NextOffset() == o)
      && (!c.DiskUsable() && c.hRb <= o ==> r == c)
  {
    BoundsOf(c);
    if c.lRb <= o < c.hRb {
      hide Orderly, Locate, SeekRing, NoneOut;
      LandsInSlot(c, o);
    } else if c.DiskUsable() {
      hide Orderly, SeekDisk, NoneOut;
      LandsOnByte(c, o);
    }
  }

  lemma BoundsOf(c: Cache)
    requires Orderly(c)
    ensures c.lRb <= c.NextOffset() <= c.hRb && c.head <= |c.cells|
    ensures c.DiskUsable() && c.hDk != INVALID_OFFSET ==> c.hDk == c.hOffset
  {
  }

  lemma LandsInSlot(c: Cache, o: nat)
    requires Orderly(c) && NoneOut(c.cells) && c.lRb <= o < c.hRb && KeepsOrder(c, o) && c.head <= |c.cells|
    ensures SeekRing(c, o).NextOffset() <= o < SeekRing(c, o).NextOffset() + SLOT_SIZE
  {
    if CaughtUpFull(c) {
      LocateContains(c.cells, c.lRb, c.hRb, o);
      hide Locate, Landed, SeekRing, Placed;
      SeekFullExact(c, o);
    } else {
      hide KeepsOrder, Locate, Landed, SeekRing, Shape, Placed;
      SeekFreeExact(c, o);
    }
    hide KeepsOrder, Locate, SeekRing, Shape, Placed;
    LandedStart(SeekRing(c, o), o);
  }

  lemma LandsOnByte(c: Cache, o: nat)
    requires Orderly(c) && c.DiskUsable() && c.lDk <= o <= c.hOffset
    ensures SeekDisk(c, o).NextOffset() == o
  {
    var f := Flush(c).(rPos := o - c.lDk, hRb := o, lRb := o);
    FlushedOrderly(c, o);
    hide Orderly, ReloadRounds, ReloadCount;
    ReloadOrderly(f, ReloadCount(f, false), false);
  }

  // ---------------------------------------------------------------------------------------------------------------
  // A seek by time

  /** The index asked for time `t`: what the indexer `s` has put in it so far, of the bytes it has seen. */
  ghost predicate Asked(cfg: Config, s: State, bytes: seq<Byte>, list: seq<Entry>, t: int, i: nat) {
    && StateGood(cfg, s, bytes) && cfg.delta >= 0 && |bytes| < TWO_62
    && Lists(list, s.marks)
    && i < |s.marks| && S.MarkAtTime(s.marks, t, i)
  }

  /** The index asked on the way down: it may have grown. */
  ghost predicate Answered(cfg: Config, s: State, later: seq<Entry>, grown: seq<Mark>) {
    Lists(later, grown) && s.marks <= grown && S.TimesGrow(grown, cfg.delta)
  }

  /** The indexer meets both, however the stream is cut into buffers and however much of it comes in between. */
  lemma IndexerMeets(cfg: Config, buffers: seq<seq<Byte>>, more: seq<seq<Byte>>, list: seq<Entry>, later: seq<Entry>,
                     t: int, i: nat)
    requires cfg.delta >= 0 && |Concat(buffers)| < TWO_62 && |Concat(buffers + more)| < TWO_62
    requires Lists(list, CollectAll(cfg, buffers).marks) && Lists(later, CollectAll(cfg, buffers + more).marks)
    requires i < |list| && S.MarkAtTime(CollectAll(cfg, buffers).marks, t, i)
    ensures Asked(cfg, CollectAll(cfg, buffers), Concat(buffers), list, t, i)
    ensures Answered(cfg, CollectAll(cfg, buffers), later, CollectAll(cfg, buffers + more).marks)
  {
    hide StateGood, CollectAll, Concat, S.MarkAtTime, S.TimesGrow;
    IndexSound(cfg, buffers);
    IndexSound(cfg, buffers + more);
    IndexGrows(cfg, buffers, more);
    S.MarksGrow(cfg, CollectAll(cfg, buffers + more), Concat(buffers + more));
  }

  lemma AskedOffset(cfg: Config, s: State, bytes: seq<Byte>, list: seq<Entry>, t: int, i: nat)
    requires Asked(cfg, s, bytes, list, t, i)
    ensures S.Listed(list) && S.SeekOffset(list, S.SeekSet, t, 0) == s.marks[i].offset
    ensures s.marks[i].offset < |bytes| && bytes[s.marks[i].offset] == SYNC
  {
    assert Sound(cfg, s.base, bytes, s.marks[i]);
    hide CarriesPcr, DecodePcr, Bit, Be16, MarksGood;
    S.MarksGrow(cfg, s, bytes);
    hide StateGood, S.MarkAtTime, S.OffsetAt, Lists;
    S.OffsetAtMeans(list, s.marks, t);
  }

  /** A flushing seek to time `t`, put in bytes by the seeker, is accepted by the element exactly when the cache has the
      entry's offset, which is then the one it seeks to; and a time before the first entry is refused. */
  lemma SeekGoesDown(cfg: Config, s: State, bytes: seq<Byte>, list: seq<Entry>, t: int, i: nat, up: S.SeekEvent,
                     duration: nat, e: E.Elem)
    requires Asked(cfg, s, bytes, list, t, i)
    requires up.format == TIME && up.startType == S.SeekSet
    requires E.Possible(e, E.SeekBegin(true, S.MapSeek(list, up, duration)))
    ensures S.Listed(list)
    ensures var r := E.Advance(e, E.SeekBegin(true, S.MapSeek(list, up, duration)));
      && (up.start == t && HasOffset(e.cache, s.marks[i].offset) ==>
            r.seeking == Some(s.marks[i].offset) && r.out == e.out + [E.FlushStart] && r.srcresult == E.Flushing)
      && (up.start == t && !HasOffset(e.cache, s.marks[i].offset) ==> r == e)
      && (up.start < s.marks[0].time ==> r == e)
  {
    hide StateGood, S.MarkAtTime, S.OffsetAt, Lists, HasOffset;
    AskedOffset(cfg, s, bytes, list, t, i);
    if up.start < s.marks[0].time {
      AskedTooEarly(cfg, s, bytes, list, t, i, up.start);
    }
  }

  lemma AskedTooEarly(cfg: Config, s: State, bytes: seq<Byte>, list: seq<Entry>, t: int, i: nat, early: int)
    requires Asked(cfg, s, bytes, list, t, i) && early < s.marks[0].time
    ensures S.Listed(list) && S.OffsetAt(list, early) == -1
  {
    S.MarksGrow(cfg, s, bytes);
    hide StateGood, S.MarkAtTime, S.OffsetAt, Lists;
    S.OffsetAtMeans(list, s.marks, early);
    assert forall j :: 0 <= j < |s.marks| ==> s.marks[0].time <= s.marks[j].time;
  }

  /** The element is about to finish the seek to the offset that the seeker has made of `t`, which the cache accepts and
      has received. */
  ghost predicate AtSeekEnd(e: E.Elem, bytes: seq<Byte>, o: nat) {
    && E.ElemOrderly(e) && e.stream <= bytes
    && E.Possible(e, E.SeekEnd) && e.seeking == Some(o)
    && HasOffset(e.cache, o) && o < e.cache.hOffset
  }

  /** A seek to a time from the first entry on, all the way: the offset asked of the cache is that of a packet with a
      PCR; the next SEGMENT and the next buffer start at one byte `b`, no later; and what the seeker makes of both on
      the way down is one time, no later than the entry's, which is the entry's own if the cache has landed on the very
      byte, and is missing exactly when the cache has landed before the first entry. */
  lemma TimeSeek(cfg: Config, s: State, bytes: seq<Byte>, list: seq<Entry>, t: int, i: nat, later: seq<Entry>,
                 grown: seq<Mark>, e: E.Elem, acts: seq<E.Act>)
    requires Asked(cfg, s, bytes, list, t, i) && Answered(cfg, s, later, grown)
    requires AtSeekEnd(e, bytes, s.marks[i].offset) && E.Quiet(acts) && E.CanGo(E.Advance(e, E.SeekEnd), acts)
    requires var r := E.Go(E.Advance(e, E.SeekEnd), acts); PopBuffer(r.cache, r.isEos).Some?
    ensures S.Listed(list) && S.Listed(later)
    ensures var o := s.marks[i].offset;
      var r := E.Go(E.Advance(e, E.SeekEnd), acts);
      var buffer := PopBuffer(r.cache, r.isEos).value;
      var b := buffer.offset;
      && S.SeekOffset(list, S.SeekSet, t, 0) == o && o < |e.stream| && e.stream[o] == SYNC
      && E.PopAndSend(r).out == e.out + [E.FlushStop, E.Segment(b), E.Data(buffer)]
      && (Short(r.cache.hOffset) || PopSafe(r.cache, r.isEos) ==>
            var more := acts + [E.Loop];
            && E.CanGo(E.Advance(e, E.SeekEnd), more)
            && E.Go(E.Advance(e, E.SeekEnd), more).out == e.out + [E.FlushStop, E.Segment(b), E.Data(buffer)])
      && b <= o && (e.cache.DiskUsable() || o < e.cache.hRb ==> o < b + SLOT_SIZE)
      && S.MapSegment(later, S.Segment(BYTES, true, 0, b, -1, 0)) ==
         S.Segment(TIME, true, 0, S.TimeAt(later, b), -1, S.TimeAt(later, b))
      && S.TimeOfByte(grown, b, S.TimeAt(later, b))
      && (s.marks[0].offset <= b ==> 0 <= S.TimeAt(later, b) <= s.marks[i].time <= t)
      && (b == o ==> S.TimeAt(later, b) == s.marks[i].time)
      && (S.TimeAt(later, b) == CLOCK_TIME_NONE <==> 0 < b < s.marks[0].offset)
  {
    hide StateGood, S.MarkAtTime, S.OffsetAt, S.TimeAt, S.TimeOfByte, S.TimesGrow, Lists, E.ElemOrderly, E.Advance,
         E.CanGo, E.Go, E.PopAndSend, PopBuffer, PopSafe, Short;
    AskedOffset(cfg, s, bytes, list, t, i);
    E.FirstAfterSeek(e, acts);
    SeekRestarts(e, acts);
    Lands(e, s.marks[i].offset);
    var r := E.Go(E.Advance(e, E.SeekEnd), acts);
    var b := PopBuffer(r.cache, r.isEos).value.offset;
    TimeOfLanding(cfg, list, s.marks, later, grown, t, i, b);
    SegmentOfLanding(cfg, later, grown, b);
  }

  lemma SegmentOfLanding(cfg: Config, later: seq<Entry>, grown: seq<Mark>, b: nat)
    requires Lists(later, grown) && S.TimesGrow(grown, cfg.delta)
    ensures S.Listed(later)
    ensures S.MapSegment(later, S.Segment(BYTES, true, 0, b, -1, 0)) ==
            S.Segment(TIME, true, 0, S.TimeAt(later, b), -1, S.TimeAt(later, b))
    ensures S.TimeOfByte(grown, b, S.TimeAt(later, b))
  {
    hide Lists, S.TimeAt, S.TimeOfByte, S.SmallMarks;
    S.SegmentExact(later, grown, S.Segment(BYTES, true, 0, b, -1, 0));
  }

  lemma Lands(e: E.Elem, o: nat)
    requires E.ElemOrderly(e) && E.Possible(e, E.SeekEnd) && e.seeking == Some(o)
    requires HasOffset(e.cache, o) && o < e.cache.hOffset
    ensures var b := E.Advance(e, E.SeekEnd).cache.NextOffset();
      b <= o && (e.cache.DiskUsable() || o < e.cache.hRb ==> o < b + SLOT_SIZE)
    ensures |e.stream| == e.cache.hOffset
  {
    hide Orderly, E.WellPlaced, E.Expected, SeekAllowed, NoneOut;
    LandsAtOrBefore(e.cache, o);
  }

  lemma TimeOfLanding(cfg: Config, list: seq<Entry>, marks: seq<Mark>, later: seq<Entry>, grown: seq<Mark>, t: int,
                      i: nat, b: nat)
    requires Lists(list, marks) && Lists(later, grown) && marks <= grown && S.TimesGrow(grown, cfg.delta)
    requires i < |marks| && S.MarkAtTime(marks, t, i) && b <= marks[i].offset
    ensures S.Listed(list) && S.Listed(later)
    ensures marks[0].offset <= b ==> 0 <= S.TimeAt(later, b) <= marks[i].time <= t
    ensures b == marks[i].offset ==> S.TimeAt(later, b) == marks[i].time
    ensures S.TimeAt(later, b) == CLOCK_TIME_NONE <==> 0 < b < marks[0].offset
  {
    hide Lists, S.TimeAt, S.MarkAtTime, S.SeekOffset;
    S.TimeAtExact(later, grown, cfg.delta, b);
    S.OffsetAtMeans(list, marks, t);
    assert marks[0].offset <= marks[i].offset;
    if marks[0].offset <= b {
      S.SeekRoundTrip(list, marks, later, grown, cfg.delta, t, i, b);
    }
  }

  // ---------------------------------------------------------------------------------------------------------------
  // A chain to which all this applies

  /** A packet that is nothing but adaptation field, with a PCR. */
  function PcrPacket(pid: Pid, base: Bits33): (r: seq<Byte>)
    ensures |r| == MIN_PACKET
  {
    EncodePacket(Packet(
      Header(false, false, false, pid, 0, true, false, 0, 183, false, false, false, true, 0),
      base, 0, 0, Zeros(MIN_PACKET - 12)))
  }

  /** It is taken for one on its own PID and on no other, and then its base is what is read; but not if random access
      points are asked for, unless it is the first one. */
  lemma PcrPacketCarries(pid: Pid, base: Bits33, other: int, delta: int, started: bool)
    ensures ParsePcr(Config(other, delta), started, PcrPacket(pid, base), 0) ==
            if other == pid && !(delta == -1 && started) then Some(base) else None
  {
    hide ParsePcr, EncodePacket;
    PacketParsed(Config(other, delta), started, Packet(
      Header(false, false, false, pid, 0, true, false, 0, 183, false, false, false, true, 0),
      base, 0, 0, Zeros(MIN_PACKET - 12)));
  }

  /** A seek in bytes to the start of the stream. */
  const TO_START: S.SeekEvent := S.SeekEvent(BYTES, false, S.SeekSet, 0, S.NoSeek, -1)

  /** The element that has received less than a slot of data, and has been asked to seek to its start. */
  function AskedToRestart(nslots: nat, data: Piece): E.Elem {
    E.Activated(nslots).(cache := New(nslots).(part := data, hOffset := |data|), stream := data,
                         srcresult := E.Flushing, seeking := Some(0), out := [E.FlushStart])
  }

  lemma RestartReached(nslots: nat, data: Piece)
    requires 1 <= nslots && data != []
    ensures var acts := [E.Chain(data), E.SeekBegin(true, TO_START)];
      E.CanGo(E.Activated(nslots), acts) && E.Go(E.Activated(nslots), acts) == AskedToRestart(nslots, data)
  {
    var e0 := E.Activated(nslots);
    var c1 := New(nslots).(part := data, hOffset := |data|);
    assert [] + data == data && data[..|data|] == data && data[|data|..] == [];
    assert Push(e0.cache, data) == c1 by {
      assert PushRing(c1, []) == c1;
    }
    var e1 := E.Advance(e0, E.Chain(data));
    assert e1 == e0.(cache := c1, stream := data);
    assert [E.Chain(data), E.SeekBegin(true, TO_START)][1..] == [E.SeekBegin(true, TO_START)];
    var back := E.SeekBegin(true, TO_START);
    assert [back][1..] == [];
    assert E.CanGo(e1, [back]) && E.Go(e1, [back]) == E.Advance(e1, back);
  }

  lemma RestartAtSeekEnd(nslots: nat, data: Piece)
    requires 1 <= nslots && data != []
    ensures AtSeekEnd(AskedToRestart(nslots, data), data, 0)
    ensures var e := E.Advance(AskedToRestart(nslots, data), E.SeekEnd);
      E.CanGo(e, [E.SinkEos]) && PopBuffer(E.Go(e, [E.SinkEos]).cache, true) == Some(Buffer(0, data, true))
  {
    var e := AskedToRestart(nslots, data);
    assert data[0..|data|] == data;
    var r := E.Advance(e, E.SeekEnd);
    assert r.cache == e.cache;
    assert E.CanGo(r, [E.SinkEos]) && E.Go(r, [E.SinkEos]) == E.Advance(r, E.SinkEos);
  }

  lemma OneMark(pid: Pid, base: Bits33, delta: int)
    ensures Collect(Config(pid, delta), INITIAL, PcrPacket(pid, base)) ==
            State(ToGst(base), 0, MIN_PACKET, [Mark(0, 0)])
  {
    hide ParsePcr, PcrPacket, ToGst;
    PcrPacketCarries(pid, base, pid, delta, false);
  }

  lemma TwoMarks(pid: Pid, base: Bits33)
    ensures var cfg, packet := Config(pid, 0), PcrPacket(pid, base);
      CollectAll(cfg, [packet, packet]).marks == [Mark(0, 0), Mark(0, MIN_PACKET)]
  {
    hide ParsePcr, PcrPacket, ToGst;
    var cfg, packet := Config(pid, 0), PcrPacket(pid, base);
    PcrPacketCarries(pid, base, pid, 0, true);
    OneMark(pid, base, 0);
    OneBuffer(cfg, packet);
    assert [packet, packet][..1] == [packet];
    assert Collect(cfg, State(ToGst(base), 0, MIN_PACKET, [Mark(0, 0)]), packet).marks
        == [Mark(0, 0)] + [Mark(0, MIN_PACKET)];
  }

  /** Without a distance in time the order of seeks can be lost: two packets with one and the same PCR are noted as two
      entries of one time; the seek to that time goes to the second, the seek just past it to the first. */
  lemma OrderIsLost(pid: Pid, base: Bits33, list: seq<Entry>)
    requires Lists(list, CollectAll(Config(pid, 0), [PcrPacket(pid, base), PcrPacket(pid, base)]).marks)
    ensures S.Listed(list)
    ensures S.SeekOffset(list, S.SeekSet, 0, 0) == MIN_PACKET && S.SeekOffset(list, S.SeekSet, 1, 0) == 0
  {
    TwoMarks(pid, base);
    hide CollectAll, Lists, S.OffsetAt, PcrPacket;
    var marks := [Mark(0, 0), Mark(0, MIN_PACKET)];
    S.OffsetAtMeans(list, marks, 0);
    S.OffsetAtMeans(list, marks, 1);
    assert S.MarkAtTime(marks, 0, 1) && S.MarkAtTime(marks, 1, 0);
    assert marks[1].offset == MIN_PACKET && marks[0].offset == 0;
  }

  /** What `TimeSeek` asks for does happen: one packet goes through indexer and element, playback is sent back to time
      0, and upstream ends. */
  lemma TimeSeekHappens(nslots: nat, pid: Pid, base: Bits33, delta: nat)
    requires 1 <= nslots
    ensures var cfg, packet := Config(pid, delta), PcrPacket(pid, base);
      var s, list := CollectAll(cfg, [packet]), [Entry(1, Assocs(Mark(0, 0)))];
      var e := AskedToRestart(nslots, packet);
      var r := E.Advance(e, E.SeekEnd);
      && Asked(cfg, s, Concat([packet]), list, 0, 0) && Answered(cfg, s, list, s.marks)
      && AtSeekEnd(e, Concat([packet]), s.marks[0].offset)
      && E.Quiet([E.SinkEos]) && E.CanGo(r, [E.SinkEos]) && PopBuffer(E.Go(r, [E.SinkEos]).cache, true).Some?
  {
    hide PcrPacket, StateGood, AtSeekEnd, E.Advance, E.Go, E.CanGo, PopBuffer, S.TimesGrow, Collect;
    var cfg, packet := Config(pid, delta), PcrPacket(pid, base);
    OneMark(pid, base, delta);
    OneBuffer(cfg, packet);
    RestartAtSeekEnd(nslots, packet);
    IndexSound(cfg, [packet]);
    S.MarksGrow(cfg, CollectAll(cfg, [packet]), packet);
  }

  lemma OneBuffer(cfg: Config, data: seq<Byte>)
    ensures Concat([data]) == data && CollectAll(cfg, [data]) == Collect(cfg, INITIAL, data)
  {
    hide Collect;
    assert [data][..0] == [];
    assert Concat([]) == [] && CollectAll(cfg, []) == INITIAL;
    assert [] + data == data;
  }
}
