/** The seeker of src/gsttimeshiftseeker.c: times to bytes on the way up, bytes to times on the way down. */
module Seeker {
  import opened Bytes
  import opened MemIndex
  import opened MemIndexSearch
  import opened TsIndexer

  // ---------------------------------------------------------------------------------------------------------------
  // Looking the index up

  predicate Listed(list: seq<Entry>) {
    AllLaid(list, LAYOUT)
  }

  /** The value in format `want` of the entry found before `v` in format `given`. */
  function LookupBefore(list: seq<Entry>, given: Format, v: int, want: Format): Option<int>
    requires Listed(list)
  {
    match ScanFormat(list, LAYOUT, Before, given, v)
    case Some(e) => AssocMap(e.assocs, want)
    case None => None
  }

  function OrElse(r: Option<int>, other: int): int {
    if r.Some? then r.value else other
  }

  /** gst_time_shift_seeker_bytes_to_stream_time. */
  function TimeAt(list: seq<Entry>, b: nat): int
    requires Listed(list)
  {
    OrElse(LookupBefore(list, BYTES, b, TIME), if b == 0 then 0 else CLOCK_TIME_NONE)
  }

  /** The time of the entry that lies a megabyte or more before the end; `duration` is what upstream reports, 0 if it
      does not. */
  function LastTime(list: seq<Entry>, duration: nat): int
    requires Listed(list)
  {
    OrElse(LookupBefore(list, BYTES, duration - 1000000, TIME), CLOCK_TIME_NONE)
  }

  /** The byte offset of the entry before time `pos`; -1 if there is none. */
  function OffsetAt(list: seq<Entry>, pos: int): int
    requires Listed(list)
  {
    OrElse(LookupBefore(list, TIME, pos, BYTES), -1)
  }

  datatype SeekType = NoSeek | SeekSet | SeekEnd

  /** gst_time_shift_seeker_seek, given an index. */
  function SeekOffset(list: seq<Entry>, how: SeekType, start: int, duration: nat): int
    requires Listed(list)
  {
    match how
    case NoSeek => -1
    case SeekSet => OffsetAt(list, start)
    case SeekEnd => OffsetAt(list, LastTime(list, duration) + start)
  }

  // ---------------------------------------------------------------------------------------------------------------
  // What the lookups mean for an index made of marks

  /** The latest mark at or before time `t`; of marks of one time, the latest if that time is `t`, else the first. */
  predicate MarkAtTime(marks: seq<Mark>, t: int, i: nat)
    requires i < |marks|
  {
    && marks[i].time <= t
    && (forall j :: 0 <= j < |marks| && marks[j].time <= t ==> marks[j].time <= marks[i].time)
    && (if marks[i].time == t then forall j :: i < j < |marks| ==> marks[j].time != t
        else forall j :: 0 <= j < i ==> marks[j].time != marks[i].time)
  }

  /** The last mark at or before offset `b`. */
  predicate MarkAtOffset(marks: seq<Mark>, b: int, i: nat)
    requires i < |marks|
  {
    marks[i].offset <= b && forall j :: i < j < |marks| ==> marks[j].offset > b
  }

  predicate Rising(marks: seq<Mark>) {
    forall i, j :: 0 <= i < j < |marks| ==> marks[i].offset < marks[j].offset
  }

  predicate SmallMarks(marks: seq<Mark>) {
    forall i :: 0 <= i < |marks| ==> Small(marks[i].time) && Small(marks[i].offset)
  }

  /** The values and the formats of the entry of mark `j`. */
  predicate EntryOfMark(list: seq<Entry>, marks: seq<Mark>, j: nat)
    requires |list| == |marks| && j < |marks|
  {
    var e, m := list[|marks| - 1 - j], marks[j];
    && HasPos(e, 0) && HasPos(e, 1) && Val(e, 0) == m.time && Val(e, 1) == m.offset
    && AssocMap(e.assocs, TIME) == Some(m.time) && AssocMap(e.assocs, BYTES) == Some(m.offset)
  }

  lemma ListedMarks(list: seq<Entry>, marks: seq<Mark>)
    requires Lists(list, marks) && SmallMarks(marks)
    ensures Listed(list) && ListPos(list, 0) && ListPos(list, 1)
    ensures Position(LAYOUT, TIME) == 0 && Position(LAYOUT, BYTES) == 1
    ensures forall j :: 0 <= j < |marks| ==> EntryOfMark(list, marks, j)
  {
    forall i | 0 <= i < |list|
      ensures Laid(list[i].assocs, LAYOUT)
    {
      assert list[i].assocs == Assocs(marks[|marks| - 1 - i]);
    }
    forall j | 0 <= j < |marks|
      ensures EntryOfMark(list, marks, j)
    {
      assert list[|marks| - 1 - j].assocs == Assocs(marks[j]);
      assert AssocMap(Assocs(marks[j])[1..], BYTES) == Some(marks[j].offset);
    }
    assert LAYOUT[1..] == [BYTES];
  }

  lemma FoundTime(list: seq<Entry>, marks: seq<Mark>, t: int, p: nat)
    requires Lists(list, marks) && ListPos(list, 0) && p < |list| && Finds(list, 0, Before, t, p)
    requires forall j :: 0 <= j < |marks| ==> EntryOfMark(list, marks, j)
    ensures MarkAtTime(marks, t, |marks| - 1 - p)
  {
    hide AssocMap;
    var i := |marks| - 1 - p;
    assert EntryOfMark(list, marks, i);
    forall j | 0 <= j < |marks|
      ensures Val(list[|marks| - 1 - j], 0) == marks[j].time
    {
      assert EntryOfMark(list, marks, j);
    }
  }

  lemma FoundOffset(list: seq<Entry>, marks: seq<Mark>, b: int, p: nat)
    requires Lists(list, marks) && ListPos(list, 1) && p < |list| && Finds(list, 1, Before, b, p) && Rising(marks)
    requires forall j :: 0 <= j < |marks| ==> EntryOfMark(list, marks, j)
    ensures MarkAtOffset(marks, b, |marks| - 1 - p)
  {
    hide AssocMap;
    var i := |marks| - 1 - p;
    assert EntryOfMark(list, marks, i);
    forall j | 0 <= j < |marks|
      ensures Val(list[|marks| - 1 - j], 1) == marks[j].offset
    {
      assert EntryOfMark(list, marks, j);
    }
  }

  lemma AtTimeOnce(marks: seq<Mark>, t: int, i: nat, j: nat)
    requires i < |marks| && j < |marks| && MarkAtTime(marks, t, i) && MarkAtTime(marks, t, j)
    ensures i == j
  {
  }

  /** A time maps to the offset of the latest mark at or before it, and to nothing if there is none. */
  lemma OffsetAtMeans(list: seq<Entry>, marks: seq<Mark>, t: int)
    requires Lists(list, marks) && SmallMarks(marks)
    ensures Listed(list)
    ensures forall i :: 0 <= i < |marks| && MarkAtTime(marks, t, i) ==> OffsetAt(list, t) == marks[i].offset
    ensures OffsetAt(list, t) == -1 <==> forall i :: 0 <= i < |marks| ==> marks[i].time > t
    ensures OffsetAt(list, t) != -1 ==> exists i :: 0 <= i < |marks| && MarkAtTime(marks, t, i)
  {
    ListedMarks(list, marks);
    ScanMeaning(list, 0, Before, t);
    hide AssocMap, Scan, Finds, MarkAtTime, Lists;
    match Scan(list, 0, Before, t)
    case Some(e) =>
      var p :| 0 <= p < |list| && list[p] == e && Finds(list, 0, Before, t, p);
      var i := |marks| - 1 - p;
      assert EntryOfMark(list, marks, i);
      FoundTime(list, marks, t, p);
      assert marks[i].time <= t by {
        AtTime(marks, t, i);
      }
      forall j | 0 <= j < |marks| && MarkAtTime(marks, t, j)
        ensures j == i
      {
        AtTimeOnce(marks, t, i, j);
      }
    case None =>
      forall j | 0 <= j < |marks|
        ensures marks[j].time > t && !MarkAtTime(marks, t, j)
      {
        assert EntryOfMark(list, marks, j);
        assert Val(list[|marks| - 1 - j], 0) > t;
        NotAtTime(marks, t, j);
      }
  }

  lemma AtTime(marks: seq<Mark>, t: int, i: nat)
    requires i < |marks| && MarkAtTime(marks, t, i)
    ensures marks[i].time <= t
  {
  }

  lemma NotAtTime(marks: seq<Mark>, t: int, i: nat)
    requires i < |marks| && marks[i].time > t
    ensures !MarkAtTime(marks, t, i)
  {
  }

  /** An offset maps to the time of the last mark at or before it, and to nothing if there is none. */
  lemma BeforeOffsetMeans(list: seq<Entry>, marks: seq<Mark>, b: int)
    requires Lists(list, marks) && SmallMarks(marks) && Rising(marks)
    ensures Listed(list)
    ensures forall i :: 0 <= i < |marks| && MarkAtOffset(marks, b, i) ==>
      LookupBefore(list, BYTES, b, TIME) == Some(marks[i].time)
    ensures LookupBefore(list, BYTES, b, TIME) == None <==> forall i :: 0 <= i < |marks| ==> marks[i].offset > b
  {
    ListedMarks(list, marks);
    ScanMeaning(list, 1, Before, b);
    hide AssocMap, Scan, Finds, Lists;
    match Scan(list, 1, Before, b)
    case Some(e) =>
      var p :| 0 <= p < |list| && list[p] == e && Finds(list, 1, Before, b, p);
      var i := |marks| - 1 - p;
      assert EntryOfMark(list, marks, i);
      FoundOffset(list, marks, b, p);
      assert marks[i].offset <= b;
    case None =>
      forall j | 0 <= j < |marks|
        ensures marks[j].offset > b
      {
        assert EntryOfMark(list, marks, j);
        assert Val(list[|marks| - 1 - j], 1) > b;
      }
  }

  // ---------------------------------------------------------------------------------------------------------------
  // There and back

  /** What the indexer guarantees of its marks when it asks for a distance in time, as the two maps need it. */
  predicate TimesGrow(marks: seq<Mark>, delta: int) {
    && delta >= 0 && Rising(marks) && SmallMarks(marks)
    && (marks != [] ==> marks[0].time == 0)
    && forall i, j :: 0 <= i < j < |marks| ==> marks[i].time + delta <= marks[j].time
  }

  lemma MarksGrow(cfg: Config, s: State, stream: seq<Byte>)
    requires StateGood(cfg, s, stream) && cfg.delta >= 0 && |stream| < TWO_62
    ensures TimesGrow(s.marks, cfg.delta)
  {
    hide CarriesPcr, DecodePcr, Bit, Be16;
    forall i | 0 <= i < |s.marks|
      ensures Small(s.marks[i].time) && Small(s.marks[i].offset)
    {
      assert Sound(cfg, s.base, stream, s.marks[i]);
      PcrBounded(stream, s.marks[i].offset + 6);
    }
  }

  /** A SET seek to a time the index covers maps to the offset of the latest entry at or before it. Any byte from the
      first entry up to that offset maps back to no later a time, even when the index has grown since, and the offset
      itself maps back exactly; with a distance in time it is the only such byte that does. */
  lemma SeekRoundTrip(list: seq<Entry>, marks: seq<Mark>, later: seq<Entry>, grown: seq<Mark>, delta: int, t: int,
                      i: nat, b: nat)
    requires Lists(list, marks) && Lists(later, grown) && marks <= grown && TimesGrow(grown, delta)
    requires i < |marks| && MarkAtTime(marks, t, i) && marks[0].offset <= b <= marks[i].offset
    ensures Listed(list) && Listed(later) && SeekOffset(list, SeekSet, t, 0) == marks[i].offset
    ensures 0 <= TimeAt(later, b) <= marks[i].time <= t
    ensures b == marks[i].offset ==> TimeAt(later, b) == marks[i].time
    ensures delta > 0 && TimeAt(later, b) == marks[i].time ==> b == marks[i].offset
  {
    PrefixSmall(marks, grown, delta);
    hide TimesGrow, LookupBefore, OffsetAt, Lists, SmallMarks, Rising, MarkAtTime, MarkAtOffset;
    GrowFacts(grown, delta);
    OffsetAtMeans(list, marks, t);
    BeforeOffsetMeans(later, grown, b);
    AtTime(marks, t, i);
    var j := LastBefore(grown, b);
    BackNoLater(grown, delta, i, j, b);
  }

  lemma PrefixSmall(marks: seq<Mark>, grown: seq<Mark>, delta: int)
    requires marks <= grown && TimesGrow(grown, delta)
    ensures SmallMarks(marks)
  {
  }

  lemma BackNoLater(marks: seq<Mark>, delta: int, i: nat, j: nat, b: nat)
    requires TimesGrow(marks, delta) && i < |marks| && j < |marks|
    requires MarkAtOffset(marks, b, j) && b <= marks[i].offset
    ensures 0 <= marks[j].time <= marks[i].time
    ensures b == marks[i].offset ==> marks[j].time == marks[i].time
    ensures delta > 0 && marks[j].time == marks[i].time ==> b == marks[i].offset
  {
  }

  function LastBefore(marks: seq<Mark>, b: nat): (i: nat)
    requires Rising(marks) && marks != [] && marks[0].offset <= b
    ensures i < |marks| && MarkAtOffset(marks, b, i)
  {
    if marks[|marks| - 1].offset <= b then |marks| - 1
    else LastBefore(marks[..|marks| - 1], b)
  }

  /** `t` is the time of byte `b`: that of the last mark at or before it; if there is none, 0 for the first byte, and
      none at all for others. */
  predicate TimeOfByte(marks: seq<Mark>, b: nat, t: int) {
    if forall i :: 0 <= i < |marks| ==> marks[i].offset > b then t == if b == 0 then 0 else CLOCK_TIME_NONE
    else exists i :: 0 <= i < |marks| && MarkAtOffset(marks, b, i) && t == marks[i].time
  }

  lemma TimeAtMeans(list: seq<Entry>, marks: seq<Mark>, b: nat)
    requires Lists(list, marks) && SmallMarks(marks) && Rising(marks)
    ensures Listed(list) && TimeOfByte(marks, b, TimeAt(list, b))
  {
    BeforeOffsetMeans(list, marks, b);
    hide LookupBefore, Lists, SmallMarks;
    if i: nat :| i < |marks| && marks[i].offset <= b {
      assert marks[0].offset <= b;
      var j := LastBefore(marks, b);
    }
  }

  /** A byte has a time if and only if it is the first byte of the stream or an entry lies at or before it. */
  lemma TimeAtExact(list: seq<Entry>, marks: seq<Mark>, delta: int, b: nat)
    requires Lists(list, marks) && TimesGrow(marks, delta)
    ensures Listed(list)
    ensures TimeAt(list, b) != CLOCK_TIME_NONE <==> b == 0 || (marks != [] && marks[0].offset <= b)
  {
    BeforeOffsetMeans(list, marks, b);
    if marks != [] && marks[0].offset <= b {
      var j := LastBefore(marks, b);
      assert marks[j].time >= 0;
    }
  }

  /** A seek relative to the end is a seek relative to the time of the last entry at least a megabyte before it; to that
      end itself it goes to that very entry, if entries are a distance in time apart. */
  lemma SeekEndExact(list: seq<Entry>, marks: seq<Mark>, delta: int, start: int, duration: nat, j: nat)
    requires Lists(list, marks) && TimesGrow(marks, delta)
    requires j < |marks| && MarkAtOffset(marks, duration - 1000000, j)
    ensures Listed(list)
    ensures SeekOffset(list, SeekEnd, start, duration) == SeekOffset(list, SeekSet, marks[j].time + start, 0)
    ensures start == 0 && delta > 0 ==> SeekOffset(list, SeekEnd, start, duration) == marks[j].offset
  {
    hide TimesGrow, LookupBefore, OffsetAt, Lists, SmallMarks, Rising, MarkAtTime, MarkAtOffset;
    GrowFacts(marks, delta);
    BeforeOffsetMeans(list, marks, duration - 1000000);
    if start == 0 && delta > 0 {
      AtItsTime(marks, delta, j);
      OffsetAtMeans(list, marks, marks[j].time);
    }
  }

  lemma GrowFacts(marks: seq<Mark>, delta: int)
    requires TimesGrow(marks, delta)
    ensures Rising(marks) && SmallMarks(marks)
  {
  }

  lemma AtItsTime(marks: seq<Mark>, delta: int, j: nat)
    requires TimesGrow(marks, delta) && delta > 0 && j < |marks|
    ensures MarkAtTime(marks, marks[j].time, j)
  {
  }

  /** While no entry is that far from the end, the missing time counts as -1: the seek fails exactly when it asks for no
      more than the time 0, and otherwise silently becomes a seek from the start. */
  lemma SeekEndShort(list: seq<Entry>, marks: seq<Mark>, delta: int, start: int, duration: nat)
    requires Lists(list, marks) && TimesGrow(marks, delta) && marks != []
    requires forall j :: 0 <= j < |marks| ==> marks[j].offset > duration - 1000000
    ensures Listed(list)
    ensures SeekOffset(list, SeekEnd, start, duration) == SeekOffset(list, SeekSet, start - 1, 0)
    ensures SeekOffset(list, SeekEnd, start, duration) == -1 <==> start <= 0
  {
    hide TimesGrow, LookupBefore, OffsetAt, Lists, SmallMarks, Rising, MarkAtTime, MarkAtOffset;
    GrowFacts(marks, delta);
    BeforeOffsetMeans(list, marks, duration - 1000000);
    OffsetAtMeans(list, marks, start - 1);
    AllLater(marks, delta, start - 1);
  }

  lemma AllLater(marks: seq<Mark>, delta: int, t: int)
    requires TimesGrow(marks, delta) && marks != []
    ensures (forall i :: 0 <= i < |marks| ==> marks[i].time > t) <==> t < 0
  {
  }

  // ---------------------------------------------------------------------------------------------------------------
  // Events and buffers

  datatype Segment = Segment(format: Format, reset: bool, base: int, start: int, stop: int, time: int)

  datatype SeekEvent = SeekEvent(
    format: Format, reverse: bool, startType: SeekType, start: int, stopType: SeekType, stop: int)

  /** A SEGMENT in bytes, put in times; `stop` is -1 if there is none. */
  function MapSegment(list: seq<Entry>, s: Segment): Segment
    requires Listed(list) && s.start >= 0 && s.stop >= -1
  {
    s.(format := TIME, base := 0, start := TimeAt(list, s.start), time := TimeAt(list, s.start),
       stop := if s.stop == -1 then -1 else TimeAt(list, s.stop))
  }

  /** One end of a seek in times, put in bytes. */
  function MapEnd(list: seq<Entry>, how: SeekType, value: int, duration: nat): (SeekType, int)
    requires Listed(list)
  {
    if how == NoSeek then (how, value) else (SeekSet, SeekOffset(list, how, value, duration))
  }

  function MapSeek(list: seq<Entry>, e: SeekEvent, duration: nat): SeekEvent
    requires Listed(list)
  {
    var (startType, start) := MapEnd(list, e.startType, e.start, duration);
    var (stopType, stop) := MapEnd(list, e.stopType, e.stop, duration);
    SeekEvent(BYTES, e.reverse, startType, start, stopType, stop)
  }

  /** The search for a time stays within what the index can compare. */
  predicate Searchable(list: seq<Entry>, how: SeekType, value: int, duration: nat)
    requires Listed(list)
  {
    Small(value) && (how == SeekEnd ==> Small(LastTime(list, duration) + value))
  }

  /** A SEGMENT in bytes becomes one in times, with base 0, that resets what it did before: it starts at the time of the
      byte it started at, which is also the stamp of a buffer that starts there, and stops, if it does, at the time of
      the byte it stopped at. */
  lemma SegmentExact(list: seq<Entry>, marks: seq<Mark>, s: Segment)
    requires Lists(list, marks) && SmallMarks(marks) && Rising(marks) && s.start >= 0 && s.stop >= -1
    ensures Listed(list)
    ensures var r := MapSegment(list, s);
      && r.format == TIME && r.base == 0 && r.reset == s.reset
      && r.start == TimeAt(list, s.start) && TimeOfByte(marks, s.start, r.start) && r.time == r.start
      && (if s.stop == -1 then r.stop == -1 else TimeOfByte(marks, s.stop, r.stop))
  {
    hide TimeAt, TimeOfByte, Lists, SmallMarks;
    TimeAtMeans(list, marks, s.start);
    if s.stop != -1 {
      TimeAtMeans(list, marks, s.stop);
    }
  }

  /** `o` is the offset of time `t`: that of the latest mark at or before it, and -1 if there is none. */
  predicate OffsetOfTime(marks: seq<Mark>, t: int, o: int) {
    if forall i :: 0 <= i < |marks| ==> marks[i].time > t then o == -1
    else exists i :: 0 <= i < |marks| && MarkAtTime(marks, t, i) && o == marks[i].offset
  }

  /** `t` is the time of the last mark a megabyte or more before the end, and -1 if there is none. */
  predicate TimeOfEnd(marks: seq<Mark>, duration: nat, t: int) {
    if forall i :: 0 <= i < |marks| ==> marks[i].offset > duration - 1000000 then t == -1
    else exists i :: 0 <= i < |marks| && MarkAtOffset(marks, duration - 1000000, i) && t == marks[i].time
  }

  /** One end of a seek, translated: one that is not set is left alone, one that is becomes a place from the start. */
  ghost predicate Translated(marks: seq<Mark>, how: SeekType, value: int, duration: nat, how': SeekType, value': int) {
    match how
    case NoSeek => how' == NoSeek && value' == value
    case SeekSet => how' == SeekSet && OffsetOfTime(marks, value, value')
    case SeekEnd =>
      && how' == SeekSet
      && exists last: int :: TimeOfEnd(marks, duration, last) && OffsetOfTime(marks, last + value, value')
  }

  lemma OffsetMeans(list: seq<Entry>, marks: seq<Mark>, t: int)
    requires Lists(list, marks) && SmallMarks(marks)
    ensures Listed(list) && OffsetOfTime(marks, t, OffsetAt(list, t))
  {
    OffsetAtMeans(list, marks, t);
    hide OffsetAt, Lists, SmallMarks, MarkAtTime;
  }

  lemma LastTimeMeans(list: seq<Entry>, marks: seq<Mark>, duration: nat)
    requires Lists(list, marks) && SmallMarks(marks) && Rising(marks)
    ensures Listed(list) && TimeOfEnd(marks, duration, LastTime(list, duration))
  {
    BeforeOffsetMeans(list, marks, duration - 1000000);
    hide LookupBefore, Lists, SmallMarks;
    if i: nat :| i < |marks| && marks[i].offset <= duration - 1000000 {
      assert marks[0].offset <= duration - 1000000;
      var j := LastBefore(marks, duration - 1000000);
    }
  }

  lemma EndTranslated(list: seq<Entry>, marks: seq<Mark>, how: SeekType, value: int, duration: nat)
    requires Lists(list, marks) && SmallMarks(marks) && Rising(marks)
    ensures Listed(list)
    ensures Translated(marks, how, value, duration, MapEnd(list, how, value, duration).0,
                       MapEnd(list, how, value, duration).1)
  {
    hide OffsetAt, LastTime, Lists, SmallMarks, Rising, OffsetOfTime, TimeOfEnd;
    OffsetMeans(list, marks, value);
    if how == SeekEnd {
      LastTimeMeans(list, marks, duration);
      OffsetMeans(list, marks, LastTime(list, duration) + value);
    }
  }

  /** A seek in times becomes one in bytes, in the same direction, both of whose ends are translated. */
  lemma SeekExact(list: seq<Entry>, marks: seq<Mark>, e: SeekEvent, duration: nat)
    requires Lists(list, marks) && SmallMarks(marks) && Rising(marks)
    ensures Listed(list)
    ensures var r := MapSeek(list, e, duration);
      && r.format == BYTES && r.reverse == e.reverse
      && Translated(marks, e.startType, e.start, duration, r.startType, r.start)
      && Translated(marks, e.stopType, e.stop, duration, r.stopType, r.stop)
  {
    hide Lists, SmallMarks, Rising, Translated, MapEnd;
    EndTranslated(list, marks, e.startType, e.start, duration);
    EndTranslated(list, marks, e.stopType, e.stop, duration);
  }

  /** A SEGMENT in order stays in order, unless its stop comes before the first entry: then the stop is lost. */
  lemma SegmentOrder(list: seq<Entry>, marks: seq<Mark>, delta: int, s: Segment)
    requires Lists(list, marks) && TimesGrow(marks, delta) && 0 <= s.start <= s.stop
    ensures Listed(list)
    ensures var r := MapSegment(list, s);
      && r.time == r.start
      && (r.stop == -1 <==> s.stop > 0 && (marks == [] || s.stop < marks[0].offset))
      && (r.stop != -1 ==> r.start <= r.stop)
  {
    hide LookupBefore, Lists, SmallMarks, TimeAt;
    TimeAtExact(list, marks, delta, s.start);
    TimeAtExact(list, marks, delta, s.stop);
    TimeAtGrows(list, marks, delta, s.start, s.stop);
  }

  /** Of two bytes with a time the later one has no earlier a time. */
  lemma TimeAtGrows(list: seq<Entry>, marks: seq<Mark>, delta: int, a: nat, b: nat)
    requires Lists(list, marks) && TimesGrow(marks, delta) && a <= b
    ensures Listed(list)
    ensures TimeAt(list, b) != CLOCK_TIME_NONE ==> TimeAt(list, a) <= TimeAt(list, b)
  {
    hide LookupBefore, Lists, TimesGrow, SmallMarks, Rising, MarkAtOffset;
    GrowFacts(marks, delta);
    BeforeOffsetMeans(list, marks, a);
    BeforeOffsetMeans(list, marks, b);
    if marks != [] && marks[0].offset <= a {
      var i, j := LastBefore(marks, a), LastBefore(marks, b);
      LaterMark(marks, delta, a, b, i, j);
    } else if marks != [] && marks[0].offset <= b {
      NoneBefore(marks, a);
      TimesFromZero(marks, delta, LastBefore(marks, b));
    } else {
      NoneBefore(marks, a);
      NoneBefore(marks, b);
    }
  }

  lemma LaterMark(marks: seq<Mark>, delta: int, a: nat, b: nat, i: nat, j: nat)
    requires TimesGrow(marks, delta) && i < |marks| && j < |marks| && a <= b
    requires MarkAtOffset(marks, a, i) && MarkAtOffset(marks, b, j)
    ensures marks[i].time <= marks[j].time
  {
    assert i <= j;
  }

  lemma NoneBefore(marks: seq<Mark>, b: nat)
    requires Rising(marks) && (marks == [] || marks[0].offset > b)
    ensures forall i :: 0 <= i < |marks| ==> marks[i].offset > b
  {
  }

  lemma TimesFromZero(marks: seq<Mark>, delta: int, i: nat)
    requires TimesGrow(marks, delta) && i < |marks|
    ensures marks[i].time >= 0
  {
  }

  // ---------------------------------------------------------------------------------------------------------------
  // Whether later times map to later offsets

  ghost predicate OffsetsGrow(list: seq<Entry>)
    requires Listed(list)
  {
    forall t: int, u: int :: t <= u ==> OffsetAt(list, t) <= OffsetAt(list, u)
  }

  predicate TimesDistinct(marks: seq<Mark>) {
    forall i, j :: 0 <= i < j < |marks| ==> marks[i].time != marks[j].time
  }

  /** For every index the indexer makes when it asks for a distance in time, be it 0, a later time maps to no earlier an
      offset, whatever the two times, if and only if no two entries are of one time: of entries of one time an exact
      lookup takes the last and a nearest one the first. */
  lemma SeekOrderExact(cfg: Config, s: State, stream: seq<Byte>, list: seq<Entry>)
    requires StateGood(cfg, s, stream) && cfg.delta >= 0 && |stream| < TWO_62 && Lists(list, s.marks)
    ensures Listed(list)
    ensures OffsetsGrow(list) <==> TimesDistinct(s.marks)
    ensures cfg.delta > 0 ==> OffsetsGrow(list)
  {
    hide StateGood, OffsetAt, Lists, TimesGrow, SmallMarks, TimesDistinct;
    MarksGrow(cfg, s, stream);
    GrowFacts(s.marks, cfg.delta);
    OffsetAtMeans(list, s.marks, 0);
    DistinctIfSpaced(s.marks, cfg.delta);
    if TimesDistinct(s.marks) {
      forall t: int, u: int | t <= u
        ensures OffsetAt(list, t) <= OffsetAt(list, u)
      {
        SeekOrder(list, s.marks, cfg.delta, t, u);
      }
    } else {
      var i, j := TwoOfOneTime(s.marks);
      TimesFarApart(cfg, s, stream);
      TieLosesOrder(list, s.marks, cfg.delta, i, j);
    }
  }

  lemma DistinctIfSpaced(marks: seq<Mark>, delta: int)
    requires TimesGrow(marks, delta)
    ensures delta > 0 ==> TimesDistinct(marks)
  {
  }

  lemma TwoOfOneTime(marks: seq<Mark>) returns (i: nat, j: nat)
    requires !TimesDistinct(marks)
    ensures i < j < |marks| && marks[i].time == marks[j].time
  {
    i, j :| 0 <= i < j < |marks| && marks[i].time == marks[j].time;
  }

  /** Times are those of ticks: two that differ, differ by more than one. */
  predicate FarApart(marks: seq<Mark>) {
    forall i, j :: 0 <= i < |marks| && 0 <= j < |marks| ==> marks[j].time != marks[i].time + 1
  }

  lemma TimesFarApart(cfg: Config, s: State, stream: seq<Byte>)
    requires StateGood(cfg, s, stream)
    ensures FarApart(s.marks)
  {
    hide CarriesPcr, DecodePcr, ToGst;
    forall i, j | 0 <= i < |s.marks| && 0 <= j < |s.marks|
      ensures s.marks[j].time != s.marks[i].time + 1
    {
      assert Sound(cfg, s.base, stream, s.marks[i]) && Sound(cfg, s.base, stream, s.marks[j]);
      TicksFarApart(DecodePcr(stream, s.marks[i].offset + 6), DecodePcr(stream, s.marks[j].offset + 6));
    }
  }

  lemma TicksFarApart(a: nat, b: nat)
    ensures ToGst(b) != ToGst(a) + 1
  {
    if a < b {
      ToGstGrows(a, b);
    } else if b < a {
      ToGstGrows(b, a);
    }
  }

  /** The seek to the time of two entries goes to the later one, or behind; the seek just past it to the earlier one, or
      before it. */
  lemma TieLosesOrder(list: seq<Entry>, marks: seq<Mark>, delta: int, i: nat, j: nat)
    requires Lists(list, marks) && TimesGrow(marks, delta) && FarApart(marks)
    requires i < j < |marks| && marks[i].time == marks[j].time
    ensures Listed(list) && OffsetAt(list, marks[i].time + 1) < OffsetAt(list, marks[i].time)
  {
    hide OffsetAt, Lists, TimesGrow, SmallMarks, MarkAtTime, FarApart;
    GrowFacts(marks, delta);
    var t := marks[i].time;
    OffsetAtMeans(list, marks, t);
    OffsetAtMeans(list, marks, t + 1);
    var k :| 0 <= k < |marks| && MarkAtTime(marks, t, k);
    var m :| 0 <= m < |marks| && MarkAtTime(marks, t + 1, m);
    LastOfTie(marks, i, j, k);
    FirstOfTie(marks, i, m);
  }

  lemma LastOfTie(marks: seq<Mark>, i: nat, j: nat, k: nat)
    requires i < |marks| && j < |marks| && k < |marks| && marks[i].time == marks[j].time
    requires MarkAtTime(marks, marks[i].time, k)
    ensures j <= k
  {
  }

  lemma FirstOfTie(marks: seq<Mark>, i: nat, m: nat)
    requires FarApart(marks) && i < |marks| && m < |marks| && MarkAtTime(marks, marks[i].time + 1, m)
    ensures m <= i
  {
    assert marks[m].time != marks[i].time + 1;
    assert marks[m].time == marks[i].time;
  }

  lemma SeekOrder(list: seq<Entry>, marks: seq<Mark>, delta: int, t: int, u: int)
    requires Lists(list, marks) && TimesGrow(marks, delta) && TimesDistinct(marks) && t <= u
    ensures Listed(list) && OffsetAt(list, t) <= OffsetAt(list, u)
  {
    hide OffsetAt, Lists, TimesGrow, SmallMarks, MarkAtTime, TimesDistinct;
    GrowFacts(marks, delta);
    OffsetAtMeans(list, marks, t);
    OffsetAtMeans(list, marks, u);
    if OffsetAt(list, t) != -1 {
      var i :| 0 <= i < |marks| && MarkAtTime(marks, t, i);
      AtTime(marks, t, i);
      var j :| 0 <= j < |marks| && MarkAtTime(marks, u, j);
      LaterTime(marks, delta, t, u, i, j);
    } else {
      assert forall j :: 0 <= j < |marks| ==> marks[j].offset >= 0;
    }
  }

  lemma LaterTime(marks: seq<Mark>, delta: int, t: int, u: int, i: nat, j: nat)
    requires TimesGrow(marks, delta) && TimesDistinct(marks) && t <= u && i < |marks| && j < |marks|
    requires MarkAtTime(marks, t, i) && MarkAtTime(marks, u, j)
    ensures marks[i].offset <= marks[j].offset
  {
    assert marks[i].time <= marks[j].time;
    assert i <= j;
  }

  class TimeShiftSeeker {
    const index: FluTsIndex?
    var timestampNextBuffer: bool

    ghost function Repr(): set<object> {
      if index == null then {} else {index}
    }

    ghost predicate Valid()
      reads this, Repr()
    {
      && (index != null ==> index.Valid() && index.layout == LAYOUT)
      && (timestampNextBuffer ==> index != null)
    }

    constructor (index: FluTsIndex?)
      requires index != null ==> index.Valid() && index.layout == LAYOUT
      ensures Valid() && this.index == index && !timestampNextBuffer
    {
      this.index := index;
      timestampNextBuffer := false;
    }

    /** An entry found, if any, gives its value in the other format. */
    method Lookup(given: Format, value: int, want: Format) returns (found: Option<int>)
      requires Valid() && index != null && Small(value)
      modifies Repr()
      ensures Valid() && index.associations == old(index.associations)
      ensures found == LookupBefore(index.associations, given, value, want)
    {
      var entry := index.GetAssocEntry(Before, given, value);
      if entry.None? {
        return None;
      }
      found := EntryAssocMap(entry.value, want);
    }

    method BytesToStreamTime(offset: nat) returns (time: int)
      requires Valid() && index != null && Small(offset)
      modifies Repr()
      ensures Valid() && index.associations == old(index.associations)
      ensures time == TimeAt(index.associations, offset)
    {
      var found := Lookup(BYTES, offset, TIME);
      if found.Some? {
        time := found.value;
      } else if offset == 0 {
        time := 0;
      } else {
        time := CLOCK_TIME_NONE;
      }
    }

    /** `duration` is the answer of upstream to a query, 0 if it has none. */
    method GetLastTime(duration: nat) returns (time: int)
      requires Valid() && Small(duration)
      modifies Repr()
      ensures Valid() && (index == null ==> time == CLOCK_TIME_NONE)
      ensures index != null ==>
        index.associations == old(index.associations) && time == LastTime(index.associations, duration)
    {
      if index == null {
        return CLOCK_TIME_NONE;
      }
      var found := Lookup(BYTES, duration - 1000000, TIME);
      time := if found.Some? then found.value else CLOCK_TIME_NONE;
    }

    method SeekTo(how: SeekType, start: int, duration: nat) returns (offset: int)
      requires Valid() && Small(duration)
      requires index != null ==> Searchable(index.associations, how, start, duration)
      modifies Repr()
      ensures Valid() && (index == null ==> offset == -1)
      ensures index != null ==>
        index.associations == old(index.associations) && offset == SeekOffset(index.associations, how, start, duration)
    {
      offset := -1;
      if how == NoSeek || index == null {
        return;
      }
      var pos := start;
      if how == SeekEnd {
        var last := GetLastTime(duration);
        pos := last + start;
      }
      var found := Lookup(TIME, pos, BYTES);
      if found.Some? {
        offset := found.value;
      }
    }

    /** A SEGMENT on its way down: only one in bytes that resets is put in times, and only with an index; then the next
        buffer is to be stamped. */
    method SegmentEvent(s: Segment) returns (r: Segment)
      requires Valid() && s.start >= 0 && s.stop >= -1 && Small(s.start) && Small(s.stop)
      modifies this`timestampNextBuffer, Repr()
      ensures Valid() && (index != null ==> index.associations == old(index.associations))
      ensures if s.format == BYTES && s.reset && index != null
              then r == MapSegment(index.associations, s) && timestampNextBuffer
              else r == s && timestampNextBuffer == old(timestampNextBuffer)
    {
      r := s;
      if s.format != BYTES || !s.reset || index == null {
        return;
      }
      var start := BytesToStreamTime(s.start);
      r := r.(format := TIME, base := 0, start := start);
      if s.stop != -1 {
        var stop := BytesToStreamTime(s.stop);
        r := r.(stop := stop);
      }
      r := r.(time := r.start);
      timestampNextBuffer := true;
    }

    /** A buffer on its way down: the first one after a SEGMENT is stamped, the others are left alone. */
    method TransformIp(offset: nat, stamp: int) returns (r: int)
      requires Valid() && Small(offset)
      modifies this`timestampNextBuffer, Repr()
      ensures Valid() && !timestampNextBuffer && (index != null ==> index.associations == old(index.associations))
      ensures r == if old(timestampNextBuffer) then TimeAt(index.associations, offset) else stamp
    {
      r := stamp;
      if timestampNextBuffer {
        r := BytesToStreamTime(offset);
        timestampNextBuffer := false;
      }
    }

    /** A seek on its way up: only one in times, forward, is put in bytes, and only with an index. */
    method TransformSeek(e: SeekEvent, duration: nat) returns (r: SeekEvent)
      requires Valid() && Small(duration)
      requires index != null ==>
        && Searchable(index.associations, e.startType, e.start, duration)
        && Searchable(index.associations, e.stopType, e.stop, duration)
      modifies Repr()
      ensures Valid() && (index != null ==> index.associations == old(index.associations))
      ensures r == if e.format == TIME && index != null && !e.reverse then MapSeek(index.associations, e, duration)
                   else e
    {
      r := e;
      if e.format != TIME || index == null || e.reverse {
        return;
      }
      r := r.(format := BYTES);
      if e.startType != NoSeek {
        var start := SeekTo(e.startType, e.start, duration);
        r := r.(startType := SeekSet, start := start);
      }
      if e.stopType != NoSeek {
        var stop := SeekTo(e.stopType, e.stop, duration);
        r := r.(stopType := SeekSet, stop := stop);
      }
    }
  }
}
