/** The MPEG-TS indexer of src/gsttimeshifttsindexer.c: finding PCRs in a byte stream, and noting time and offset. */
module TsIndexer {
  import opened Bytes
  import opened MemIndex
  import opened MemIndexSearch

  const SYNC: int := 0x47
  const MIN_PACKET: nat := 188
  const MAX_PACKET: nat := 208
  const INVALID_PID: int := -1
  const CLOCK_TIME_NONE: int := -1

  const TIME: Format := 3
  const BYTES: Format := 2
  const LAYOUT: seq<Format> := [TIME, BYTES]

  // ---------------------------------------------------------------------------------------------------------------
  // Clocks

  /** 90 kHz ticks to nanoseconds, rounded down. */
  function ToGst(ticks: nat): nat {
    ticks * 100000 / 9
  }

  /** Nanoseconds to 90 kHz ticks, rounded down. */
  function ToMpeg(time: nat): nat {
    time * 9 / 100000
  }

  /** Later ticks are later times, by at least 11111 ns for each tick. */
  lemma ToGstGrows(a: nat, b: nat)
    requires a < b
    ensures ToGst(a) + 11111 * (b - a) <= ToGst(b)
  {
  }

  /** Converting back loses nothing if and only if the tick count is a multiple of nine, and else exactly one tick. */
  lemma ClockRoundTrip(ticks: nat)
    ensures ToMpeg(ToGst(ticks)) == if ticks % 9 == 0 then ticks else ticks - 1
  {
  }

  // ---------------------------------------------------------------------------------------------------------------
  // The program clock reference field

  function Bit(b: int, weight: int): bool
    requires weight > 0
  {
    b / weight % 2 == 1
  }

  function Be16(data: seq<Byte>, i: nat): nat
    requires i + 2 <= |data|
  {
    (data[i] as int) * 256 + data[i + 1] as int
  }

  function Be32(data: seq<Byte>, i: nat): nat
    requires i + 4 <= |data|
  {
    Be16(data, i) * 65536 + Be16(data, i + 2)
  }

  /** The base of the PCR in the six bytes from `i`: the step with the extension changes nothing, see `PcrRoundTrip`. */
  function DecodePcr(data: seq<Byte>, i: nat): nat
    requires i + 6 <= |data|
  {
    var pcr1, pcr2 := Be32(data, i), Be16(data, i + 4);
    var pcr := pcr1 * 2 + pcr2 / 0x8000;
    var ext := pcr2 % 0x200;
    if ext != 0 then (pcr * 300 + ext % 300) / 300 else pcr
  }

  function Bytes16(x: nat): seq<Byte>
    requires x < 0x1_0000
  {
    [x / 256, x % 256]
  }

  function Bytes32(x: nat): seq<Byte>
    requires x < 0x1_0000_0000
  {
    Bytes16(x / 0x1_0000) + Bytes16(x % 0x1_0000)
  }

  /** The field of ISO/IEC 13818-1 section 2.4.3.4: 33 bits of base, 6 reserved, 9 of extension. */
  function EncodePcr(base: nat, reserved: nat, ext: nat): seq<Byte>
    requires base < 0x2_0000_0000 && reserved < 64 && ext < 512
  {
    Bytes32(base / 2) + Bytes16(base % 2 * 0x8000 + reserved * 0x200 + ext)
  }

  lemma ExtensionDropped(pcr: nat, ext: nat)
    requires ext < 300
    ensures (pcr * 300 + ext) / 300 == pcr
  {
  }

  lemma Be32RoundTrip(x: nat, rest: seq<Byte>)
    requires x < 0x1_0000_0000
    ensures |Bytes32(x)| == 4 && Be32(Bytes32(x) + rest, 0) == x
  {
  }

  /** Decoding returns exactly the base that was encoded, whatever the extension and the reserved bits. */
  lemma PcrRoundTrip(base: nat, reserved: nat, ext: nat)
    requires base < 0x2_0000_0000 && reserved < 64 && ext < 512
    ensures |EncodePcr(base, reserved, ext)| == 6
    ensures DecodePcr(EncodePcr(base, reserved, ext), 0) == base
  {
    var low := base % 2 * 0x8000 + reserved * 0x200 + ext;
    var data := EncodePcr(base, reserved, ext);
    Be32RoundTrip(base / 2, Bytes16(low));
    assert Be16(data, 4) == low;
    assert low / 0x8000 == base % 2 && low % 0x200 == ext;
    ExtensionDropped(base, ext % 300);
  }

  lemma PcrBounded(data: seq<Byte>, i: nat)
    requires i + 6 <= |data|
    ensures DecodePcr(data, i) < 0x2_0000_0000
  {
    var pcr := Be32(data, i) * 2 + Be16(data, i + 4) / 0x8000;
    assert pcr < 0x2_0000_0000;
    ExtensionDropped(pcr, Be16(data, i + 4) % 0x200 % 300);
  }

  // ---------------------------------------------------------------------------------------------------------------
  // Packets

  /** The PID tracked and the time between entries; -1 asks for random access points instead. */
  datatype Config = Config(pid: int, delta: int)

  /** The packet at `i` carries a PCR on the tracked PID. */
  predicate CarriesPcr(cfg: Config, started: bool, data: seq<Byte>, i: nat)
    requires i + 12 <= |data|
  {
    && data[i] == SYNC
    && Bit(data[i + 3], 0x20)
    && Be16(data, i + 1) % 0x2000 == cfg.pid
    && data[i + 4] != 0
    && (cfg.delta == -1 && started ==> Bit(data[i + 5], 0x40))
    && Bit(data[i + 5], 0x10)
  }

  /** parse_pcr. */
  function ParsePcr(cfg: Config, started: bool, data: seq<Byte>, i: nat): Option<nat>
    requires i + 12 <= |data|
  {
    if CarriesPcr(cfg, started, data, i) then Some(DecodePcr(data, i + 6)) else None
  }

  /** A sync byte follows at the distance of one of the packet sizes. */
  predicate SyncFollows(data: seq<Byte>, i: nat) {
    || (i + 188 < |data| && data[i + 188] == SYNC)
    || (i + 192 < |data| && data[i + 192] == SYNC)
    || (i + 204 < |data| && data[i + 204] == SYNC)
    || (i + 208 < |data| && data[i + 208] == SYNC)
  }

  method IsNextSyncValid(data: seq<Byte>, offset: nat) returns (valid: bool)
    ensures valid <==> SyncFollows(data, offset)
  {
    var sizes := [188, 192, 204, 208];
    var i := 0;
    while i < 4 && offset + sizes[i] < |data|
      invariant 0 <= i <= 4
      invariant forall j :: 0 <= j < i ==> offset + sizes[j] < |data| && data[offset + sizes[j]] != SYNC
    {
      if data[offset + sizes[i]] == SYNC {
        return true;
      }
      i := i + 1;
    }
    assert forall j, k :: 0 <= j <= k < 4 ==> sizes[j] <= sizes[k];
    assert forall j :: i <= j < 4 ==> offset + sizes[j] >= |data|;
    assert sizes[0] == 188 && sizes[1] == 192 && sizes[2] == 204 && sizes[3] == 208;
    valid := false;
  }

  /** Where the scan of a buffer from `i` on stops, and the PCR found there. */
  function ScanFrom(cfg: Config, started: bool, data: seq<Byte>, i: nat): (r: Option<(nat, nat)>)
    ensures r.Some? ==> i <= r.value.0 && r.value.0 + MAX_PACKET < |data|
    ensures r.Some? ==> ParsePcr(cfg, started, data, r.value.0) == Some(r.value.1)
    decreases |data| - i
  {
    if i + MAX_PACKET >= |data| then None
    else if data[i] == SYNC && SyncFollows(data, i) then
      match ParsePcr(cfg, started, data, i)
      case Some(pcr) => Some((i, pcr))
      case None => ScanFrom(cfg, started, data, i + MIN_PACKET)
    else ScanFrom(cfg, started, data, i + 1)
  }

  /** What get_pcr finds: a buffer the size of one packet is parsed as it is, a larger one is scanned. */
  function FindPcr(cfg: Config, started: bool, data: seq<Byte>): (r: Option<(nat, nat)>)
    ensures r.Some? ==> r.value.0 + 12 <= |data| && ParsePcr(cfg, started, data, r.value.0) == Some(r.value.1)
  {
    if MIN_PACKET <= |data| <= MAX_PACKET then
      match ParsePcr(cfg, started, data, 0)
      case Some(pcr) => Some((0, pcr))
      case None => None
    else ScanFrom(cfg, started, data, 0)
  }

  /** get_pcr: the PCR, and data and offset moved on to the packet it was found in. */
  method GetPcr(cfg: Config, started: bool, data: seq<Byte>, offset: nat)
    returns (pcr: Option<nat>, rest: seq<Byte>, at: nat)
    ensures match FindPcr(cfg, started, data)
            case Some((i, p)) => pcr == Some(p) && rest == data[i..] && at == offset + i
            case None => pcr == None && rest == data && at == offset
  {
    pcr, rest, at := None, data, offset;
    if MIN_PACKET <= |data| <= MAX_PACKET {
      pcr := ParsePcr(cfg, started, data, 0);
    } else {
      var i := 0;
      while i + MAX_PACKET < |data|
        invariant ScanFrom(cfg, started, data, i) == ScanFrom(cfg, started, data, 0)
        invariant pcr == None && rest == data && at == offset
      {
        if data[i] == SYNC {
          var valid := IsNextSyncValid(data, i);
          if valid {
            pcr := ParsePcr(cfg, started, data, i);
            if pcr == None {
              i := i + (MIN_PACKET - 1);
            } else {
              rest, at := data[i..], offset + i;
              return;
            }
          }
        }
        i := i + 1;
      }
    }
  }

  // ---------------------------------------------------------------------------------------------------------------
  // What a buffer adds to the index

  /** A time, relative to the first PCR, and the stream offset it was found at. */
  datatype Mark = Mark(time: int, offset: nat)

  predicate Due(cfg: Config, last: int, time: int) {
    last == CLOCK_TIME_NONE || cfg.delta == -1 || time - last >= cfg.delta
  }

  /** Moves a find in the part of a buffer from `k` on to its place in the buffer. */
  function Shift(r: Option<(nat, nat)>, k: nat): Option<(nat, nat)> {
    match r
    case Some((i, p)) => Some((i + k, p))
    case None => None
  }

  /** The first PCR of a buffer that is due for the index: the scan starts again one byte after one that is not. */
  function FirstDue(cfg: Config, base: int, last: int, data: seq<Byte>): (r: Option<(nat, nat)>)
    ensures r.Some? ==> r.value.0 + 12 <= |data|
    decreases |data|
  {
    if |data| < MIN_PACKET then None
    else
      match FindPcr(cfg, base != CLOCK_TIME_NONE, data)
      case None => None
      case Some((i, pcr)) =>
        var b := if base == CLOCK_TIME_NONE then ToGst(pcr) else base;
        if Due(cfg, last, ToGst(pcr) - b) then Some((i, pcr))
        else Shift(FirstDue(cfg, b, last, data[i + 1..]), i + 1)
  }

  /** The mark lies on a packet of the stream with a PCR on the tracked PID, and has that PCR's time. */
  predicate Sound(cfg: Config, base: int, stream: seq<Byte>, m: Mark) {
    && m.offset + 12 <= |stream|
    && CarriesPcr(cfg, false, stream, m.offset)
    && m.time == ToGst(DecodePcr(stream, m.offset + 6)) - base
  }

  predicate AllSound(cfg: Config, base: int, stream: seq<Byte>, marks: seq<Mark>) {
    forall i :: 0 <= i < |marks| ==> Sound(cfg, base, stream, marks[i])
  }

  /** Offsets strictly increase and, unless random access points are asked for, times by at least the delta. */
  predicate Spaced(cfg: Config, marks: seq<Mark>) {
    && (forall i, j :: 0 <= i < j < |marks| ==> marks[i].offset < marks[j].offset)
    && (cfg.delta >= 0 ==> forall i, j :: 0 <= i < j < |marks| ==> marks[i].time + cfg.delta <= marks[j].time)
  }

  /** What a sound index looks like after the stream so far. */
  predicate MarksGood(cfg: Config, base: int, last: int, stream: seq<Byte>, marks: seq<Mark>) {
    && AllSound(cfg, base, stream, marks)
    && Spaced(cfg, marks)
    && (base == CLOCK_TIME_NONE <==> marks == [])
    && (last == CLOCK_TIME_NONE <==> marks == [])
    && (marks != [] ==> base >= 0 && marks[0].time == 0 && last == marks[|marks| - 1].time)
  }

  lemma DecodeShift(a: seq<Byte>, data: seq<Byte>, i: nat)
    requires i + 6 <= |data|
    ensures DecodePcr(a + data, |a| + i) == DecodePcr(data, i)
  {
    assert forall k :: 0 <= k < |data| ==> (a + data)[|a| + k] == data[k];
  }

  lemma CarriesShift(cfg: Config, started: bool, a: seq<Byte>, data: seq<Byte>, i: nat)
    requires i + 12 <= |data|
    ensures CarriesPcr(cfg, started, a + data, |a| + i) <==> CarriesPcr(cfg, started, data, i)
  {
  }

  /** One round of the search: nothing, a find, or on from one byte behind a find that is not due. */
  lemma FirstDueStep(cfg: Config, base: int, last: int, data: seq<Byte>)
    requires base == CLOCK_TIME_NONE ==> last == CLOCK_TIME_NONE
    ensures |data| < MIN_PACKET ==> FirstDue(cfg, base, last, data) == None
    ensures |data| >= MIN_PACKET ==>
      match FindPcr(cfg, base != CLOCK_TIME_NONE, data)
      case None => FirstDue(cfg, base, last, data) == None
      case Some((i, pcr)) =>
        && i < |data|
        && FirstDue(cfg, base, last, data) ==
           if Due(cfg, last, ToGst(pcr) - if base == CLOCK_TIME_NONE then ToGst(pcr) else base) then Some((i, pcr))
           else Shift(FirstDue(cfg, base, last, data[i + 1..]), i + 1)
  {
    hide ToGst, DecodePcr, CarriesPcr, ParsePcr, ScanFrom, FindPcr;
  }

  /** What is found is a PCR packet, and due. */
  lemma {:induction false} FirstDueFound(cfg: Config, base: int, last: int, data: seq<Byte>)
    requires FirstDue(cfg, base, last, data).Some? && (base == CLOCK_TIME_NONE ==> last == CLOCK_TIME_NONE)
    ensures var (i, pcr) := FirstDue(cfg, base, last, data).value;
      && CarriesPcr(cfg, false, data, i) && pcr == DecodePcr(data, i + 6)
      && Due(cfg, last, ToGst(pcr) - if base == CLOCK_TIME_NONE then ToGst(pcr) else base)
    decreases |data|
  {
    hide DecodePcr, Bit, Be16, ToGst, FirstDue, ScanFrom;
    FirstDueStep(cfg, base, last, data);
    var (i, pcr) := FindPcr(cfg, base != CLOCK_TIME_NONE, data).value;
    if !Due(cfg, last, ToGst(pcr) - if base == CLOCK_TIME_NONE then ToGst(pcr) else base) {
      var head, rest := data[..i + 1], data[i + 1..];
      assert head + rest == data;
      FirstDueFound(cfg, base, last, rest);
      var (j, p) := FirstDue(cfg, base, last, rest).value;
      DecodeShift(head, rest, j + 6);
      CarriesShift(cfg, false, head, rest, j);
    }
  }

  // ---------------------------------------------------------------------------------------------------------------
  // The indexer over a whole stream

  /** What the indexer keeps between buffers; `marks` is what it has put in the index, oldest first. */
  datatype State = State(base: int, last: int, offset: nat, marks: seq<Mark>)

  const INITIAL: State := State(CLOCK_TIME_NONE, CLOCK_TIME_NONE, 0, [])

  /** What collect_time makes of one buffer: at most one new mark. */
  function Collect(cfg: Config, s: State, data: seq<Byte>): State {
    if cfg.pid == INVALID_PID then s.(offset := s.offset + |data|)
    else
      match FirstDue(cfg, s.base, s.last, data)
      case None => s.(offset := s.offset + |data|)
      case Some((i, pcr)) =>
        var b := if s.base == CLOCK_TIME_NONE then ToGst(pcr) else s.base;
        var time := ToGst(pcr) - b;
        State(b, time, s.offset + |data|, s.marks + [Mark(time, s.offset + i)])
  }

  predicate StateGood(cfg: Config, s: State, stream: seq<Byte>) {
    s.offset == |stream| && MarksGood(cfg, s.base, s.last, stream, s.marks)
  }

  lemma SoundGrows(cfg: Config, base: int, stream: seq<Byte>, data: seq<Byte>, marks: seq<Mark>)
    requires AllSound(cfg, base, stream, marks)
    ensures AllSound(cfg, base, stream + data, marks)
  {
    hide DecodePcr, Bit, Be16, ToGst, CarriesPcr;
    forall i | 0 <= i < |marks|
      ensures Sound(cfg, base, stream + data, marks[i])
    {
      assert Sound(cfg, base, stream, marks[i]);
      var head, rest := stream[..marks[i].offset], stream[marks[i].offset..];
      assert head + rest == stream && head + (rest + data) == stream + data;
      PrefixSame(rest, data);
      CarriesPrefix(cfg, rest, data);
      CarriesShift(cfg, false, head, rest, 0);
      CarriesShift(cfg, false, head, rest + data, 0);
      DecodeShift(head, rest, 6);
      DecodeShift(head, rest + data, 6);
    }
  }

  lemma PrefixSame(a: seq<Byte>, b: seq<Byte>)
    requires |a| >= 12
    ensures DecodePcr(a + b, 6) == DecodePcr(a, 6)
  {
  }

  lemma CarriesPrefix(cfg: Config, a: seq<Byte>, b: seq<Byte>)
    requires |a| >= 12
    ensures CarriesPcr(cfg, false, a + b, 0) <==> CarriesPcr(cfg, false, a, 0)
  {
  }

  /** Times of PCRs are equal or far apart: no time is mistaken for the invalid one. */
  lemma TimesApart(a: nat, b: nat)
    ensures ToGst(a) - ToGst(b) != CLOCK_TIME_NONE
  {
  }

  lemma CollectGood(cfg: Config, s: State, stream: seq<Byte>, data: seq<Byte>)
    requires StateGood(cfg, s, stream)
    ensures StateGood(cfg, Collect(cfg, s, data), stream + data)
  {
    hide DecodePcr, Bit, Be16, ToGst, CarriesPcr, FirstDue;
    SoundGrows(cfg, s.base, stream, data, s.marks);
    if cfg.pid != INVALID_PID && FirstDue(cfg, s.base, s.last, data).Some? {
      FirstDueFound(cfg, s.base, s.last, data);
      var (i, pcr) := FirstDue(cfg, s.base, s.last, data).value;
      var r := Collect(cfg, s, data);
      var m := r.marks[|s.marks|];
      DecodeShift(stream, data, i + 6);
      CarriesShift(cfg, false, stream, data, i);
      assert Sound(cfg, r.base, stream + data, m);
      if s.marks != [] {
        NewTimeValid(cfg, s, stream, pcr);
      }
      SpacedAppend(cfg, s, stream, m);
    }
  }

  lemma NewTimeValid(cfg: Config, s: State, stream: seq<Byte>, pcr: nat)
    requires StateGood(cfg, s, stream) && s.marks != []
    ensures ToGst(pcr) - s.base != CLOCK_TIME_NONE
  {
    hide DecodePcr, Bit, Be16, ToGst, CarriesPcr;
    assert Sound(cfg, s.base, stream, s.marks[0]);
    TimesApart(pcr, DecodePcr(stream, s.marks[0].offset + 6));
  }

  lemma SpacedAppend(cfg: Config, s: State, stream: seq<Byte>, m: Mark)
    requires StateGood(cfg, s, stream) && m.offset >= |stream| && Due(cfg, s.last, m.time)
    ensures Spaced(cfg, s.marks + [m])
  {
    hide CarriesPcr, DecodePcr, ToGst;
    forall i | 0 <= i < |s.marks|
      ensures s.marks[i].offset < m.offset && (cfg.delta >= 0 ==> s.marks[i].time + cfg.delta <= m.time)
    {
      assert Sound(cfg, s.base, stream, s.marks[i]);
      assert cfg.delta >= 0 ==> s.marks[i].time <= s.last;
    }
  }

  function Concat(buffers: seq<seq<Byte>>): seq<Byte> {
    if buffers == [] then [] else Concat(buffers[..|buffers| - 1]) + buffers[|buffers| - 1]
  }

  function CollectAll(cfg: Config, buffers: seq<seq<Byte>>): State {
    if buffers == [] then INITIAL
    else Collect(cfg, CollectAll(cfg, buffers[..|buffers| - 1]), buffers[|buffers| - 1])
  }

  /** However the stream is cut into buffers: every mark is the absolute position of the sync byte of a PCR packet on
      the tracked PID with that PCR's time since the first, offsets strictly increase, times by at least the delta, and
      the current offset is the number of bytes seen. */
  lemma {:induction false} IndexSound(cfg: Config, buffers: seq<seq<Byte>>)
    ensures StateGood(cfg, CollectAll(cfg, buffers), Concat(buffers))
    decreases |buffers|
  {
    hide MarksGood, Collect;
    if buffers == [] {
      EmptyGood(cfg);
    } else {
      var before := buffers[..|buffers| - 1];
      IndexSound(cfg, before);
      CollectGood(cfg, CollectAll(cfg, before), Concat(before), buffers[|buffers| - 1]);
    }
  }

  /** As more of the stream is seen marks are only added, and those at offsets not seen before. */
  lemma {:induction false} IndexGrows(cfg: Config, buffers: seq<seq<Byte>>, more: seq<seq<Byte>>)
    ensures var s, r := CollectAll(cfg, buffers), CollectAll(cfg, buffers + more);
      s.marks <= r.marks && forall i :: |s.marks| <= i < |r.marks| ==> r.marks[i].offset >= |Concat(buffers)|
    decreases |more|
  {
    hide FirstDue;
    if more == [] {
      assert buffers + more == buffers;
    } else {
      var all, last := buffers + more, |more| - 1;
      assert all[..|all| - 1] == buffers + more[..last];
      IndexGrows(cfg, buffers, more[..last]);
      OffsetGrows(cfg, buffers, more[..last]);
    }
  }

  lemma {:induction false} OffsetGrows(cfg: Config, buffers: seq<seq<Byte>>, more: seq<seq<Byte>>)
    ensures CollectAll(cfg, buffers + more).offset >= |Concat(buffers)|
    decreases |more|
  {
    hide FirstDue, MarksGood;
    if more == [] {
      assert buffers + more == buffers;
      IndexSound(cfg, buffers);
    } else {
      var all, last := buffers + more, |more| - 1;
      assert all[..|all| - 1] == buffers + more[..last];
      OffsetGrows(cfg, buffers, more[..last]);
    }
  }

  lemma EmptyGood(cfg: Config)
    ensures StateGood(cfg, INITIAL, [])
  {
  }

  // ---------------------------------------------------------------------------------------------------------------
  // The element

  /** The entry add_index_entry makes: the time first, then the offset. */
  function Assocs(m: Mark): seq<Assoc> {
    [Assoc(TIME, m.time), Assoc(BYTES, m.offset)]
  }

  /** The list of an index that holds these marks, newest first. */
  predicate Lists(list: seq<Entry>, marks: seq<Mark>) {
    |list| == |marks| && forall i :: 0 <= i < |list| ==> list[i].assocs == Assocs(marks[|marks| - 1 - i])
  }

  /** Every time the indexer works with fits the index with room to spare. */
  lemma TimeSmall(cfg: Config, s: State, stream: seq<Byte>, pcr: nat)
    requires StateGood(cfg, s, stream) && pcr < 0x2_0000_0000
    ensures Small(ToGst(pcr) - if s.base == CLOCK_TIME_NONE then ToGst(pcr) else s.base)
  {
    hide DecodePcr, CarriesPcr;
    if s.marks != [] {
      assert Sound(cfg, s.base, stream, s.marks[0]);
      PcrBounded(stream, s.marks[0].offset + 6);
    }
  }

  class Indexer {
    const cfg: Config
    const index: FluTsIndex
    var baseTime: int
    var lastTime: int
    var lastPcr: nat
    var currentOffset: nat
    ghost var marks: seq<Mark>
    ghost var stream: seq<Byte>

    ghost function View(): State
      reads this
    {
      State(baseTime, lastTime, currentOffset, marks)
    }

    ghost predicate Valid()
      reads this, index
    {
      && StateGood(cfg, View(), stream)
      && index.Valid() && index.layout == LAYOUT && Lists(index.associations, marks)
    }

    constructor (cfg: Config, index: FluTsIndex)
      requires index.Valid() && index.layout == LAYOUT && index.associations == []
      ensures Valid() && View() == INITIAL && stream == [] && this.cfg == cfg && this.index == index
    {
      this.cfg, this.index := cfg, index;
      baseTime, lastTime, lastPcr, currentOffset := CLOCK_TIME_NONE, CLOCK_TIME_NONE, 0, 0;
      marks, stream := [], [];
    }

    /** add_index_entry. */
    method AddIndexEntry(time: int, offset: nat)
      requires index.Valid() && index.layout == LAYOUT && Lists(index.associations, marks)
      requires Small(time) && Small(offset)
      modifies this`marks, index
      ensures index.Valid() && Lists(index.associations, marks)
      ensures marks == old(marks) + [Mark(time, offset)]
    {
      var m := Mark(time, offset);
      var entry := index.AddAssociationv(Assocs(m));
      marks := marks + [m];
    }

    /** The loop of collect_time: look for PCRs until one is due. Nothing outside the buffer is read, and what remains
        of it shrinks with every round. */
    method FindDue(data: seq<Byte>) returns (due: Option<nat>, offset: nat)
      requires baseTime == CLOCK_TIME_NONE ==> lastTime == CLOCK_TIME_NONE
      modifies this`lastPcr
      ensures match FirstDue(cfg, baseTime, lastTime, data)
              case Some((i, pcr)) => due == Some(pcr) && offset == currentOffset + i
              case None => due == None
    {
      hide FindPcr, ParsePcr, ScanFrom, ToGst, FirstDue;
      var rest, remaining := data, |data|;
      due, offset := None, currentOffset;
      assert rest == data[0..];
      ShiftNone(FirstDue(cfg, baseTime, lastTime, data));
      while remaining >= MIN_PACKET
        invariant due == None && remaining == |rest| && offset + remaining == currentOffset + |data|
        invariant offset >= currentOffset && rest == data[offset - currentOffset..]
        invariant Shift(FirstDue(cfg, baseTime, lastTime, rest), offset - currentOffset)
                  == FirstDue(cfg, baseTime, lastTime, data)
        decreases remaining
      {
        FirstDueStep(cfg, baseTime, lastTime, rest);
        var pcr, found, at := GetPcr(cfg, baseTime != CLOCK_TIME_NONE, rest, offset);
        if pcr == None {
          return;
        }
        remaining, offset := remaining - (at - offset), at;
        lastPcr := pcr.value;
        var base := if baseTime == CLOCK_TIME_NONE then ToGst(pcr.value) else baseTime;
        var time := ToGst(pcr.value) - base;
        if lastTime == CLOCK_TIME_NONE || cfg.delta == -1 || time - lastTime >= cfg.delta {
          due := pcr;
          return;
        }
        rest, remaining, offset := found[1..], remaining - 1, offset + 1;
      }
      FirstDueStep(cfg, baseTime, lastTime, rest);
    }

    /** collect_time: note the first PCR of the buffer that is due, and count the bytes. */
    method CollectTime(data: seq<Byte>)
      requires Valid() && currentOffset + |data| < TWO_62
      modifies this, index
      ensures Valid() && View() == Collect(cfg, old(View()), data) && stream == old(stream) + data
    {
      hide MarksGood, FirstDue, ToGst, DecodePcr, CarriesPcr, Lists, FluTsIndex.Valid;
      BaseWithLast(cfg, View(), stream);
      CollectGood(cfg, View(), stream, data);
      if cfg.pid != INVALID_PID {
        var due, offset := FindDue(data);
        if due.Some? {
          DueBounded(cfg, baseTime, lastTime, data);
          TimeSmall(cfg, View(), stream, due.value);
          if baseTime == CLOCK_TIME_NONE {
            baseTime := ToGst(due.value);
          }
          var time := ToGst(due.value) - baseTime;
          AddIndexEntry(time, offset);
          lastTime := time;
        }
      }
      currentOffset := currentOffset + |data|;
      stream := stream + data;
    }
  }

  lemma ShiftNone(r: Option<(nat, nat)>)
    ensures Shift(r, 0) == r
  {
  }

  lemma BaseWithLast(cfg: Config, s: State, stream: seq<Byte>)
    requires StateGood(cfg, s, stream)
    ensures s.base == CLOCK_TIME_NONE <==> s.last == CLOCK_TIME_NONE
  {
  }

  lemma DueBounded(cfg: Config, base: int, last: int, data: seq<Byte>)
    requires FirstDue(cfg, base, last, data).Some? && (base == CLOCK_TIME_NONE ==> last == CLOCK_TIME_NONE)
    ensures FirstDue(cfg, base, last, data).value.0 < |data| && FirstDue(cfg, base, last, data).value.1 < 0x2_0000_0000
  {
    FirstDueFound(cfg, base, last, data);
    PcrBounded(data, FirstDue(cfg, base, last, data).value.0 + 6);
  }
}
