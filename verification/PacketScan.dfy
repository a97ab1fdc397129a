/** What the indexer finds in a buffer, told by the fields of the packets in it: wherever the buffer is cut, the scan
    gets in step with the packets, passes none by, and notes the first PCR that is due. */
module PacketScan {
  import opened Bytes
  import opened TsIndexer

  // ---------------------------------------------------------------------------------------------------------------
  // Packets by their fields

  type Pid = x: int | 0 <= x < 0x2000
  type Bits2 = x: int | 0 <= x < 4
  type Bits4 = x: int | 0 <= x < 16
  type Bits6 = x: int | 0 <= x < 64
  type Bits9 = x: int | 0 <= x < 512
  type Bits33 = x: int | 0 <= x < 0x2_0000_0000

  /** The fields of ISO/IEC 13818-1 sections 2.4.3.2 and 2.4.3.4 up to the flags of the adaptation field; `others` are
      the flags after the one for the PCR. */
  datatype Header = Header(
    error: bool, unitStart: bool, priority: bool, pid: Pid,
    scrambling: Bits2, adaptation: bool, content: bool, counter: Bits4,
    length: Byte, discontinuity: bool, randomAccess: bool, streamPriority: bool, pcrFlag: bool, others: Bits4)

  type Stuffing = s: seq<Byte> | |s| == MIN_PACKET - 12 witness Zeros(MIN_PACKET - 12)

  datatype Packet = Packet(header: Header, base: Bits33, reserved: Bits6, ext: Bits9, stuffing: Stuffing)

  function Flag(b: bool, weight: nat): nat {
    if b then weight else 0
  }

  function EncodeHeader(h: Header): (r: seq<Byte>)
    ensures |r| == 6
  {
    var second := Flag(h.error, 0x8000) + Flag(h.unitStart, 0x4000) + Flag(h.priority, 0x2000) + h.pid;
    var control := h.scrambling * 0x40 + Flag(h.adaptation, 0x20) + Flag(h.content, 0x10) + h.counter;
    var flags := Flag(h.discontinuity, 0x80) + Flag(h.randomAccess, 0x40) + Flag(h.streamPriority, 0x20)
                 + Flag(h.pcrFlag, 0x10) + h.others;
    [SYNC] + Bytes16(second) + [control, h.length, flags]
  }

  function EncodePacket(p: Packet): (r: seq<Byte>)
    ensures |r| == MIN_PACKET
  {
    EncodeHeader(p.header) + EncodePcr(p.base, p.reserved, p.ext) + p.stuffing
  }

  /** The packet has a PCR the indexer may note. */
  predicate Tells(cfg: Config, started: bool, h: Header) {
    && h.adaptation && h.pid == cfg.pid && h.length != 0 && h.pcrFlag
    && (cfg.delta == -1 && started ==> h.randomAccess)
  }

  lemma HeaderRead(h: Header, rest: seq<Byte>)
    ensures var data := EncodeHeader(h) + rest;
      && data[0] == SYNC && Be16(data, 1) % 0x2000 == h.pid && data[4] == h.length
      && (Bit(data[3], 0x20) <==> h.adaptation)
      && (Bit(data[5], 0x40) <==> h.randomAccess) && (Bit(data[5], 0x10) <==> h.pcrFlag)
  {
  }

  /** A packet is taken for one with a PCR exactly when its fields say so, and then its base is what is read. */
  lemma PacketParsed(cfg: Config, started: bool, p: Packet)
    ensures ParsePcr(cfg, started, EncodePacket(p), 0) == if Tells(cfg, started, p.header) then Some(p.base) else None
  {
    var field := EncodePcr(p.base, p.reserved, p.ext);
    var data := EncodePacket(p);
    PcrRoundTrip(p.base, p.reserved, p.ext);
    HeaderRead(p.header, field + p.stuffing);
    assert data == EncodeHeader(p.header) + (field + p.stuffing);
    hide DecodePcr, EncodeHeader, EncodePcr, Bit, Be16;
    FieldDecoded(EncodeHeader(p.header), field, p.stuffing);
  }

  lemma FieldDecoded(a: seq<Byte>, field: seq<Byte>, b: seq<Byte>)
    requires |field| == 6
    ensures DecodePcr(a + field + b, |a|) == DecodePcr(field, 0)
  {
    assert forall k :: 0 <= k < 6 ==> (a + field + b)[|a| + k] == field[k];
  }

  lemma StartsWithSync(p: Packet)
    ensures EncodePacket(p)[0] == SYNC
  {
    hide EncodePcr;
  }

  /** Parsing looks at the packet only, wherever it lies. */
  lemma ParsedAnywhere(cfg: Config, started: bool, a: seq<Byte>, packet: seq<Byte>, b: seq<Byte>)
    requires |packet| >= 12
    ensures ParsePcr(cfg, started, a + packet + b, |a|) == ParsePcr(cfg, started, packet, 0)
  {
    var data := a + packet + b;
    assert forall k :: 0 <= k < 12 ==> data[|a| + k] == packet[k];
    assert DecodePcr(data, |a| + 6) == DecodePcr(packet, 6);
  }

  function EncodeAll(packets: seq<Packet>): (r: seq<Byte>)
    ensures |r| == |packets| * MIN_PACKET
  {
    if packets == [] then [] else EncodePacket(packets[0]) + EncodeAll(packets[1..])
  }

  lemma {:induction false} PacketOf(packets: seq<Packet>, k: nat)
    requires k < |packets|
    ensures |EncodeAll(packets)| >= (k + 1) * MIN_PACKET
    ensures EncodeAll(packets)[k * MIN_PACKET..(k + 1) * MIN_PACKET] == EncodePacket(packets[k])
  {
    hide EncodePacket;
    if k > 0 {
      PacketOf(packets[1..], k - 1);
      var all, rest := EncodeAll(packets), EncodeAll(packets[1..]);
      assert all[k * MIN_PACKET..(k + 1) * MIN_PACKET] == rest[(k - 1) * MIN_PACKET..k * MIN_PACKET];
    }
  }

  // ---------------------------------------------------------------------------------------------------------------
  // Getting in step

  /** The scan takes byte `i` for the start of a packet. */
  predicate InSync(data: seq<Byte>, i: nat) {
    i < |data| && data[i] == SYNC && SyncFollows(data, i)
  }

  /** Where packet `k` starts, if the first one starts at `p`. */
  function StartOf(p: nat, k: nat): nat {
    p + k * MIN_PACKET
  }

  /** From `p` on the buffer is packets, the last of which may be cut off. */
  ghost predicate Aligned(data: seq<Byte>, p: nat) {
    forall k: nat :: StartOf(p, k) < |data| ==> data[StartOf(p, k)] == SYNC
  }

  /** Nothing from `i` to `p` is taken for a packet. */
  predicate OutOfStep(data: seq<Byte>, i: nat, p: nat) {
    forall x: nat :: i <= x < p && x + MAX_PACKET < |data| ==> !InSync(data, x)
  }

  lemma {:induction false} GetsInStep(cfg: Config, started: bool, data: seq<Byte>, i: nat, p: nat)
    requires i <= p && OutOfStep(data, i, p)
    ensures ScanFrom(cfg, started, data, i) == ScanFrom(cfg, started, data, p)
    decreases p - i
  {
    hide ParsePcr, SyncFollows;
    if i < p && i + MAX_PACKET < |data| {
      assert !InSync(data, i);
      GetsInStep(cfg, started, data, i + 1, p);
    }
  }

  /** From `i` on the buffer is packets of `size` bytes, of which the first 188 are the transport packet and the others
      are not taken for one; the last one may be cut off. */
  predicate Sized(data: seq<Byte>, size: nat, i: nat)
    requires size > 0
    decreases |data| - i
  {
    i < |data| ==> data[i] == SYNC && OutOfStep(data, i + MIN_PACKET, i + size) && Sized(data, size, i + size)
  }

  /** The first PCR in packets of `size` bytes. */
  function PacketByPacket(cfg: Config, started: bool, data: seq<Byte>, size: nat, i: nat): Option<(nat, nat)>
    requires size > 0
    decreases |data| - i
  {
    if i + MAX_PACKET >= |data| then None
    else
      match ParsePcr(cfg, started, data, i)
      case Some(pcr) => Some((i, pcr))
      case None => PacketByPacket(cfg, started, data, size, i + size)
  }

  /** For each of the four sizes a packet can have, the scan goes packet by packet once it is in step. */
  lemma {:induction false} SizedScan(cfg: Config, started: bool, data: seq<Byte>, size: nat, i: nat)
    requires size == 188 || size == 192 || size == 204 || size == 208
    requires Sized(data, size, i)
    ensures ScanFrom(cfg, started, data, i) == PacketByPacket(cfg, started, data, size, i)
    decreases |data| - i
  {
    hide ParsePcr, OutOfStep;
    if i + MAX_PACKET < |data| {
      assert Sized(data, size, i + size) && data[i + size] == SYNC;
      GetsInStep(cfg, started, data, i + MIN_PACKET, i + size);
      SizedScan(cfg, started, data, size, i + size);
    }
  }

  /** The packet at `i` is not one the scan may stop at. */
  predicate NoPcr(cfg: Config, started: bool, data: seq<Byte>, i: nat) {
    i + 12 <= |data| ==> ParsePcr(cfg, started, data, i).None?
  }

  predicate NoneBetween(cfg: Config, started: bool, data: seq<Byte>, p: nat, k: nat, j: nat) {
    forall m: nat :: k <= m < j ==> NoPcr(cfg, started, data, StartOf(p, m))
  }

  /** Once in step the scan never loses it: it stops at the first packet with a PCR among those that start before the
      last 208 bytes, and passes none by, wherever in the buffer the packets begin. */
  lemma {:induction false} AlignedScan(cfg: Config, started: bool, data: seq<Byte>, p: nat, k: nat)
    requires Aligned(data, p)
    ensures match ScanFrom(cfg, started, data, StartOf(p, k))
            case Some((i, pcr)) =>
              exists j: nat :: k <= j && i == StartOf(p, j) && NoneBetween(cfg, started, data, p, k, j)
            case None =>
              forall j: nat :: k <= j && StartOf(p, j) + MAX_PACKET < |data| ==>
                NoPcr(cfg, started, data, StartOf(p, j))
    decreases |data| - StartOf(p, k)
  {
    hide ParsePcr;
    var i := StartOf(p, k);
    if i + MAX_PACKET < |data| {
      assert data[i] == SYNC && data[StartOf(p, k + 1)] == SYNC && StartOf(p, k + 1) == i + MIN_PACKET;
      AlignedScan(cfg, started, data, p, k + 1);
      var r := ScanFrom(cfg, started, data, i);
      if ParsePcr(cfg, started, data, i).Some? {
        assert NoneBetween(cfg, started, data, p, k, k);
      } else if r.Some? {
        var j: nat :| k + 1 <= j && r.value.0 == StartOf(p, j) && NoneBetween(cfg, started, data, p, k + 1, j);
        assert NoPcr(cfg, started, data, i);
        assert NoneBetween(cfg, started, data, p, k, j);
      } else {
        assert NoPcr(cfg, started, data, i);
      }
    }
  }

  /** However a buffer is cut: if nothing before the first whole packet looks like one, that is, no byte of sync has
      another behind it at one of the four distances, what is found is the PCR of the first of the packets that tells
      one, among those that start before the last 208 bytes; and nothing is found only if none of them does. */
  lemma PacketsFound(cfg: Config, started: bool, a: seq<Byte>, packets: seq<Packet>, b: seq<Byte>)
    requires |b| < MIN_PACKET && (b != [] ==> b[0] == SYNC)
    requires var data := a + EncodeAll(packets) + b;
      |data| > MAX_PACKET && OutOfStep(data, 0, |a|)
    ensures var data := a + EncodeAll(packets) + b;
      match FindPcr(cfg, started, data)
      case Some((i, pcr)) =>
        i + MAX_PACKET < |data| &&
        exists j: nat :: FirstTold(cfg, started, packets, j) && i == StartOf(|a|, j) && pcr == packets[j].base
      case None =>
        forall j: nat :: StartOf(|a|, j) + MAX_PACKET < |data| ==>
          j < |packets| && !Tells(cfg, started, packets[j].header)
  {
    var data := a + EncodeAll(packets) + b;
    PacketsAligned(a, packets, b);
    hide Aligned, InSync, ParsePcr, Tells;
    GetsInStep(cfg, started, data, 0, |a|);
    AlignedScan(cfg, started, data, |a|, 0);
    forall j: nat | j < |packets|
      ensures StartOf(|a|, j) + MIN_PACKET <= |data|
      ensures ParsePcr(cfg, started, data, StartOf(|a|, j)) ==
              if Tells(cfg, started, packets[j].header) then Some(packets[j].base) else None
    {
      PacketAt(cfg, started, a, packets, b, j);
    }
    assert ScanFrom(cfg, started, data, StartOf(|a|, 0)) == FindPcr(cfg, started, data);
    match FindPcr(cfg, started, data) {
      case Some((i, pcr)) =>
        var j: nat :| i == StartOf(|a|, j) && NoneBetween(cfg, started, data, |a|, 0, j);
        forall m: nat | m < j
          ensures m < |packets| && !Tells(cfg, started, packets[m].header)
        {
          assert NoPcr(cfg, started, data, StartOf(|a|, m));
        }
        assert FirstTold(cfg, started, packets, j);
      case None =>
        forall j: nat | StartOf(|a|, j) + MAX_PACKET < |data|
          ensures j < |packets| && !Tells(cfg, started, packets[j].header)
        {
          assert NoPcr(cfg, started, data, StartOf(|a|, j));
        }
    }
  }

  /** Packet `j` tells a PCR, and none before it does. */
  predicate FirstTold(cfg: Config, started: bool, packets: seq<Packet>, j: nat) {
    j < |packets| && Tells(cfg, started, packets[j].header)
    && forall m: nat :: m < j ==> !Tells(cfg, started, packets[m].header)
  }

  lemma PacketAt(cfg: Config, started: bool, a: seq<Byte>, packets: seq<Packet>, b: seq<Byte>, j: nat)
    requires j < |packets|
    ensures var data := a + EncodeAll(packets) + b;
      && StartOf(|a|, j) + MIN_PACKET <= |data| && data[StartOf(|a|, j)] == SYNC
      && ParsePcr(cfg, started, data, StartOf(|a|, j)) ==
         if Tells(cfg, started, packets[j].header) then Some(packets[j].base) else None
  {
    var all, i, packet := EncodeAll(packets), j * MIN_PACKET, EncodePacket(packets[j]);
    hide EncodePacket, EncodeAll, ParsePcr, Tells;
    StartsWithSync(packets[j]);
    PacketOf(packets, j);
    PacketParsed(cfg, started, packets[j]);
    Around(a, all, b, i, packet);
    ParsedAnywhere(cfg, started, a + all[..i], packet, all[i + MIN_PACKET..] + b);
  }

  lemma Around(a: seq<Byte>, all: seq<Byte>, b: seq<Byte>, i: nat, packet: seq<Byte>)
    requires i + MIN_PACKET <= |all| && all[i..i + MIN_PACKET] == packet
    ensures a + all + b == (a + all[..i]) + packet + (all[i + MIN_PACKET..] + b)
    ensures packet != [] ==> (a + all + b)[|a| + i] == packet[0]
  {
    assert all == all[..i] + packet + all[i + MIN_PACKET..];
  }

  lemma PacketsAligned(a: seq<Byte>, packets: seq<Packet>, b: seq<Byte>)
    requires |b| < MIN_PACKET && (b != [] ==> b[0] == SYNC)
    ensures Aligned(a + EncodeAll(packets) + b, |a|)
  {
    hide EncodeAll;
    var data := a + EncodeAll(packets) + b;
    forall k: nat | StartOf(|a|, k) < |data|
      ensures data[StartOf(|a|, k)] == SYNC
    {
      if k < |packets| {
        PacketAt(Config(0, 0), false, a, packets, b, k);
      }
    }
  }

  /** Packets of which none tells a PCR, as those of other PIDs, add nothing to the index, whatever they contain. */
  lemma NothingTold(cfg: Config, s: State, packets: seq<Packet>)
    requires NoneTells(cfg, s.base != CLOCK_TIME_NONE, packets)
    ensures Collect(cfg, s, EncodeAll(packets)) == s.(offset := s.offset + |packets| * MIN_PACKET)
  {
    hide NoneTells, EncodeAll, FindPcr, ParsePcr, ToGst;
    if packets != [] {
      NothingFound(cfg, s.base != CLOCK_TIME_NONE, packets);
    }
    assert FirstDue(cfg, s.base, s.last, EncodeAll(packets)).None?;
  }

  predicate NoneTells(cfg: Config, started: bool, packets: seq<Packet>) {
    forall j :: 0 <= j < |packets| ==> !Tells(cfg, started, packets[j].header)
  }

  /** A buffer of up to 208 bytes is taken for one packet, and no other one is looked for. */
  lemma OnePacketFound(cfg: Config, started: bool, p: Packet, rest: seq<Byte>)
    requires |rest| <= MAX_PACKET - MIN_PACKET
    ensures FindPcr(cfg, started, EncodePacket(p) + rest) ==
            if Tells(cfg, started, p.header) then Some((0, p.base)) else None
  {
    var packet := EncodePacket(p);
    PacketParsed(cfg, started, p);
    hide EncodePacket, ParsePcr, Tells;
    assert [] + packet + rest == packet + rest;
    ParsedAnywhere(cfg, started, [], packet, rest);
  }

  lemma NotAPacket(cfg: Config, started: bool, data: seq<Byte>)
    requires MIN_PACKET <= |data| <= MAX_PACKET && data[0] != SYNC
    ensures FindPcr(cfg, started, data) == None
  {
  }

  lemma NothingFound(cfg: Config, started: bool, packets: seq<Packet>)
    requires packets != [] && NoneTells(cfg, started, packets)
    ensures FindPcr(cfg, started, EncodeAll(packets)) == None
  {
    var data := EncodeAll(packets);
    assert [] + data + [] == data;
    hide Tells, EncodeAll, ParsePcr, InSync, ScanFrom;
    if |packets| == 1 {
      OnePacketFound(cfg, started, packets[0], []);
      OneEncoded(packets);
    } else {
      PacketsFound(cfg, started, [], packets, []);
    }
  }

  lemma OneEncoded(packets: seq<Packet>)
    requires |packets| == 1
    ensures EncodeAll(packets) == EncodePacket(packets[0]) + []
  {
    hide EncodePacket;
  }

  // ---------------------------------------------------------------------------------------------------------------
  // Which PCR of a buffer is noted

  /** Where the next packet starts, seen from the byte after the start of one. */
  const NEXT: nat := MIN_PACKET - 1

  predicate OnPacket(p: nat, i: nat) {
    i >= p && (i - p) % MIN_PACKET == 0
  }

  /** From `p` on the buffer is packets, and nothing else in it is taken for one. What is left behind a PCR that is not
      due is searched again; if that is exactly 208 bytes it is taken for one packet without looking for the next. */
  ghost predicate OnlyPackets(cfg: Config, data: seq<Byte>, p: nat) {
    && Aligned(data, p)
    && (forall i: nat :: i + MAX_PACKET < |data| && InSync(data, i) ==> OnPacket(p, i))
    && (|data| >= MAX_PACKET && !OnPacket(p, |data| - MAX_PACKET) ==>
          NoPcr(cfg, false, data, |data| - MAX_PACKET) && NoPcr(cfg, true, data, |data| - MAX_PACKET))
  }

  /** The packet at `i` has a PCR that is to be noted: any if there is no entry yet, any random access point if those
      are asked for, and else one whose time is the distance asked for, or more, after that of the last entry. */
  predicate Wanted(cfg: Config, base: int, last: int, data: seq<Byte>, i: nat) {
    i + 12 <= |data| &&
    match ParsePcr(cfg, base != CLOCK_TIME_NONE, data, i)
    case Some(pcr) => last == CLOCK_TIME_NONE || cfg.delta == -1 || ToGst(pcr) - base >= last + cfg.delta
    case None => false
  }

  predicate NoneWanted(cfg: Config, base: int, last: int, data: seq<Byte>, p: nat, j: nat) {
    forall m: nat :: m < j ==> !Wanted(cfg, base, last, data, StartOf(p, m))
  }

  lemma ShiftPackets(cfg: Config, data: seq<Byte>, p: nat, j: nat)
    requires OnlyPackets(cfg, data, p) && StartOf(p, j) + MAX_PACKET < |data|
    ensures OnlyPackets(cfg, data[StartOf(p, j) + 1..], NEXT)
  {
    var at := StartOf(p, j) + 1;
    var head, rest := data[..at], data[at..];
    assert head + rest == data;
    forall k: nat | StartOf(NEXT, k) < |rest|
      ensures rest[StartOf(NEXT, k)] == SYNC
    {
      assert data[StartOf(p, j + 1 + k)] == SYNC;
    }
    forall i: nat | i + MAX_PACKET < |rest| && InSync(rest, i)
      ensures OnPacket(NEXT, i)
    {
      assert InSync(data, at + i);
      OnPackets(p, j, i);
    }
    if |rest| >= MAX_PACKET && !OnPacket(NEXT, |rest| - MAX_PACKET) {
      var i: nat := |rest| - MAX_PACKET;
      OnPackets(p, j, i);
      ParsedIn(cfg, false, head, rest, i);
      ParsedIn(cfg, true, head, rest, i);
    }
  }

  lemma OnPackets(p: nat, j: nat, i: nat)
    ensures OnPacket(p, StartOf(p, j) + 1 + i) <==> OnPacket(NEXT, i)
  {
  }

  lemma ParsedIn(cfg: Config, started: bool, a: seq<Byte>, data: seq<Byte>, i: nat)
    requires i + 12 <= |data|
    ensures ParsePcr(cfg, started, a + data, |a| + i) == ParsePcr(cfg, started, data, i)
  {
    hide CarriesPcr, DecodePcr;
    CarriesShift(cfg, started, a, data, i);
    DecodeShift(a, data, i + 6);
  }

  /** How a search through the packets of a buffer ends: at the first one wanted among those that start before the last
      208 bytes, or nowhere. */
  ghost predicate FoundFirst(cfg: Config, base: int, last: int, data: seq<Byte>, p: nat, r: Option<(nat, nat)>) {
    match r
    case Some((i, pcr)) =>
      && i + MAX_PACKET < |data| && ParsePcr(cfg, base != CLOCK_TIME_NONE, data, i) == Some(pcr)
      && exists j: nat ::
           i == StartOf(p, j) && Wanted(cfg, base, last, data, i) && NoneWanted(cfg, base, last, data, p, j)
    case None =>
      forall j: nat :: StartOf(p, j) + MAX_PACKET < |data| ==> !Wanted(cfg, base, last, data, StartOf(p, j))
  }

  /** The PCR the scan finds, wanted or not. */
  lemma FindsFirst(cfg: Config, started: bool, data: seq<Byte>, p: nat)
    requires OnlyPackets(cfg, data, p) && |data| >= MAX_PACKET && (|data| == MAX_PACKET ==> !OnPacket(p, 0))
    ensures match FindPcr(cfg, started, data)
            case Some((i, pcr)) =>
              && i + MAX_PACKET < |data|
              && exists j: nat :: i == StartOf(p, j) && NoneBetween(cfg, started, data, p, 0, j)
            case None =>
              forall j: nat :: StartOf(p, j) + MAX_PACKET < |data| ==> NoPcr(cfg, started, data, StartOf(p, j))
  {
    hide ParsePcr, InSync, Aligned;
    if |data| == MAX_PACKET {
      assert NoPcr(cfg, started, data, 0);
    } else {
      GetsInStep(cfg, started, data, 0, p);
      AlignedScan(cfg, started, data, p, 0);
      assert StartOf(p, 0) == p;
    }
  }

  /** The search for a PCR that is due passes none by that is. */
  lemma {:induction false} FirstDueExact(cfg: Config, base: int, last: int, data: seq<Byte>, p: nat)
    requires OnlyPackets(cfg, data, p) && |data| >= MAX_PACKET && (|data| == MAX_PACKET ==> !OnPacket(p, 0))
    requires base == CLOCK_TIME_NONE ==> last == CLOCK_TIME_NONE
    ensures FoundFirst(cfg, base, last, data, p, FirstDue(cfg, base, last, data))
    decreases |data|
  {
    var started := base != CLOCK_TIME_NONE;
    hide ParsePcr, FindPcr, OnlyPackets, ToGst, FirstDue, Wanted;
    FindsFirst(cfg, started, data, p);
    FirstDueStep(cfg, base, last, data);
    match FindPcr(cfg, started, data)
    case None =>
      forall j: nat | StartOf(p, j) + MAX_PACKET < |data|
        ensures !Wanted(cfg, base, last, data, StartOf(p, j))
      {
        NotWanted(cfg, base, last, data, StartOf(p, j));
      }
    case Some((i, pcr)) =>
      var j: nat :| i == StartOf(p, j) && NoneBetween(cfg, started, data, p, 0, j);
      forall m: nat | m < j
        ensures !Wanted(cfg, base, last, data, StartOf(p, m))
      {
        NotWanted(cfg, base, last, data, StartOf(p, m));
      }
      WantedIfDue(cfg, base, last, data, i, pcr);
      if !Wanted(cfg, base, last, data, i) {
        ShiftPackets(cfg, data, p, j);
        FirstDueExact(cfg, base, last, data[i + 1..], NEXT);
        GoesOn(cfg, base, last, data, p, j, FirstDue(cfg, base, last, data[i + 1..]));
      }
  }

  lemma NotWanted(cfg: Config, base: int, last: int, data: seq<Byte>, i: nat)
    requires NoPcr(cfg, base != CLOCK_TIME_NONE, data, i)
    ensures !Wanted(cfg, base, last, data, i)
  {
  }

  lemma WantedIfDue(cfg: Config, base: int, last: int, data: seq<Byte>, i: nat, pcr: nat)
    requires i + 12 <= |data| && ParsePcr(cfg, base != CLOCK_TIME_NONE, data, i) == Some(pcr)
    requires base == CLOCK_TIME_NONE ==> last == CLOCK_TIME_NONE
    ensures Wanted(cfg, base, last, data, i) <==>
      Due(cfg, last, ToGst(pcr) - if base == CLOCK_TIME_NONE then ToGst(pcr) else base)
  {
    hide ToGst, ParsePcr;
  }

  /** The same packets are wanted in what is left behind the start of packet `j`. */
  ghost predicate SameWanted(cfg: Config, base: int, last: int, data: seq<Byte>, rest: seq<Byte>, at: nat) {
    forall x: nat :: Wanted(cfg, base, last, rest, x) <==> Wanted(cfg, base, last, data, at + x)
  }

  /** What is found behind a PCR that is not wanted is what is found in the whole buffer. */
  lemma GoesOn(cfg: Config, base: int, last: int, data: seq<Byte>, p: nat, j: nat, r: Option<(nat, nat)>)
    requires StartOf(p, j) + MAX_PACKET < |data|
    requires NoneWanted(cfg, base, last, data, p, j) && !Wanted(cfg, base, last, data, StartOf(p, j))
    requires FoundFirst(cfg, base, last, data[StartOf(p, j) + 1..], NEXT, r)
    ensures FoundFirst(cfg, base, last, data, p, Shift(r, StartOf(p, j) + 1))
  {
    var at := StartOf(p, j) + 1;
    var rest := data[at..];
    hide Wanted, NoneWanted, ParsePcr, FoundFirst;
    SameBehind(cfg, base, last, data, at);
    hide StartOf, SameWanted;
    if r.Some? {
      FoundFurther(cfg, base, last, data, rest, p, j, r.value.0, r.value.1);
    } else {
      NoneFurther(cfg, base, last, data, rest, p, j);
    }
  }

  lemma SameBehind(cfg: Config, base: int, last: int, data: seq<Byte>, at: nat)
    requires at <= |data|
    ensures SameWanted(cfg, base, last, data, data[at..], at)
  {
    var head, rest := data[..at], data[at..];
    assert head + rest == data;
    hide Wanted, ParsePcr;
    forall x: nat
      ensures Wanted(cfg, base, last, rest, x) <==> Wanted(cfg, base, last, data, at + x)
    {
      WantedIn(cfg, base, last, head, rest, x);
    }
  }

  lemma FoundFurther(cfg: Config, base: int, last: int, data: seq<Byte>, rest: seq<Byte>, p: nat, j: nat, i: nat,
                     pcr: nat)
    requires StartOf(p, j) + MAX_PACKET < |data| && rest == data[StartOf(p, j) + 1..]
    requires NoneWanted(cfg, base, last, data, p, j) && !Wanted(cfg, base, last, data, StartOf(p, j))
    requires SameWanted(cfg, base, last, data, rest, StartOf(p, j) + 1)
    requires FoundFirst(cfg, base, last, rest, NEXT, Some((i, pcr)))
    ensures FoundFirst(cfg, base, last, data, p, Some((i + StartOf(p, j) + 1, pcr)))
  {
    var at := StartOf(p, j) + 1;
    hide Wanted, NoneWanted, ParsePcr, StartOf;
    assert data[..at] + rest == data;
    WantedIn(cfg, base, last, data[..at], rest, i);
    var m: nat :| i == StartOf(NEXT, m) && NoneWanted(cfg, base, last, rest, NEXT, m);
    NoneUpTo(cfg, base, last, data, rest, p, j, m);
    FurtherOn(p, j, m);
    assert Wanted(cfg, base, last, data, StartOf(p, j + 1 + m));
  }

  lemma NoneFurther(cfg: Config, base: int, last: int, data: seq<Byte>, rest: seq<Byte>, p: nat, j: nat)
    requires StartOf(p, j) + MAX_PACKET < |data| && rest == data[StartOf(p, j) + 1..]
    requires NoneWanted(cfg, base, last, data, p, j) && !Wanted(cfg, base, last, data, StartOf(p, j))
    requires SameWanted(cfg, base, last, data, rest, StartOf(p, j) + 1)
    requires FoundFirst(cfg, base, last, rest, NEXT, None)
    ensures FoundFirst(cfg, base, last, data, p, None)
  {
    hide Wanted, NoneWanted, StartOf;
    forall k: nat | StartOf(p, k) + MAX_PACKET < |data|
      ensures !Wanted(cfg, base, last, data, StartOf(p, k))
    {
      if k > j {
        FurtherOn(p, j, k - j - 1);
        assert !Wanted(cfg, base, last, rest, StartOf(NEXT, k - j - 1));
      } else if k < j {
        NoneBelow(cfg, base, last, data, p, j, k);
      }
    }
  }

  lemma NoneBelow(cfg: Config, base: int, last: int, data: seq<Byte>, p: nat, j: nat, k: nat)
    requires NoneWanted(cfg, base, last, data, p, j) && k < j
    ensures !Wanted(cfg, base, last, data, StartOf(p, k))
  {
    hide Wanted;
  }

  /** Packets counted from behind the start of packet `j`. */
  lemma FurtherOn(p: nat, j: nat, m: nat)
    ensures StartOf(p, j) + 1 + StartOf(NEXT, m) == StartOf(p, j + 1 + m)
  {
  }

  lemma NoneUpTo(cfg: Config, base: int, last: int, data: seq<Byte>, rest: seq<Byte>, p: nat, j: nat, m: nat)
    requires NoneWanted(cfg, base, last, data, p, j) && !Wanted(cfg, base, last, data, StartOf(p, j))
    requires NoneWanted(cfg, base, last, rest, NEXT, m)
    requires SameWanted(cfg, base, last, data, rest, StartOf(p, j) + 1)
    ensures NoneWanted(cfg, base, last, data, p, j + 1 + m)
  {
    hide Wanted;
    forall k: nat | k < j + 1 + m
      ensures !Wanted(cfg, base, last, data, StartOf(p, k))
    {
      if k > j {
        assert StartOf(p, j) + 1 + StartOf(NEXT, k - j - 1) == StartOf(p, k);
        assert !Wanted(cfg, base, last, rest, StartOf(NEXT, k - j - 1));
      }
    }
  }

  lemma WantedIn(cfg: Config, base: int, last: int, a: seq<Byte>, data: seq<Byte>, i: nat)
    ensures Wanted(cfg, base, last, data, i) <==> Wanted(cfg, base, last, a + data, |a| + i)
    ensures i + 12 <= |data| ==>
      ParsePcr(cfg, base != CLOCK_TIME_NONE, data, i) == ParsePcr(cfg, base != CLOCK_TIME_NONE, a + data, |a| + i)
  {
    hide ParsePcr, ToGst;
    if i + 12 <= |data| {
      ParsedIn(cfg, base != CLOCK_TIME_NONE, a, data, i);
    }
  }

  /** The time of the PCR at `i`, since the first one. */
  function TimeOf(base: int, pcr: nat): int {
    if base == CLOCK_TIME_NONE then 0 else ToGst(pcr) - base
  }

  /** Packet `j` is the first of those that start before the last 208 bytes whose PCR is wanted. */
  predicate FirstWanted(cfg: Config, s: State, data: seq<Byte>, p: nat, j: nat) {
    && StartOf(p, j) + MAX_PACKET < |data|
    && Wanted(cfg, s.base, s.last, data, StartOf(p, j)) && NoneWanted(cfg, s.base, s.last, data, p, j)
  }

  /** The mark of packet `j` of a buffer. */
  function MarkOf(s: State, data: seq<Byte>, p: nat, j: nat): Mark
    requires StartOf(p, j) + MAX_PACKET < |data|
  {
    Mark(TimeOf(s.base, DecodePcr(data, StartOf(p, j) + 6)), s.offset + StartOf(p, j))
  }

  lemma CollectMarks(cfg: Config, s: State, data: seq<Byte>)
    requires cfg.pid != INVALID_PID
    ensures Collect(cfg, s, data).marks ==
            match FirstDue(cfg, s.base, s.last, data)
            case None => s.marks
            case Some((i, pcr)) => s.marks + [Mark(TimeOf(s.base, pcr), s.offset + i)]
  {
    hide FirstDue, ToGst;
  }

  /** However a stream of packets is cut: of the packets of a buffer that start before its last 208 bytes, the first one
      whose PCR is wanted is noted, with its place in the stream and its time since the first PCR, and no other; and
      nothing is noted only if none of them is wanted. */
  lemma NotedExact(cfg: Config, s: State, stream: seq<Byte>, data: seq<Byte>, p: nat)
    requires StateGood(cfg, s, stream) && cfg.pid != INVALID_PID && OnlyPackets(cfg, data, p) && |data| > MAX_PACKET
    ensures var marks := Collect(cfg, s, data).marks;
      || (marks == s.marks && forall j: nat :: !FirstWanted(cfg, s, data, p, j))
      || exists j: nat :: FirstWanted(cfg, s, data, p, j) && marks == s.marks + [MarkOf(s, data, p, j)]
  {
    BaseWithLast(cfg, s, stream);
    hide *;
    FirstDueExact(cfg, s.base, s.last, data, p);
    CollectMarks(cfg, s, data);
    var r := FirstDue(cfg, s.base, s.last, data);
    if r.Some? {
      var j := FoundWanted(cfg, s, data, p, r);
    } else {
      NothingWanted(cfg, s, data, p);
    }
  }

  lemma FoundWanted(cfg: Config, s: State, data: seq<Byte>, p: nat, r: Option<(nat, nat)>) returns (j: nat)
    requires r.Some? && FoundFirst(cfg, s.base, s.last, data, p, r)
    ensures FirstWanted(cfg, s, data, p, j)
    ensures StartOf(p, j) + MAX_PACKET < |data|
    ensures MarkOf(s, data, p, j) == Mark(TimeOf(s.base, r.value.1), s.offset + r.value.0)
  {
    hide CarriesPcr, DecodePcr, Wanted, NoneWanted, StartOf, ToGst;
    j :| r.value.0 == StartOf(p, j) && Wanted(cfg, s.base, s.last, data, r.value.0)
         && NoneWanted(cfg, s.base, s.last, data, p, j);
  }

  lemma NothingWanted(cfg: Config, s: State, data: seq<Byte>, p: nat)
    requires FoundFirst(cfg, s.base, s.last, data, p, None)
    ensures forall j: nat :: !FirstWanted(cfg, s, data, p, j)
  {
    hide Wanted, NoneWanted, StartOf;
  }

  // ---------------------------------------------------------------------------------------------------------------
  // A place that is no packet

  const STRAY_PID: Pid := 0x727
  const STRAY_BASE: Bits33 := 0x21FF_FFFE

  /** A packet whose second byte can be taken for the start of one on the same PID. */
  const STRAY: Packet := Packet(
    Header(false, true, false, STRAY_PID, 0, true, false, 7, 183, false, false, false, true, 0),
    STRAY_BASE, 0, 0, Zeros(MIN_PACKET - 12))

  /** The beginning of the packet after it. */
  const CUT_OFF: seq<Byte> := [SYNC] + Zeros(20)

  lemma StrayBytes()
    ensures EncodePacket(STRAY)[..13] == [SYNC, 0x47, 0x27, 0x27, 183, 0x10, 0x10, 0xFF, 0xFF, 0xFF, 0, 0, 0]
  {
  }

  lemma StrayParsed(started: bool)
    ensures var data := EncodePacket(STRAY) + CUT_OFF;
      && |data| == MAX_PACKET + 1
      && FindPcr(Config(STRAY_PID, 1), started, data) == Some((0, STRAY_BASE))
      && FindPcr(Config(STRAY_PID, 1), started, data[1..]) == Some((0, 0x1_FFFF_FE00))
  {
    StrayBytes();
    PacketParsed(Config(STRAY_PID, 1), started, STRAY);
    hide EncodePacket, ParsePcr;
    var data := EncodePacket(STRAY) + CUT_OFF;
    assert [] + EncodePacket(STRAY) + CUT_OFF == data;
    ParsedAnywhere(Config(STRAY_PID, 1), started, [], EncodePacket(STRAY), CUT_OFF);
    assert data[0] == SYNC && data[188] == SYNC;
    StrayAtOne(started, data);
  }

  lemma StrayAtOne(started: bool, data: seq<Byte>)
    requires |data| >= 13
    requires data[..13] == [SYNC, 0x47, 0x27, 0x27, 183, 0x10, 0x10, 0xFF, 0xFF, 0xFF, 0, 0, 0]
    ensures ParsePcr(Config(STRAY_PID, 1), started, data[1..], 0) == Some(0x1_FFFF_FE00)
  {
    var d := data[1..];
    assert forall k :: 0 <= k < 12 ==> d[k] == data[..13][k + 1];
  }

  /** What is left behind a PCR that is not due, if it is exactly 208 bytes, is taken for a packet: the index notes an
      offset that is none. */
  lemma StrayNoted()
    ensures var packet := EncodePacket(STRAY);
      var marks := CollectAll(Config(STRAY_PID, 1), [packet, packet + CUT_OFF]).marks;
      |marks| == 2 && marks[1].offset == MIN_PACKET + 1
  {
    var cfg, packet := Config(STRAY_PID, 1), EncodePacket(STRAY);
    StrayParsed(true);
    hide EncodePacket, ParsePcr, FindPcr, FirstDue;
    var first := Collect(cfg, INITIAL, packet);
    assert first == State(ToGst(STRAY_BASE), 0, MIN_PACKET, [Mark(0, 0)]) by {
      FirstDueStep(cfg, INITIAL.base, INITIAL.last, packet);
      OnePacketFound(cfg, false, STRAY, []);
      assert packet + [] == packet;
    }
    FirstDueStep(cfg, first.base, first.last, packet + CUT_OFF);
    FirstDueStep(cfg, first.base, first.last, (packet + CUT_OFF)[1..]);
    var both := [packet, packet + CUT_OFF];
    assert both[..1] == [packet] && both[..1][..0] == both[..0] && |both[..0]| == 0;
    assert CollectAll(cfg, both[..0]) == INITIAL && CollectAll(cfg, both[..1]) == first;
  }
}
