/**
 * The RIP-2 message format of section 4 of RFC 2453 as the simulation uses it
 * (packet.py): a 4-byte header and 20-byte route table entries (RTEs), every
 * field big-endian. The header's must-be-zero field carries the sending
 * router's id.
 */
module Codec {
  import opened Wrappers

  /** An octet on the wire. */
  type Byte = b: int | 0 <= b < 0x100

  const HEADER_SIZE: nat := 4   // struct format "!BBH"
  const RTE_SIZE: nat := 20     // struct format "!HHIIII"
  const COMMAND_RESPONSE: int := 2
  const VERSION: int := 2
  const AF_INET: int := 2
  const MAX_METRIC: int := 16

  predicate IsU8(x: int) { 0 <= x < 0x100 }
  predicate IsU16(x: int) { 0 <= x < 0x1_0000 }
  predicate IsU32(x: int) { 0 <= x < 0x1_0000_0000 }

  // ---------------------------------------------------------------------------
  // Big-endian integers (struct's "!H" and "!I")
  // ---------------------------------------------------------------------------

  function Be16(x: int): (r: seq<Byte>)
    requires IsU16(x)
    ensures |r| == 2
  {
    [x / 0x100, x % 0x100]
  }

  function Be32(x: int): (r: seq<Byte>)
    requires IsU32(x)
    ensures |r| == 4
  {
    [x / 0x100_0000, x / 0x1_0000 % 0x100, x / 0x100 % 0x100, x % 0x100]
  }

  function FromBe16(b: seq<Byte>): (x: int)
    requires |b| == 2
    ensures IsU16(x)
  {
    b[0] as int * 0x100 + b[1] as int
  }

  function FromBe32(b: seq<Byte>): (x: int)
    requires |b| == 4
    ensures IsU32(x)
  {
    ((b[0] as int * 0x100 + b[1] as int) * 0x100 + b[2] as int) * 0x100 + b[3] as int
  }

  lemma Be16RoundTrip(x: int)
    requires IsU16(x)
    ensures FromBe16(Be16(x)) == x
  {
  }

  lemma Be32RoundTrip(x: int)
    requires IsU32(x)
    ensures FromBe32(Be32(x)) == x
  {
    var b := Be32(x);
    assert b[0] as int * 0x100 + b[1] as int == x / 0x1_0000;
    assert (b[0] as int * 0x100 + b[1] as int) * 0x100 + b[2] as int == x / 0x100;
  }

  lemma Be32BytesRoundTrip(b: seq<Byte>)
    requires |b| == 4
    ensures Be32(FromBe32(b)) == b
  {
    var x := FromBe32(b);
    assert x / 0x100 == (b[0] as int * 0x100 + b[1] as int) * 0x100 + b[2] as int;
    assert x / 0x1_0000 == b[0] as int * 0x100 + b[1] as int;
    assert x / 0x100_0000 == b[0];
  }

  // ---------------------------------------------------------------------------
  // Header
  // ---------------------------------------------------------------------------

  /**
   * A header object. `Unset` is a header none of whose fields was ever
   * assigned: the constructor assigns fields only when given raw data or a
   * router id that is truthy, and the integer 0 is not.
   */
  datatype Header = Header(cmd: int, ver: int, src: int) | Unset

  /** Header(router_id=...): a response header from this router, or no fields at all for id 0. */
  function HeaderFromHost(routerId: int): (h: Header)
  {
    if routerId != 0 then Header(COMMAND_RESPONSE, VERSION, routerId) else Unset
  }

  /** Header(raw_data): the three fields unpacked from exactly four bytes. */
  function HeaderFromNetwork(raw: seq<Byte>): (h: Header)
    requires |raw| == HEADER_SIZE
    ensures h.Header? && IsU8(h.cmd) && IsU8(h.ver) && IsU16(h.src)
  {
    Header(raw[0], raw[1], FromBe16(raw[2..4]))
  }

  predicate HeaderInRange(h: Header)
  {
    h.Header? && IsU8(h.cmd) && IsU8(h.ver) && IsU16(h.src)
  }

  /**
   * Header.serialize: None when struct.pack would raise (a field out of range)
   * or when the header has no fields (an AttributeError).
   */
  function SerializeHeader(h: Header): (r: Option<seq<Byte>>)
    ensures r.Some? <==> HeaderInRange(h)
    ensures r.Some? ==> |r.value| == HEADER_SIZE
  {
    if HeaderInRange(h) then Some([h.cmd, h.ver] + Be16(h.src)) else None
  }

  /** Serialising then parsing a header gives back cmd, ver and src. */
  lemma HeaderRoundTrip(h: Header)
    requires HeaderInRange(h)
    ensures SerializeHeader(h).Some?
    ensures HeaderFromNetwork(SerializeHeader(h).value) == h
  {
    var w := SerializeHeader(h).value;
    assert w[2..4] == Be16(h.src);
    Be16RoundTrip(h.src);
  }

  /** Parsing four bytes then serialising the header gives back the same bytes. */
  lemma HeaderBytesRoundTrip(raw: seq<Byte>)
    requires |raw| == HEADER_SIZE
    ensures SerializeHeader(HeaderFromNetwork(raw)) == Some(raw)
  {
    var h := HeaderFromNetwork(raw);
    assert Be16(h.src) == raw[2..4];
    assert [h.cmd, h.ver] + raw[2..4] == raw;
  }

  /**
   * A locally built header with a non-zero id is a response of version 2
   * from that id and serialises to [2, 2, src high, src low]; with id 0 it
   * has no fields and cannot be serialised.
   */
  lemma LocalHeader(routerId: int)
    ensures routerId != 0 ==> HeaderFromHost(routerId) == Header(COMMAND_RESPONSE, VERSION, routerId)
    ensures routerId != 0 && IsU16(routerId) ==>
              SerializeHeader(HeaderFromHost(routerId)) == Some([2, 2, routerId / 0x100, routerId % 0x100])
    ensures routerId == 0 ==> HeaderFromHost(routerId).Unset? && SerializeHeader(HeaderFromHost(routerId)).None?
  {
    if routerId != 0 && IsU16(routerId) {
      var b := Be16(routerId);
      assert [COMMAND_RESPONSE, VERSION] + b == [2, 2, routerId / 0x100, routerId % 0x100];
    }
  }

  // ---------------------------------------------------------------------------
  // Route table entry
  // ---------------------------------------------------------------------------

  /**
   * An RTE object: the six wire fields, then the router's bookkeeping
   * (`changed`, `imported`, `isGarbage`, and `timeout`, the clock reading of
   * the last refresh, None for an imported entry).
   */
  datatype Rte = Rte(afi: int, tag: int, addr: int, mask: int, nextHop: int, metric: int,
                     changed: bool, imported: bool, isGarbage: bool, timeout: Option<int>)

  /** RTE.init_timeout: restart the entry's timer (none for an imported entry) and clear garbage. */
  function InitTimeout(e: Rte, now: int): (r: Rte)
    ensures !r.isGarbage
    ensures r.timeout.None? <==> e.imported
    ensures !e.imported ==> r.timeout == Some(now)
    ensures r.(timeout := e.timeout, isGarbage := e.isGarbage) == e
  {
    e.(timeout := if e.imported then None else Some(now), isGarbage := false)
  }

  /** RTE(address=..., next_hop=..., metric=..., imported=...): an entry built locally. */
  function RteFromHost(address: int, nextHop: int, metric: int, imported: bool, now: int): (r: Rte)
    ensures r.afi == AF_INET && r.tag == 0 && r.mask == 0
    ensures r.addr == address && r.nextHop == nextHop && r.metric == metric
    ensures !r.changed && r.imported == imported && !r.isGarbage
    ensures r.timeout == if imported then None else Some(now)
  {
    InitTimeout(Rte(AF_INET, 0, address, 0, nextHop, metric, false, imported, false, None), now)
  }

  /**
   * RTE(raw_data, src_id): the six fields unpacked from exactly twenty bytes;
   * a zero next hop means "the sender", so it becomes the sender's id.
   */
  function RteFromNetwork(raw: seq<Byte>, srcId: int, now: int): (r: Rte)
    requires |raw| == RTE_SIZE
  {
    var nextHop := FromBe32(raw[12..16]);
    InitTimeout(Rte(FromBe16(raw[0..2]), FromBe16(raw[2..4]), FromBe32(raw[4..8]), FromBe32(raw[8..12]),
                    if nextHop == 0 then srcId else nextHop, FromBe32(raw[16..20]),
                    false, false, false, None), now)
  }

  /** RTE.__eq__: the six wire fields agree; the bookkeeping fields are not compared. */
  predicate RteEq(a: Rte, b: Rte)
  {
    a.afi == b.afi && a.addr == b.addr && a.mask == b.mask && a.tag == b.tag &&
    a.nextHop == b.nextHop && a.metric == b.metric
  }

  predicate RteInRange(e: Rte)
  {
    IsU16(e.afi) && IsU16(e.tag) && IsU32(e.addr) && IsU32(e.mask) && IsU32(e.nextHop) && IsU32(e.metric)
  }

  /** RTE.serialize: afi, tag, addr, mask, next hop, metric; None when struct.pack would raise. */
  function SerializeRte(e: Rte): (r: Option<seq<Byte>>)
    ensures r.Some? <==> RteInRange(e)
    ensures r.Some? ==> |r.value| == RTE_SIZE
  {
    if RteInRange(e) then
      Some(Be16(e.afi) + Be16(e.tag) + Be32(e.addr) + Be32(e.mask) + Be32(e.nextHop) + Be32(e.metric))
    else None
  }

  /** What a receiver reads back for an entry sent by `srcId`: a zero next hop names the sender. */
  function WithSource(e: Rte, srcId: int): Rte
  {
    if e.nextHop == 0 then e.(nextHop := srcId) else e
  }

  /** The twenty bytes of a serialised entry, field by field. */
  lemma RteLayout(e: Rte)
    requires RteInRange(e)
    ensures var w := SerializeRte(e).value;
            w[0..2] == Be16(e.afi) && w[2..4] == Be16(e.tag) && w[4..8] == Be32(e.addr) &&
            w[8..12] == Be32(e.mask) && w[12..16] == Be32(e.nextHop) && w[16..20] == Be32(e.metric)
  {
    var w := SerializeRte(e).value;
    var a, t, d, m, n := Be16(e.afi), Be16(e.tag), Be32(e.addr), Be32(e.mask), Be32(e.nextHop);
    assert w == a + t + d + m + n + Be32(e.metric);
    assert w[0..2] == a;
    assert w[2..4] == t;
    assert w[4..8] == d;
    assert w[8..12] == m;
    assert w[12..16] == n;
    assert w[16..20] == Be32(e.metric);
  }

  /**
   * Parsing a serialised entry gives an entry equal to the original under
   * RTE.__eq__, except that a zero next hop comes back as the sender's id;
   * the parsed entry is fresh: not imported, not changed, not garbage, timed now.
   */
  lemma RteRoundTrip(e: Rte, srcId: int, now: int)
    requires RteInRange(e)
    ensures SerializeRte(e).Some?
    ensures var r := RteFromNetwork(SerializeRte(e).value, srcId, now);
            RteEq(r, WithSource(e, srcId)) &&
            !r.imported && !r.changed && !r.isGarbage && r.timeout == Some(now)
  {
    RteLayout(e);
    Be16RoundTrip(e.afi);
    Be16RoundTrip(e.tag);
    Be32RoundTrip(e.addr);
    Be32RoundTrip(e.mask);
    Be32RoundTrip(e.nextHop);
    Be32RoundTrip(e.metric);
  }

  /** A locally built entry is an IPv4 entry with tag 0 and mask 0, and serialises when its fields fit. */
  lemma LocalRte(address: int, nextHop: int, metric: int, imported: bool, now: int)
    requires IsU32(address) && IsU32(nextHop) && IsU32(metric)
    ensures var w := SerializeRte(RteFromHost(address, nextHop, metric, imported, now));
            w.Some? && w.value[0..2] == [0, 2] && w.value[2..4] == [0, 0] && w.value[8..12] == [0, 0, 0, 0]
  {
    RteLayout(RteFromHost(address, nextHop, metric, imported, now));
  }

  // ---------------------------------------------------------------------------
  // Packet
  // ---------------------------------------------------------------------------

  datatype Packet = Packet(header: Header, rtes: seq<Rte>)

  /** Why a received datagram yields no usable packet. */
  datatype DecodeError =
    | EmptyDatagram     // Packet(data=b'') takes the local path and has no entries to iterate
    | TruncatedHeader   // struct.unpack of a header shorter than four bytes

  /** Number of whole entries after the header: int((datalen - Header.SIZE) / RTE.SIZE). */
  function RteCount(datalen: nat): nat
    requires datalen >= HEADER_SIZE
  {
    (datalen - HEADER_SIZE) / RTE_SIZE
  }

  /** The i-th twenty-byte slice after the header. */
  function RteSlice(data: seq<Byte>, i: nat): (s: seq<Byte>)
    requires HEADER_SIZE + RTE_SIZE * (i + 1) <= |data|
    ensures |s| == RTE_SIZE
  {
    data[HEADER_SIZE + RTE_SIZE * i .. HEADER_SIZE + RTE_SIZE * (i + 1)]
  }

  /** The first `count` entries of a datagram, parsed slice by slice. */
  function ParsedRtes(data: seq<Byte>, srcId: int, count: nat, now: int): (r: seq<Rte>)
    requires HEADER_SIZE + RTE_SIZE * count <= |data|
    ensures |r| == count
  {
    if count == 0 then []
    else ParsedRtes(data, srcId, count - 1, now) + [RteFromNetwork(RteSlice(data, count - 1), srcId, now)]
  }

  /** Packet(data): the header from the first four bytes, then every whole twenty-byte entry. */
  function PacketFromNetwork(data: seq<Byte>, now: int): (r: Result<Packet, DecodeError>)
  {
    if |data| == 0 then Err(EmptyDatagram)
    else if |data| < HEADER_SIZE then Err(TruncatedHeader)
    else
      assert HEADER_SIZE + RTE_SIZE * RteCount(|data|) <= |data|;
      var header := HeaderFromNetwork(data[..HEADER_SIZE]);
      Ok(Packet(header, ParsedRtes(data, header.src, RteCount(|data|), now)))
  }

  /** Packet._from_network: the loop that advances rte_start and rte_end over the datagram. */
  method FromNetwork(data: seq<Byte>, now: int) returns (r: Result<Packet, DecodeError>)
    ensures r == PacketFromNetwork(data, now)
  {
    if |data| == 0 {
      return Err(EmptyDatagram);
    }
    if |data| < HEADER_SIZE {
      return Err(TruncatedHeader);
    }
    var rteCount := (|data| - HEADER_SIZE) / RTE_SIZE;
    var header := HeaderFromNetwork(data[0..HEADER_SIZE]);
    var rteStart, rteEnd := HEADER_SIZE, HEADER_SIZE + RTE_SIZE;
    var rtes: seq<Rte> := [];
    var n := 0;
    while n < rteCount
      invariant 0 <= n <= rteCount
      invariant rteStart == HEADER_SIZE + RTE_SIZE * n && rteEnd == rteStart + RTE_SIZE
      invariant rtes == ParsedRtes(data, header.src, n, now)
    {
      rtes := rtes + [RteFromNetwork(data[rteStart..rteEnd], header.src, now)];
      rteStart := rteStart + RTE_SIZE;
      rteEnd := rteEnd + RTE_SIZE;
      n := n + 1;
    }
    return Ok(Packet(header, rtes));
  }

  /** The entries' bytes, concatenated in order; None as soon as one entry cannot be packed. */
  function SerializeRtes(es: seq<Rte>): (r: Option<seq<Byte>>)
    ensures r.Some? <==> forall i :: 0 <= i < |es| ==> RteInRange(es[i])
    ensures r.Some? ==> |r.value| == RTE_SIZE * |es|
  {
    if es == [] then Some([])
    else
      var init := SerializeRtes(es[..|es| - 1]);
      var last := SerializeRte(es[|es| - 1]);
      if init.Some? && last.Some? then Some(init.value + last.value) else None
  }

  /** Packet.serialize: header bytes followed by every entry's bytes. */
  function SerializePacket(p: Packet): (r: Option<seq<Byte>>)
    ensures r.Some? <==> HeaderInRange(p.header) && SerializeRtes(p.rtes).Some?
    ensures r.Some? ==> |r.value| == HEADER_SIZE + RTE_SIZE * |p.rtes|
  {
    var h := SerializeHeader(p.header);
    var b := SerializeRtes(p.rtes);
    if h.Some? && b.Some? then Some(h.value + b.value) else None
  }

  /** Packet.serialize as the source writes it: append each entry's bytes in a loop. */
  method Serialize(p: Packet) returns (r: Option<seq<Byte>>)
    ensures r == SerializePacket(p)
  {
    var header := SerializeHeader(p.header);
    if header.None? {
      return None;
    }
    var packet := header.value;
    var i := 0;
    while i < |p.rtes|
      invariant 0 <= i <= |p.rtes|
      invariant SerializeRtes(p.rtes[..i]).Some?
      invariant packet == header.value + SerializeRtes(p.rtes[..i]).value
    {
      var rte := SerializeRte(p.rtes[i]);
      if rte.None? {
        assert SerializeRtes(p.rtes).None? by {
          assert !RteInRange(p.rtes[i]);
        }
        return None;
      }
      assert p.rtes[..i + 1][..i] == p.rtes[..i];
      packet := packet + rte.value;
      i := i + 1;
    }
    assert p.rtes[..i] == p.rtes;
    return Some(packet);
  }

  /** Entry i of a serialised entry list sits at bytes [20i, 20i + 20). */
  lemma {:induction false} SerializedRteAt(es: seq<Rte>, i: nat)
    requires SerializeRtes(es).Some? && i < |es|
    ensures SerializeRtes(es).value[RTE_SIZE * i .. RTE_SIZE * (i + 1)] == SerializeRte(es[i]).value
  {
    var n := |es|;
    var init := SerializeRtes(es[..n - 1]).value;
    var last := SerializeRte(es[n - 1]).value;
    assert SerializeRtes(es).value == init + last;
    assert |init| == RTE_SIZE * (n - 1);
    if i < n - 1 {
      SerializedRteAt(es[..n - 1], i);
      assert es[..n - 1][i] == es[i];
      assert RTE_SIZE * (i + 1) <= |init|;
      assert (init + last)[RTE_SIZE * i .. RTE_SIZE * (i + 1)] == init[RTE_SIZE * i .. RTE_SIZE * (i + 1)];
    } else {
      assert RTE_SIZE * i == |init|;
      assert (init + last)[|init| ..] == last;
    }
  }

  /** Entry i of a parsed datagram is parsed from the i-th slice. */
  lemma {:induction false} ParsedRteAt(data: seq<Byte>, srcId: int, count: nat, now: int, i: nat)
    requires HEADER_SIZE + RTE_SIZE * count <= |data| && i < count
    ensures ParsedRtes(data, srcId, count, now)[i] == RteFromNetwork(RteSlice(data, i), srcId, now)
  {
    if i < count - 1 {
      ParsedRteAt(data, srcId, count - 1, now, i);
    }
  }

  /**
   * Decoding a datagram of at least four bytes yields floor((len - 4) / 20)
   * entries, entry i parsed from bytes [4 + 20i, 24 + 20i) with the header's
   * src as sender; every decoded entry is fresh and not imported.
   */
  lemma DecodeShape(data: seq<Byte>, now: int)
    requires |data| >= HEADER_SIZE
    ensures var r := PacketFromNetwork(data, now);
            r.Ok? && r.value.header == HeaderFromNetwork(data[..HEADER_SIZE]) &&
            |r.value.rtes| == (|data| - HEADER_SIZE) / RTE_SIZE &&
            forall i :: 0 <= i < |r.value.rtes| ==>
              r.value.rtes[i] == RteFromNetwork(data[HEADER_SIZE + RTE_SIZE * i .. HEADER_SIZE + RTE_SIZE * (i + 1)], r.value.header.src, now)
  {
    var r := PacketFromNetwork(data, now).value;
    forall i | 0 <= i < |r.rtes|
      ensures r.rtes[i] == RteFromNetwork(data[HEADER_SIZE + RTE_SIZE * i .. HEADER_SIZE + RTE_SIZE * (i + 1)], r.header.src, now)
    {
      ParsedRteAt(data, r.header.src, RteCount(|data|), now, i);
    }
  }

  /** Every decoded entry is a fresh network entry: not imported, not garbage, timed at `now`. */
  lemma DecodedEntriesFresh(data: seq<Byte>, now: int)
    requires PacketFromNetwork(data, now).Ok?
    ensures forall e :: e in PacketFromNetwork(data, now).value.rtes ==>
              !e.imported && !e.changed && !e.isGarbage && e.timeout == Some(now)
  {
    var r := PacketFromNetwork(data, now).value;
    forall e | e in r.rtes
      ensures !e.imported && !e.changed && !e.isGarbage && e.timeout == Some(now)
    {
      var i :| 0 <= i < |r.rtes| && r.rtes[i] == e;
      ParsedRteAt(data, r.header.src, RteCount(|data|), now, i);
    }
  }

  /** Bytes after the last whole entry are ignored. */
  lemma TrailingBytesIgnored(data: seq<Byte>, extra: seq<Byte>, now: int)
    requires |data| >= HEADER_SIZE && (|data| - HEADER_SIZE) % RTE_SIZE == 0 && |extra| < RTE_SIZE
    ensures PacketFromNetwork(data + extra, now) == PacketFromNetwork(data, now)
  {
    var d := data + extra;
    assert d[..HEADER_SIZE] == data[..HEADER_SIZE];
    var n := RteCount(|data|);
    assert RteCount(|d|) == n;
    var src := HeaderFromNetwork(data[..HEADER_SIZE]).src;
    var a := ParsedRtes(d, src, n, now);
    var b := ParsedRtes(data, src, n, now);
    forall i | 0 <= i < n
      ensures a[i] == b[i]
    {
      ParsedRteAt(d, src, n, now, i);
      ParsedRteAt(data, src, n, now, i);
      assert RteSlice(d, i) == RteSlice(data, i);
    }
    assert a == b;
  }

  /**
   * Serialising a packet and parsing the bytes back gives the same header
   * and the same number of entries, each equal under RTE.__eq__ to the
   * original with a zero next hop replaced by the header's src.
   */
  lemma PacketRoundTrip(p: Packet, now: int)
    requires SerializePacket(p).Some?
    ensures var r := PacketFromNetwork(SerializePacket(p).value, now);
            r.Ok? && r.value.header == p.header && |r.value.rtes| == |p.rtes| &&
            forall i :: 0 <= i < |p.rtes| ==> RteEq(r.value.rtes[i], WithSource(p.rtes[i], p.header.src))
  {
    var hb := SerializeHeader(p.header).value;
    var body := SerializeRtes(p.rtes).value;
    var w := hb + body;
    assert w == SerializePacket(p).value;
    assert w[..HEADER_SIZE] == hb;
    HeaderRoundTrip(p.header);
    DecodeShape(w, now);
    var r := PacketFromNetwork(w, now).value;
    forall i | 0 <= i < |p.rtes|
      ensures RteEq(r.rtes[i], WithSource(p.rtes[i], p.header.src))
    {
      SerializedRteAt(p.rtes, i);
      assert w[HEADER_SIZE + RTE_SIZE * i .. HEADER_SIZE + RTE_SIZE * (i + 1)] == body[RTE_SIZE * i .. RTE_SIZE * (i + 1)];
      RteRoundTrip(p.rtes[i], p.header.src, now);
    }
  }
}
