/** RTP packets (section 5.1 of RFC 3550). */
module Rtp {
  import opened Bytes
  import opened Collections
  import opened RtpExt

  const MAX_PAYLOAD: int := 1400
  const BUFFER: int := 1492

  /** The header fields a sender sets. */
  datatype Header = Header(marker: bool, kind: int, number: int, ts: int, ssrc: int)

  predicate IsHeader(h: Header)
  {
    0 <= h.kind < 256 && 0 <= h.number < 0x1_0000 && 0 <= h.ts < 0x1_0000_0000 && 0 <= h.ssrc < 0x1_0000_0000
  }

  function HeaderBytes(h: Header, extended: bool): (r: seq<int>)
    requires IsHeader(h)
    ensures |r| == 12 && AreBytes(r)
  {
    [if extended then 0x90 else 0x80, h.kind % 128 + if h.marker then 128 else 0]
    + U16(h.number) + U32(h.ts) + U32(h.ssrc)
  }

  /** Whether extensions can be written: none at all, or a block that fits. */
  ghost predicate Carried(exts: seq<Ext>)
  {
    exts == [] || (AreExts(exts) && 4 + |Body(exts)| <= MAX_BLOCK)
  }

  ghost function BlockOf(exts: seq<Ext>): (r: seq<int>)
    requires Carried(exts)
    ensures |r| <= MAX_BLOCK && AreBytes(r)
  {
    if exts == [] then [] else Block(exts)
  }

  ghost function Packet(h: Header, exts: seq<Ext>, payload: seq<int>): seq<int>
    requires IsHeader(h) && Carried(exts)
  {
    HeaderBytes(h, exts != []) + BlockOf(exts) + payload
  }

  datatype Parsed = Parsed(header: Header, ext: Option<seq<int>>, payload: seq<int>)

  /** Where the payload starts, if the header is complete. */
  function PayloadStart(data: seq<int>): (r: Option<int>)
    requires AreBytes(data) && |data| >= 12
    ensures r.Some? ==> 12 <= r.value <= |data|
  {
    var base := 12 + data[0] % 16 * 4;
    if data[0] / 16 % 2 == 0 then if base > |data| then None else Some(base)
    else if base + 4 > |data| then None
    else
      var start := base + 4 + Read16(data, base + 2) * 4;
      if start > |data| then None else Some(start)
  }

  /** `rtc_rtp_parse`; the extension view exists only if the packet fits the
      internal buffer and the block is not empty. */
  function Parse(data: seq<int>): Option<Parsed>
    requires AreBytes(data)
  {
    if |data| < 12 || data[0] / 64 % 4 != 2 || PayloadStart(data).None? then None
    else
      var base, start := 12 + data[0] % 16 * 4, PayloadStart(data).value;
      Some(Parsed(
        Header(data[1] / 128 % 2 == 1, data[1] % 128, Read16(data, 2), Read32(data, 4), Read32(data, 8)),
        if data[0] / 16 % 2 == 1 && start > base + 4 && |data| <= BUFFER then Some(data[base + 4..start]) else None,
        data[start..]))
  }

  lemma HeaderRead(data: seq<int>, h: Header, extended: bool)
    requires IsHeader(h) && AreBytes(data) && Occurs(data, 0, HeaderBytes(h, extended))
    ensures data[0] == (if extended then 0x90 else 0x80) && data[1] == h.kind % 128 + (if h.marker then 128 else 0)
    ensures Read16(data, 2) == h.number && Read32(data, 4) == h.ts && Read32(data, 8) == h.ssrc
  {
    var first := [if extended then 0x90 else 0x80, h.kind % 128 + if h.marker then 128 else 0];
    OccursSplit(data, 0, first + U16(h.number) + U32(h.ts), U32(h.ssrc));
    OccursSplit(data, 0, first + U16(h.number), U32(h.ts));
    OccursSplit(data, 0, first, U16(h.number));
    assert data[0 + 0] == first[0] && data[0 + 1] == first[1];
    OccursRead16(data, 2, h.number);
    OccursRead32(data, 4, h.ts);
    OccursRead32(data, 8, h.ssrc);
  }

  lemma ThreeParts(data: seq<int>, head: seq<int>, block: seq<int>, payload: seq<int>)
    requires data == head + block + payload
    ensures Occurs(data, 0, head) && Occurs(data, |head|, block) && data[|head| + |block|..] == payload
    ensures AreBytes(head) && AreBytes(block) && AreBytes(payload) ==> AreBytes(data)
  {
    assert Occurs(data, 0, head + block + payload);
    OccursSplit(data, 0, head + block, payload);
    OccursSplit(data, 0, head, block);
  }

  lemma BlockRead(data: seq<int>, exts: seq<Ext>)
    requires AreExts(exts) && exts != [] && |Body(exts)| < 0x4_0000 && Occurs(data, 12, Block(exts))
    ensures |Body(exts)| > 0 && Read16(data, 14) == |Body(exts)| / 4 && 16 + |Body(exts)| <= |data|
    ensures data[16..16 + |Body(exts)|] == Body(exts)
  {
    assert |Entries(exts, 0)| > 0;
    OccursSplit(data, 12, [0xBE, 0xDE] + U16(|Body(exts)| / 4), Body(exts));
    OccursSplit(data, 12, [0xBE, 0xDE], U16(|Body(exts)| / 4));
    OccursRead16(data, 14, |Body(exts)| / 4);
    SliceOf(data, 16, Body(exts));
  }

  lemma SliceOf(data: seq<int>, p: int, v: seq<int>)
    requires Occurs(data, p, v)
    ensures data[p..p + |v|] == v
  {
  }

  lemma StartIs(data: seq<int>, exts: seq<Ext>, payload: seq<int>)
    requires AreBytes(data) && Carried(exts) && |data| == 12 + |BlockOf(exts)| + |payload|
    requires data[0] == (if exts != [] then 0x90 else 0x80) && Occurs(data, 12, BlockOf(exts))
    ensures PayloadStart(data) == Some(12 + |BlockOf(exts)|)
  {
    if exts != [] {
      BlockRead(data, exts);
    }
  }

  lemma Unpacked(data: seq<int>, h: Header, extended: bool, start: int)
    requires IsHeader(h) && h.kind < 128 && AreBytes(data) && 12 <= start <= |data| && PayloadStart(data) == Some(start)
    requires data[0] == (if extended then 0x90 else 0x80) && data[1] == h.kind % 128 + (if h.marker then 128 else 0)
    requires Read16(data, 2) == h.number && Read32(data, 4) == h.ts && Read32(data, 8) == h.ssrc
    ensures var r := Parse(data);
            && r.Some? && r.value.header == h && r.value.payload == data[start..]
            && r.value.ext == if extended && start > 16 && |data| <= BUFFER then Some(data[16..start]) else None
  {
  }

  /** Header fields, extensions and payload come back from a built packet. */
  lemma PacketParsed(h: Header, exts: seq<Ext>, payload: seq<int>, block: seq<int>, data: seq<int>)
    requires IsHeader(h) && h.kind < 128 && Carried(exts) && AreBytes(payload) && |payload| <= MAX_PAYLOAD
    requires block == BlockOf(exts) && data == HeaderBytes(h, exts != []) + block + payload
    ensures AreBytes(data)
    ensures var r := Parse(data);
            && r.Some? && r.value.header == h && r.value.payload == payload
            && r.value.ext == if exts == [] then None else Some(Body(exts))
  {
    ThreeParts(data, HeaderBytes(h, exts != []), block, payload);
    HeaderRead(data, h, exts != []);
    StartIs(data, exts, payload);
    Unpacked(data, h, exts != [], 12 + |block|);
    if exts != [] {
      BlockRead(data, exts);
    }
  }

  /** `rtc_rtp_build_with_ext`: fails only for a payload or extensions that do not fit. */
  method Build(buf: array<int>, h: Header, exts: seq<Ext>, payload: seq<int>) returns (ok: bool, len: int)
    requires buf.Length == BUFFER && IsHeader(h) && forall i | 0 <= i < |exts| :: AreBytes(exts[i].data)
    modifies buf
    ensures ok <==> |payload| <= MAX_PAYLOAD && Carried(exts)
    ensures ok ==> len == |Packet(h, exts, payload)| && buf[..len] == Packet(h, exts, payload)
  {
    if |payload| > MAX_PAYLOAD {
      return false, 0;
    }
    Write(buf, 0, HeaderBytes(h, |exts| > 0));
    assert buf[..12] == HeaderBytes(h, exts != []);
    var head := 12;
    if |exts| > 0 {
      var n := WriteBlock(buf, 12, MAX_BLOCK, exts);
      if n < 0 {
        return false, 0;
      }
      head := 12 + n;
    }
    Write(buf, head, payload);
    return true, head + |payload|;
  }
}
