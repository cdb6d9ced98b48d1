/** The RTCP packets of this library, each of which says its own length. */
module RtcpPackets {
  import opened Bytes
  import opened Collections
  import opened Compound
  import NackFormat
  import TwccFormat

  predicate IsWord(v: int)
  {
    0 <= v < 0x1_0000_0000
  }

  /** 32-bit words, from i on. */
  function WordBytes(words: seq<int>, i: int): (r: seq<int>)
    requires 0 <= i <= |words| && forall k | 0 <= k < |words| :: IsWord(words[k])
    ensures |r| == 4 * (|words| - i) && AreBytes(r)
    decreases |words| - i
  {
    if i == |words| then [] else assert IsWord(words[i]); U32(words[i]) + WordBytes(words, i + 1)
  }

  /** A packet of words after its four header bytes; the length field is worked
      out from the number of bytes written. */
  function PacketOf(count: int, kind: int, words: seq<int>): seq<int>
    requires 0 <= count < 32 && 0 <= kind < 256 && |words| < 0x1_0000 && forall k | 0 <= k < |words| :: IsWord(words[k])
  {
    [128 + count, kind] + U16((4 + |WordBytes(words, 0)|) / 4 - 1) + WordBytes(words, 0)
  }

  lemma PacketOfIs(count: int, kind: int, words: seq<int>)
    requires 0 <= count < 32 && 0 <= kind < 256 && |words| < 0x1_0000 && forall k | 0 <= k < |words| :: IsWord(words[k])
    ensures IsPacket(PacketOf(count, kind, words))
  {
  }

  /** A reception report block. */
  datatype Block = Block(ssrc: int, fraction: int, lost: int, highest: int, jitter: int, lastSr: int, delay: int)

  predicate IsBlock(b: Block)
  {
    && IsWord(b.ssrc) && 0 <= b.fraction < 256 && IsWord(b.highest) && IsWord(b.jitter) && IsWord(b.lastSr)
    && IsWord(b.delay)
  }

  /** The fraction in the top byte, the loss modulo 2^24 below it. */
  function BlockWords(b: Block): (r: seq<int>)
    requires IsBlock(b)
    ensures |r| == 6 && forall k | 0 <= k < 6 :: IsWord(r[k])
  {
    [b.ssrc, b.fraction * 0x100_0000 + b.lost % 0x100_0000, b.highest, b.jitter, b.lastSr, b.delay]
  }

  /** Sender information of a sender report. */
  datatype SenderInfo = SenderInfo(seconds: int, fraction: int, timestamp: int, packets: int, octets: int)

  predicate IsInfo(i: SenderInfo)
  {
    IsWord(i.seconds) && IsWord(i.fraction) && IsWord(i.timestamp) && IsWord(i.packets) && IsWord(i.octets)
  }

  function InfoWords(info: Option<SenderInfo>): (r: seq<int>)
    requires info.Some? ==> IsInfo(info.value)
    ensures |r| == (if info.Some? then 5 else 0) && forall k | 0 <= k < |r| :: IsWord(r[k])
  {
    if info.None? then []
    else [info.value.seconds, info.value.fraction, info.value.timestamp, info.value.packets, info.value.octets]
  }

  ghost predicate AreBlocks(blocks: seq<Block>)
  {
    forall i | 0 <= i < |blocks| :: IsBlock(blocks[i])
  }

  /** The blocks from i on. */
  function AllBlockWords(blocks: seq<Block>, i: int): (r: seq<int>)
    requires 0 <= i <= |blocks| && AreBlocks(blocks)
    ensures |r| == 6 * (|blocks| - i) && forall k | 0 <= k < |r| :: IsWord(r[k])
    decreases |blocks| - i
  {
    if i == |blocks| then [] else BlockWords(blocks[i]) + AllBlockWords(blocks, i + 1)
  }

  /** A report of any sender, with up to 31 blocks. */
  function ReportOf(ssrc: int, info: Option<SenderInfo>, blocks: seq<Block>): seq<int>
    requires IsWord(ssrc) && (info.Some? ==> IsInfo(info.value)) && AreBlocks(blocks) && |blocks| < 32
  {
    PacketOf(|blocks|, if info.Some? then SR else RR, [ssrc] + InfoWords(info) + AllBlockWords(blocks, 0))
  }

  /** `rtc_rtcp_build_sr` with sender information, `rtc_rtcp_build_rr` without;
      at most one block. */
  function Report(ssrc: int, info: Option<SenderInfo>, block: Option<Block>): seq<int>
    requires IsWord(ssrc) && (info.Some? ==> IsInfo(info.value)) && (block.Some? ==> IsBlock(block.value))
  {
    ReportOf(ssrc, info, if block.Some? then [block.value] else [])
  }

  /** `rtc_rtcp_build_pli` */
  function Pli(sender: int, media: int): seq<int>
    requires IsWord(sender) && IsWord(media)
  {
    [129, PSFB] + U16(2) + U32(sender) + U32(media)
  }

  /** `rtc_rtcp_build_fir` */
  function Fir(sender: int, media: int, number: int): seq<int>
    requires IsWord(sender) && IsWord(media) && 0 <= number < 256
  {
    [132, PSFB] + U16(4) + U32(sender) + U32(0) + U32(media) + [number, 0, 0, 0]
  }

  lemma ReportIs(ssrc: int, info: Option<SenderInfo>, block: Option<Block>)
    requires IsWord(ssrc) && (info.Some? ==> IsInfo(info.value)) && (block.Some? ==> IsBlock(block.value))
    ensures IsPacket(Report(ssrc, info, block))
  {
    var blocks := if block.Some? then [block.value] else [];
    PacketOfIs(|blocks|, if info.Some? then SR else RR, [ssrc] + InfoWords(info) + AllBlockWords(blocks, 0));
  }

  lemma FeedbackIs(sender: int, media: int, number: int)
    requires IsWord(sender) && IsWord(media) && 0 <= number < 256
    ensures IsPacket(Pli(sender, media)) && IsPacket(Fir(sender, media, number))
  {
  }

  lemma NackIs(sender: int, media: int, lost: seq<int>)
    requires NackFormat.IsSsrc(sender) && NackFormat.IsSsrc(media) && NackFormat.AreNumbers(lost)
    ensures IsPacket(NackFormat.Nack(sender, media, lost))
  {
    NackFormat.NackBytes(sender, media, lost);
    var b := NackFormat.Nack(sender, media, lost);
    assert b[0] == 0x81 && b[2] == 0 && b[3] == |b| / 4 - 1;
  }

  lemma {:induction false} ChunkBytesAre(st: seq<int>, i: int)
    requires TwccFormat.AreStatuses(st) && 0 <= i <= |st|
    ensures AreBytes(TwccFormat.ChunkBytes(st, i))
    decreases |st| - i
  {
    if i < |st| {
      TwccFormat.ChunkInRange(st, i);
      ChunkBytesAre(st, TwccFormat.ChunkEnd(st, i));
    }
  }

  lemma {:induction false} DeltaBytesAre(marks: seq<TwccFormat.Mark>)
    requires forall i | 0 <= i < |marks| :: TwccFormat.IsMark(marks[i])
    ensures AreBytes(TwccFormat.DeltaBytes(marks))
  {
    if marks != [] {
      DeltaBytesAre(marks[1..]);
    }
  }

  lemma BodyAre(marks: seq<TwccFormat.Mark>)
    requires |marks| <= TwccFormat.WINDOW && forall i | 0 <= i < |marks| :: TwccFormat.IsMark(marks[i])
    ensures AreBytes(TwccFormat.Body(marks))
  {
    var st := TwccFormat.Statuses(marks);
    TwccFormat.StatusesInRange(marks);
    ChunkBytesAre(st, 0);
    DeltaBytesAre(marks);
  }

  lemma TwccIs(sender: int, media: int, base: int, fb: int, arrivals: seq<Option<int>>)
    requires TwccFormat.IsHeader(sender, media, base, fb) && |arrivals| <= TwccFormat.WINDOW
    ensures IsPacket(TwccFormat.Feedback(sender, media, base, fb, arrivals))
  {
    var marks := TwccFormat.MarksOf(arrivals);
    BodyAre(marks);
    TwccPacketIs(sender, media, base, fb, |arrivals|, TwccFormat.Reference(arrivals), TwccFormat.Body(marks));
  }

  lemma TwccPacketIs(sender: int, media: int, base: int, fb: int, count: int, reference: int, body: seq<int>)
    requires TwccFormat.IsHeader(sender, media, base, fb) && 0 <= count < 0x1_0000 && 0 <= reference < 0x100_0000
    requires AreBytes(body) && |body| <= 4 * TwccFormat.WINDOW + 3 && |body| % 4 == 0
    ensures IsPacket(TwccFormat.Packet(sender, media, base, fb, count, reference, body))
  {
    var words := (20 + |body|) / 4 - 1;
    var head := TwccFormat.Header(words, sender, media, base, count, reference, fb);
    assert AreBytes(head);
    assert (head + body)[0] == 0x8F && (head + body)[2] == words / 256 && (head + body)[3] == words % 256;
  }
}
