/** Reading reports and key frame requests back. */
module RtcpReports {
  import opened Bytes
  import opened Collections
  import opened Compound
  import opened RtcpPackets

  /** What `rtc_rtcp_parse` fills in; blocks that are cut off are left out. */
  datatype Parsed = Parsed(kind: int, ssrc: int, info: Option<SenderInfo>, blocks: seq<Block>)

  const INFO_SIZE: int := 20
  const BLOCK_SIZE: int := 24

  /** A 24-bit number with its sign. */
  function SignExtended(v: int): int
  {
    if v >= 0x80_0000 then v - 0x100_0000 else v
  }

  function ReadBlock(data: seq<int>, p: int): Block
    requires 0 <= p && p + BLOCK_SIZE <= |data|
  {
    var field := Read32(data, p + 4);
    Block(Read32(data, p), field / 0x100_0000 % 256, SignExtended(field % 0x100_0000), Read32(data, p + 8),
          Read32(data, p + 12), Read32(data, p + 16), Read32(data, p + 20))
  }

  function ReadBlocks(data: seq<int>, p: int, count: int): seq<Block>
    requires 0 <= p
    decreases count
  {
    if count <= 0 || p + BLOCK_SIZE > |data| then []
    else [ReadBlock(data, p)] + ReadBlocks(data, p + BLOCK_SIZE, count - 1)
  }

  function ReadInfo(data: seq<int>): SenderInfo
    requires |data| >= 28
  {
    SenderInfo(Read32(data, 8), Read32(data, 12), Read32(data, 16), Read32(data, 20), Read32(data, 24))
  }

  /** `rtc_rtcp_parse` */
  function Parse(data: seq<int>): Option<Parsed>
    requires AreBytes(data)
  {
    if |data| < 8 || data[0] / 64 % 4 != 2 || (Read16(data, 2) + 1) * 4 > |data| then None
    else
      var sender := data[1] == SR;
      if sender && 8 + INFO_SIZE > |data| then None
      else
        Some(Parsed(data[1], Read32(data, 4), if sender then Some(ReadInfo(data)) else None,
                    ReadBlocks(data, if sender then 8 + INFO_SIZE else 8, data[0] % 32)))
  }

  /** The parser, with its loop over the blocks. */
  method ParseReport(data: seq<int>) returns (parsed: Option<Parsed>)
    requires AreBytes(data)
    ensures parsed == Parse(data)
  {
    if |data| < 8 || data[0] / 64 % 4 != 2 || (Read16(data, 2) + 1) * 4 > |data| {
      return None;
    }
    var offset, info := 8, None;
    if data[1] == SR {
      if offset + INFO_SIZE > |data| {
        return None;
      }
      info := Some(ReadInfo(data));
      offset := offset + INFO_SIZE;
    }
    var count, i, blocks := data[0] % 32, 0, [];
    ghost var all := ReadBlocks(data, offset, count);
    assert [] + all == all;
    while i < count && i < 31
      invariant 0 <= i <= count && 8 <= offset && all == blocks + ReadBlocks(data, offset, count - i)
    {
      if offset + BLOCK_SIZE > |data| {
        break;
      }
      ConcatAssociates(blocks, [ReadBlock(data, offset)], ReadBlocks(data, offset + BLOCK_SIZE, count - i - 1));
      blocks := blocks + [ReadBlock(data, offset)];
      offset := offset + BLOCK_SIZE;
      i := i + 1;
    }
    assert blocks + [] == blocks;
    return Some(Parsed(data[1], Read32(data, 4), info, blocks));
  }

  // ----- the round trip -----

  lemma {:induction false} WordsRead(data: seq<int>, p: int, words: seq<int>, i: int, k: int)
    requires 0 <= i <= k < |words| && (forall j | 0 <= j < |words| :: IsWord(words[j]))
    requires Occurs(data, p, WordBytes(words, i))
    ensures p + 4 * (k - i) + 4 <= |data| && Read32(data, p + 4 * (k - i)) == words[k]
    decreases k - i
  {
    assert IsWord(words[i]);
    OccursSplit(data, p, U32(words[i]), WordBytes(words, i + 1));
    if k == i {
      OccursRead32(data, p, words[i]);
    } else {
      WordsRead(data, p + 4, words, i + 1, k);
    }
  }

  /** The words stand in the data one after the other, from offset p on. */
  ghost predicate Spelled(data: seq<int>, p: int, words: seq<int>)
  {
    0 <= p && p + 4 * |words| <= |data| && forall k | 0 <= k < |words| :: Read32(data, p + 4 * k) == words[k]
  }

  lemma WordsSpelled(data: seq<int>, p: int, words: seq<int>, i: int)
    requires i == 0 && (forall j | 0 <= j < |words| :: IsWord(words[j])) && Occurs(data, p, WordBytes(words, i))
    ensures Spelled(data, p, words)
  {
    forall k | 0 <= k < |words|
      ensures Read32(data, p + 4 * k) == words[k]
    {
      WordsRead(data, p, words, i, k);
    }
  }

  lemma {:induction false} BlockWordAt(blocks: seq<Block>, i: int, j: int, f: int)
    requires AreBlocks(blocks) && 0 <= i <= j < |blocks| && 0 <= f < 6
    ensures AllBlockWords(blocks, i)[6 * (j - i) + f] == BlockWords(blocks[j])[f]
    decreases j - i
  {
    if i < j {
      BlockWordAt(blocks, i + 1, j, f);
      assert AllBlockWords(blocks, i)[6 * (j - i) + f] == AllBlockWords(blocks, i + 1)[6 * (j - i - 1) + f];
    }
  }

  /** The losses a block can say: 24 bits with a sign. */
  predicate Countable(b: Block)
  {
    -0x80_0000 <= b.lost < 0x80_0000
  }

  /** Such a block with its losses cut to what it can say. */
  function Told(b: Block): Block
  {
    b.(lost := SignExtended(b.lost % 0x100_0000))
  }

  lemma ToldExactly(b: Block)
    ensures Told(b) == b <==> Countable(b)
  {
  }

  lemma BlockFields(data: seq<int>, p: int, b: Block)
    requires IsBlock(b) && 0 <= p && p + BLOCK_SIZE <= |data|
    requires forall f | 0 <= f < 6 :: Read32(data, p + 4 * f) == BlockWords(b)[f]
    ensures ReadBlock(data, p) == Told(b)
  {
    var w := BlockWords(b);
    assert Read32(data, p + 4 * 0) == w[0] && Read32(data, p + 4 * 1) == w[1] && Read32(data, p + 4 * 2) == w[2];
    assert Read32(data, p + 4 * 3) == w[3] && Read32(data, p + 4 * 4) == w[4] && Read32(data, p + 4 * 5) == w[5];
  }

  function AllTold(blocks: seq<Block>, i: int): (r: seq<Block>)
    requires 0 <= i <= |blocks|
    ensures |r| == |blocks| - i && forall j | 0 <= j < |r| :: r[j] == Told(blocks[i + j])
    decreases |blocks| - i
  {
    if i == |blocks| then [] else [Told(blocks[i])] + AllTold(blocks, i + 1)
  }

  lemma {:induction false} BlocksRead(data: seq<int>, p: int, words: seq<int>, base: int, blocks: seq<Block>, i: int)
    requires AreBlocks(blocks) && 0 <= base && |words| == base + 6 * |blocks| && 0 <= i <= |blocks|
    requires words[base..] == AllBlockWords(blocks, 0) && Spelled(data, p, words)
    ensures ReadBlocks(data, p + 4 * base + BLOCK_SIZE * i, |blocks| - i) == AllTold(blocks, i)
    decreases |blocks| - i
  {
    if i < |blocks| {
      var at := p + 4 * base + BLOCK_SIZE * i;
      forall f | 0 <= f < 6
        ensures Read32(data, at + 4 * f) == BlockWords(blocks[i])[f]
      {
        BlockWordAt(blocks, 0, i, f);
        assert words[base..][6 * i + f] == words[base + 6 * i + f];
        assert Read32(data, p + 4 * (base + 6 * i + f)) == words[base + 6 * i + f];
      }
      BlockFields(data, at, blocks[i]);
      BlocksRead(data, p, words, base, blocks, i + 1);
    }
  }

  lemma HeaderRead(count: int, kind: int, words: seq<int>, data: seq<int>)
    requires 0 <= count < 32 && 0 <= kind < 256 && |words| < 0x1_0000 && forall k | 0 <= k < |words| :: IsWord(words[k])
    requires data == PacketOf(count, kind, words)
    ensures IsPacket(data) && |data| == 4 + 4 * |words| && data[0] == 128 + count && data[1] == kind
    ensures Spelled(data, 4, words)
  {
    PacketOfIs(count, kind, words);
    BodyAt(data, [128 + count, kind] + U16((4 + |WordBytes(words, 0)|) / 4 - 1), WordBytes(words, 0));
    WordsSpelled(data, 4, words, 0);
  }

  lemma BodyAt(data: seq<int>, head: seq<int>, body: seq<int>)
    requires data == head + body
    ensures Occurs(data, |head|, body)
  {
  }

  lemma InfoRead(data: seq<int>, words: seq<int>, i: SenderInfo)
    requires IsInfo(i) && |words| >= 6 && Spelled(data, 4, words) && words[1..6] == InfoWords(Some(i))
    ensures |data| >= 28 && ReadInfo(data) == i
  {
    var w := words[1..6];
    assert w[0] == words[1] && w[1] == words[2] && w[2] == words[3] && w[3] == words[4] && w[4] == words[5];
  }

  lemma Assembled(data: seq<int>, ssrc: int, info: Option<SenderInfo>, n: int, told: seq<Block>)
    requires IsPacket(data) && |data| >= 8 && 0 <= n < 32 && data[0] == 128 + n
    requires data[1] == (if info.Some? then SR else RR) && Read32(data, 4) == ssrc
    requires info.Some? ==> |data| >= 28 && ReadInfo(data) == info.value
    requires ReadBlocks(data, if info.Some? then 28 else 8, n) == told
    ensures Parse(data) == Some(Parsed(if info.Some? then SR else RR, ssrc, info, told))
  {
  }

  lemma WordsParsed(data: seq<int>, ssrc: int, info: Option<SenderInfo>, blocks: seq<Block>, words: seq<int>)
    requires AreBlocks(blocks) && |blocks| < 32 && (info.Some? ==> IsInfo(info.value))
    requires |words| == 1 + |InfoWords(info)| + 6 * |blocks| && words[0] == ssrc
    requires words[1..1 + |InfoWords(info)|] == InfoWords(info)
    requires words[1 + |InfoWords(info)|..] == AllBlockWords(blocks, 0)
    requires IsPacket(data) && data[0] == 128 + |blocks| && data[1] == (if info.Some? then SR else RR)
    requires Spelled(data, 4, words)
    ensures Parse(data) == Some(Parsed(if info.Some? then SR else RR, ssrc, info, AllTold(blocks, 0)))
  {
    assert Read32(data, 4 + 4 * 0) == words[0];
    BlocksRead(data, 4, words, 1 + |InfoWords(info)|, blocks, 0);
    if info.Some? {
      InfoRead(data, words, info.value);
    }
    Assembled(data, ssrc, info, |blocks|, AllTold(blocks, 0));
  }

  lemma InThree(first: int, second: seq<int>, third: seq<int>, words: seq<int>)
    requires words == [first] + second + third
    ensures words[0] == first && words[1..1 + |second|] == second && words[1 + |second|..] == third
  {
  }

  /** Every field of a report comes back, of up to 31 blocks; of the losses the
      24 bits that are sent. */
  lemma ReportParsed(ssrc: int, info: Option<SenderInfo>, blocks: seq<Block>, data: seq<int>)
    requires IsWord(ssrc) && (info.Some? ==> IsInfo(info.value)) && AreBlocks(blocks) && |blocks| < 32
    requires data == ReportOf(ssrc, info, blocks)
    ensures AreBytes(data)
    ensures Parse(data) == Some(Parsed(if info.Some? then SR else RR, ssrc, info, AllTold(blocks, 0)))
  {
    var sender, rest := InfoWords(info), AllBlockWords(blocks, 0);
    var words := [ssrc] + sender + rest;
    InThree(ssrc, sender, rest, words);
    HeaderRead(|blocks|, if info.Some? then SR else RR, words, data);
    WordsParsed(data, ssrc, info, blocks, words);
  }

  /** What the library's own builder writes comes back unchanged exactly if the
      losses fit 24 bits with a sign. */
  lemma BuiltReportParsed(ssrc: int, info: Option<SenderInfo>, block: Option<Block>, data: seq<int>)
    requires IsWord(ssrc) && (info.Some? ==> IsInfo(info.value)) && (block.Some? ==> IsBlock(block.value))
    requires data == Report(ssrc, info, block)
    ensures AreBytes(data)
    ensures var blocks := if block.Some? then [block.value] else [];
            Parse(data) == Some(Parsed(if info.Some? then SR else RR, ssrc, info, blocks))
            <==> (block.Some? ==> Countable(block.value))
  {
    var blocks := if block.Some? then [block.value] else [];
    ReportParsed(ssrc, info, blocks, data);
    if block.Some? {
      ToldExactly(block.value);
      assert AllTold(blocks, 0)[0] == Told(block.value);
      assert AllTold(blocks, 0) == [Told(block.value)];
    }
  }

  // ----- key frame requests -----

  /** `rtc_rtcp_parse_pli`: the sender and the media source */
  function ParsePli(data: seq<int>): Option<(int, int)>
    requires AreBytes(data)
  {
    if |data| < 12 || data[0] / 64 % 4 != 2 then None else Some((Read32(data, 4), Read32(data, 8)))
  }

  /** `rtc_rtcp_parse_fir`: the sender, the media source and the request's number */
  function ParseFir(data: seq<int>): Option<(int, int, int)>
    requires AreBytes(data)
  {
    if |data| < 20 || data[0] / 64 % 4 != 2 then None else Some((Read32(data, 4), Read32(data, 12), data[16]))
  }

  lemma PliParsed(sender: int, media: int, data: seq<int>)
    requires IsWord(sender) && IsWord(media) && data == Pli(sender, media)
    ensures AreBytes(data) && data[1] == PSFB && data[0] % 32 == 1 && ParsePli(data) == Some((sender, media))
  {
    FeedbackIs(sender, media, 0);
    PliFields(data, [129, PSFB] + U16(2), sender, media);
  }

  lemma PliFields(data: seq<int>, head: seq<int>, sender: int, media: int)
    requires IsWord(sender) && IsWord(media) && |head| == 4 && data == head + U32(sender) + U32(media)
    ensures |data| == 12 && data[0] == head[0] && data[1] == head[1]
    ensures Read32(data, 4) == sender && Read32(data, 8) == media
  {
    var a := head + U32(sender);
    assert Occurs(data, 0, a + U32(media));
    OccursSplit(data, 0, a, U32(media));
    OccursSplit(data, 0, head, U32(sender));
    OccursRead32(data, 4, sender);
    OccursRead32(data, 8, media);
    assert data[0 + 0] == head[0] && data[0 + 1] == head[1];
  }

  lemma FirParsed(sender: int, media: int, number: int, data: seq<int>)
    requires IsWord(sender) && IsWord(media) && 0 <= number < 256 && data == Fir(sender, media, number)
    ensures AreBytes(data) && data[1] == PSFB && data[0] % 32 == 4 && ParseFir(data) == Some((sender, media, number))
  {
    FeedbackIs(sender, media, number);
    FirFields(data, [132, PSFB] + U16(4), sender, 0, media, [number, 0, 0, 0]);
  }

  lemma FirFields(data: seq<int>, head: seq<int>, sender: int, zero: int, media: int, tail: seq<int>)
    requires IsWord(sender) && IsWord(zero) && IsWord(media) && |head| == 4 && |tail| == 4
    requires data == head + U32(sender) + U32(zero) + U32(media) + tail
    ensures |data| == 20 && data[0] == head[0] && data[1] == head[1] && data[16] == tail[0]
    ensures Read32(data, 4) == sender && Read32(data, 12) == media
  {
    var a := head + U32(sender);
    var b := a + U32(zero);
    var c := b + U32(media);
    assert Occurs(data, 0, c + tail);
    OccursSplit(data, 0, c, tail);
    OccursSplit(data, 0, b, U32(media));
    OccursSplit(data, 0, a, U32(zero));
    OccursSplit(data, 0, head, U32(sender));
    OccursRead32(data, 4, sender);
    OccursRead32(data, 12, media);
    assert data[0 + 0] == head[0] && data[0 + 1] == head[1] && data[16 + 0] == tail[0];
  }
}
