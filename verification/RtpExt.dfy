/** RTP header extensions in one-byte form (section 4.2 of RFC 8285). */
module RtpExt {
  import opened Bytes
  import opened Collections

  const MAX_ENTRIES: int := 8
  const MAX_DATA: int := 16
  const MAX_BLOCK: int := 64

  datatype Ext = Ext(id: int, data: seq<int>)

  /** An entry the one-byte form can carry. */
  predicate IsExt(e: Ext)
  {
    1 <= e.id <= 14 && 1 <= |e.data| <= MAX_DATA && AreBytes(e.data)
  }

  ghost predicate AreExts(exts: seq<Ext>)
  {
    forall i | 0 <= i < |exts| :: IsExt(exts[i])
  }

  function EntryBytes(e: Ext): (r: seq<int>)
    requires IsExt(e)
    ensures |r| == 1 + |e.data| && AreBytes(r)
  {
    [e.id * 16 + |e.data| - 1] + e.data
  }

  /** The entries from i on. */
  function Entries(exts: seq<Ext>, i: int): (r: seq<int>)
    requires AreExts(exts) && 0 <= i <= |exts|
    ensures AreBytes(r)
    decreases |exts| - i
  {
    if i == |exts| then [] else EntryBytes(exts[i]) + Entries(exts, i + 1)
  }

  /** Entries filled up to a multiple of four bytes. */
  function Body(exts: seq<Ext>): (r: seq<int>)
    requires AreExts(exts)
    ensures |r| % 4 == 0 && AreBytes(r)
  {
    var e := Entries(exts, 0);
    e + Zeros((4 - |e| % 4) % 4)
  }

  function Block(exts: seq<Ext>): (r: seq<int>)
    requires AreExts(exts) && |Body(exts)| < 0x4_0000
    ensures |r| == 4 + |Body(exts)| && AreBytes(r)
  {
    [0xBE, 0xDE] + U16(|Body(exts)| / 4) + Body(exts)
  }

  /** The loop of `rtc_rtp_ext_parse_body` from offset i on, with room for that
      many entries. */
  function ParseBody(data: seq<int>, i: int, room: int): Option<seq<Ext>>
    requires AreBytes(data) && 0 <= i
    decreases |data| - i
  {
    if i >= |data| then Some([])
    else
      var b := data[i];
      var id, n := b / 16, b % 16 + 1;
      if b == 0 then ParseBody(data, i + 1, room)
      else if id == 15 then Some([])
      else if i + 1 + n > |data| then None
      else if room > 0 && id >= 1 then Prepend(Ext(id, data[i + 1..i + 1 + n]), ParseBody(data, i + 1 + n, room - 1))
      else ParseBody(data, i + 1 + n, room)
  }

  lemma {:induction false} PaddingParsed(data: seq<int>, p: int, room: int)
    requires AreBytes(data) && 0 <= p && forall i | p <= i < |data| :: data[i] == 0
    ensures ParseBody(data, p, room) == Some([])
    decreases |data| - p
  {
    if p < |data| {
      PaddingParsed(data, p + 1, room);
    }
  }

  lemma EntryRead(data: seq<int>, p: int, e: Ext)
    requires IsExt(e) && Occurs(data, p, EntryBytes(e))
    ensures data[p] / 16 == e.id && data[p] % 16 + 1 == |e.data| && data[p] != 0
    ensures p + 1 + |e.data| <= |data| && data[p + 1..p + 1 + |e.data|] == e.data
  {
    assert data[p + 0] == EntryBytes(e)[0];
    OccursSplit(data, p, [e.id * 16 + |e.data| - 1], e.data);
  }

  /** Entries come back in order. */
  lemma {:induction false} EntriesParsed(data: seq<int>, exts: seq<Ext>, i: int, p: int, room: int)
    requires AreBytes(data) && AreExts(exts) && 0 <= i <= |exts| && |exts| - i <= room
    requires Occurs(data, p, Entries(exts, i))
    requires forall k | p + |Entries(exts, i)| <= k < |data| :: data[k] == 0
    ensures ParseBody(data, p, room) == Some(exts[i..])
    decreases |exts| - i
  {
    if i < |exts| {
      OccursSplit(data, p, EntryBytes(exts[i]), Entries(exts, i + 1));
      EntryRead(data, p, exts[i]);
      EntriesParsed(data, exts, i + 1, p + 1 + |exts[i].data|, room - 1);
      assert exts[i..] == [exts[i]] + exts[i + 1..];
    } else {
      PaddingParsed(data, p, room);
      assert exts[i..] == [];
    }
  }

  /** What is written as a block's body parses to the same entries. */
  lemma BodyParsed(exts: seq<Ext>, room: int)
    requires AreExts(exts) && |exts| <= room
    ensures ParseBody(Body(exts), 0, room) == Some(exts)
  {
    var e := Entries(exts, 0);
    assert Occurs(Body(exts), 0, e);
    EntriesParsed(Body(exts), exts, 0, 0, room);
    assert exts[0..] == exts;
  }

  // ----- writing -----

  ghost predicate ExtsTo(exts: seq<Ext>, i: int)
    requires 0 <= i <= |exts|
  {
    forall k | 0 <= k < i :: IsExt(exts[k])
  }

  /** The entries before i. */
  ghost function Written(exts: seq<Ext>, i: int): seq<int>
    requires 0 <= i <= |exts| && ExtsTo(exts, i)
  {
    if i == 0 then [] else Written(exts, i - 1) + EntryBytes(exts[i - 1])
  }

  lemma {:induction false} WrittenIs(exts: seq<Ext>, i: int)
    requires AreExts(exts) && 0 <= i <= |exts|
    ensures Entries(exts, 0) == Written(exts, i) + Entries(exts, i)
  {
    if i > 0 {
      WrittenIs(exts, i - 1);
      ConcatAssociates(Written(exts, i - 1), EntryBytes(exts[i - 1]), Entries(exts, i));
    }
  }

  /** The loop over the entries; -1 if one cannot be carried or does not fit. */
  method WriteEntries(out: array<int>, at: int, cap: int, exts: seq<Ext>) returns (body: int)
    requires 0 <= at && 4 <= cap && at + cap <= out.Length
    requires forall i | 0 <= i < |exts| :: AreBytes(exts[i].data)
    modifies out
    ensures body >= 0 <==> AreExts(exts) && 4 + |Entries(exts, 0)| <= cap
    ensures body >= 0 ==> body == |Entries(exts, 0)| && out[..at + 4 + body] == old(out[..at + 4]) + Entries(exts, 0)
  {
    body := 0;
    var i := 0;
    while i < |exts|
      invariant 0 <= i <= |exts| && 0 <= body && 4 + body <= cap && ExtsTo(exts, i)
      invariant body == |Written(exts, i)| && out[..at + 4 + body] == old(out[..at + 4]) + Written(exts, i)
    {
      var e := exts[i];
      if e.id < 1 || e.id > 14 {
        assert !IsExt(exts[i]);
        return -1;
      }
      if |e.data| < 1 || |e.data| > MAX_DATA {
        assert !IsExt(exts[i]);
        return -1;
      }
      if 4 + body + 1 + |e.data| > cap {
        if AreExts(exts) {
          WrittenIs(exts, i + 1);
        }
        return -1;
      }
      Write(out, at + 4 + body, [e.id * 16 + |e.data| - 1] + e.data);
      ConcatAssociates(old(out[..at + 4]), Written(exts, i), EntryBytes(e));
      body := body + 1 + |e.data|;
      i := i + 1;
    }
    WrittenIs(exts, |exts|);
  }

  /** `rtc_rtp_ext_write_block`: -1 if an entry cannot be carried or the block
      does not fit. */
  method WriteBlock(out: array<int>, at: int, cap: int, exts: seq<Ext>) returns (n: int)
    requires 0 <= at && 0 <= cap && at + cap <= out.Length && cap < 0x4_0000
    requires forall i | 0 <= i < |exts| :: AreBytes(exts[i].data)
    modifies out
    ensures n >= 0 <==> cap >= 4 && AreExts(exts) && 4 + |Body(exts)| <= cap
    ensures n >= 0 ==> n == |Block(exts)| && out[..at + n] == old(out[..at]) + Block(exts)
  {
    if cap < 4 {
      return -1;
    }
    ghost var before, gap := out[..at], out[at..at + 4];
    assert out[..at + 4] == before + gap;
    var body := WriteEntries(out, at, cap, exts);
    if body < 0 {
      return -1;
    }
    var pad := (4 - body % 4) % 4;
    if 4 + body + pad > cap {
      return -1;
    }
    Write(out, at + 4 + body, Zeros(pad));
    n := 4 + body + pad;
    ghost var all := out[..at + n];
    Filled(before, gap, exts, all);
    var words := (body + pad) / 4;
    out[at], out[at + 1], out[at + 2], out[at + 3] := 0xBE, 0xDE, words / 256, words % 256;
    Patched(before, gap, exts, all, out[..at + n]);
  }

  lemma Filled(before: seq<int>, gap: seq<int>, exts: seq<Ext>, all: seq<int>)
    requires AreExts(exts)
    requires all == before + gap + Entries(exts, 0) + Zeros((4 - |Entries(exts, 0)| % 4) % 4)
    ensures all == before + gap + Body(exts)
  {
    ConcatAssociates(before + gap, Entries(exts, 0), Zeros((4 - |Entries(exts, 0)| % 4) % 4));
  }

  lemma Patched(before: seq<int>, gap: seq<int>, exts: seq<Ext>, all: seq<int>, after: seq<int>)
    requires AreExts(exts) && |Body(exts)| < 0x4_0000 && |gap| == 4 && all == before + gap + Body(exts)
    requires var at, words := |before|, |Body(exts)| / 4;
             after == all[at := 0xBE][at + 1 := 0xDE][at + 2 := words / 256][at + 3 := words % 256]
    ensures after == before + Block(exts)
  {
    var at := |before|;
    assert after[..at] == before;
    assert after[at..] == Block(exts);
  }

  /** `rtc_rtp_ext_parse_body` */
  method ParseExts(data: seq<int>, cap: int) returns (ok: bool, exts: seq<Ext>)
    requires AreBytes(data) && 0 <= cap
    ensures ok <==> ParseBody(data, 0, cap).Some?
    ensures ok ==> exts == ParseBody(data, 0, cap).value
  {
    exts := [];
    var i := 0;
    ghost var all, room := ParseBody(data, 0, cap), cap;
    AddNone(all);
    while i < |data|
      invariant 0 <= i && 0 <= room == cap - |exts| && all == AddTo(exts, ParseBody(data, i, room))
      decreases |data| - i
    {
      var b := data[i];
      i := i + 1;
      if b != 0 {
        var id, n := b / 16, b % 16 + 1;
        if id == 15 {
          break;
        }
        if i + n > |data| {
          return false, exts;
        }
        if |exts| < cap && id >= 1 && id <= 14 && n <= MAX_DATA {
          var e := Ext(id, data[i..i + n]);
          AddOne(exts, e, ParseBody(data, i + n, room - 1));
          exts := exts + [e];
          room := room - 1;
        }
        i := i + n;
      }
    }
    assert exts + [] == exts;
    return true, exts;
  }
}
