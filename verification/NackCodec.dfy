/** The loops that build and parse a NACK packet. */
module NackCodec {
  import opened Bytes
  import opened Collections
  import opened Words
  import opened NackFormat

  /** The entry that starts at i, and where the next one starts. */
  method TakeEntry(s: seq<int>, i: int) returns (f: Fci, j: int)
    requires 0 <= i < |s|
    ensures f == First(s, i) && j == Stop(s, i)
  {
    var pid, blp := s[i], 0;
    j := i + 1;
    while j < |s|
      invariant i + 1 <= j <= |s| && End(s, pid, i + 1) == End(s, pid, j) && blp == Mask(s, pid, i + 1, j)
    {
      var diff := s[j] - pid;
      if diff >= 1 && diff <= 16 {
        blp := Or(blp, Pow2(diff - 1));
        j := j + 1;
      } else {
        break;
      }
    }
    f := Fci(pid, blp);
  }

  /** The coalescing loop. */
  method CoalesceAll(s: seq<int>) returns (fs: seq<Fci>)
    ensures fs == Coalesce(s, 0, MAX_FCIS)
  {
    fs := [];
    var i := 0;
    while i < |s| && |fs| < MAX_FCIS
      invariant 0 <= i <= |s| && |fs| <= MAX_FCIS
      invariant Coalesce(s, 0, MAX_FCIS) == fs + Coalesce(s, i, MAX_FCIS - |fs|)
    {
      ghost var before := fs;
      var f, j := TakeEntry(s, i);
      ConcatAssociates(fs, [f], Coalesce(s, j, MAX_FCIS - |fs| - 1));
      fs := fs + [f];
      i := j;
    }
  }

  /** The writing loop. */
  method WriteFcis(out: array<int>, fs: seq<Fci>)
    requires AreFcis(fs) && out.Length >= 12 + 4 * |fs|
    modifies out
    ensures out[..12 + 4 * |fs|] == old(out[..12]) + FciBytes(fs)
  {
    ghost var all := old(out[..12]) + FciBytes(fs);
    var j := 0;
    assert fs[0..] == fs;
    while j < |fs|
      invariant 0 <= j <= |fs| && AreFcis(fs[j..]) && all == out[..12 + 4 * j] + FciBytes(fs[j..])
    {
      FciStep(all, out[..12 + 4 * j], fs, j);
      var off := 12 + 4 * j;
      Write(out, off, U16(fs[j].pid) + U16(fs[j].blp));
      j := j + 1;
    }
    assert fs[j..] == [];
  }

  lemma FciStep(all: seq<int>, before: seq<int>, fs: seq<Fci>, j: int)
    requires 0 <= j < |fs| && AreFcis(fs) && AreFcis(fs[j..]) && all == before + FciBytes(fs[j..])
    ensures AreFcis(fs[j + 1..])
    ensures all == before + (U16(fs[j].pid) + U16(fs[j].blp)) + FciBytes(fs[j + 1..])
  {
    assert fs[j..][0] == fs[j] && fs[j..][1..] == fs[j + 1..];
    ConcatAssociates(before, U16(fs[j].pid) + U16(fs[j].blp), FciBytes(fs[j + 1..]));
  }

  /** Fails only for an empty list or a buffer that is too short. */
  method BuildNack(out: array<int>, sender: int, media: int, lost: seq<int>) returns (ok: bool, len: int)
    requires IsSsrc(sender) && IsSsrc(media) && AreNumbers(lost)
    modifies out
    ensures var packet := Nack(sender, media, lost);
            && (ok <==> lost != [] && |packet| <= out.Length)
            && (ok ==> len == |packet| && out[..len] == packet)
  {
    if lost == [] {
      return false, 0;
    }
    var sorted := Sort(Clip(lost));
    SortedNumbers(Clip(lost));
    InRange(sorted, 0, MAX_FCIS);
    var fs := CoalesceAll(sorted);
    len := 12 + |fs| * 4;
    if out.Length < len {
      return false, len;
    }
    WriteNack(out, sender, media, fs);
    return true, len;
  }

  method WriteNack(out: array<int>, sender: int, media: int, fs: seq<Fci>)
    requires IsSsrc(sender) && IsSsrc(media) && AreFcis(fs) && |fs| <= MAX_FCIS && out.Length >= 12 + 4 * |fs|
    modifies out
    ensures out[..12 + 4 * |fs|] == Header(sender, media, |fs|) + FciBytes(fs)
  {
    Write(out, 0, Header(sender, media, |fs|));
    WriteFcis(out, fs);
  }

  /** The numbers of one entry, added until the list is full. */
  method AddEntry(f: Fci, lost: seq<int>) returns (r: seq<int>)
    requires |lost| < MAX_SEQS
    ensures r == lost + Take(Listed(f), MAX_SEQS - |lost|)
  {
    r := lost + [f.pid];
    ghost var all := lost + Listed(f);
    ConcatAssociates(lost, [f.pid], Masked(f.pid, f.blp, 0));
    var bit := 0;
    while bit < 16 && |r| < MAX_SEQS
      invariant 0 <= bit <= 16 && |lost| <= |r| <= MAX_SEQS && all == r + Masked(f.pid, f.blp, bit)
    {
      if Bit(f.blp, bit) {
        var x := (f.pid + bit + 1) % 0x1_0000;
        ConcatAssociates(r, [x], Masked(f.pid, f.blp, bit + 1));
        r := r + [x];
      }
      bit := bit + 1;
    }
    Filled(lost, Listed(f), r, if bit == 16 then [] else Masked(f.pid, f.blp, bit));
  }

  lemma Filled(lost: seq<int>, listed: seq<int>, r: seq<int>, rest: seq<int>)
    requires lost + listed == r + rest && |lost| <= |r| <= MAX_SEQS && (rest == [] || |r| == MAX_SEQS)
    ensures r == lost + Take(listed, MAX_SEQS - |lost|)
  {
    assert r == (lost + listed)[..|r|];
  }

  /** The entry loop. */
  method ReadAll(data: seq<int>) returns (lost: seq<int>)
    requires AreBytes(data)
    ensures lost == ReadFcis(data, 12, [])
  {
    lost := [];
    var offset := 12;
    while offset + 4 <= |data| && |lost| < MAX_SEQS
      invariant 12 <= offset && |lost| <= MAX_SEQS && ReadFcis(data, 12, []) == ReadFcis(data, offset, lost)
      decreases |data| - offset
    {
      lost := AddEntry(Fci(Read16(data, offset), Read16(data, offset + 2)), lost);
      offset := offset + 4;
    }
  }

  method ParseNack(data: seq<int>) returns (r: Option<Parsed>)
    requires AreBytes(data)
    ensures r == Parse(data)
  {
    if |data| < 12 {
      return None;
    }
    if data[0] / 64 % 4 != 2 {
      return None;
    }
    var lost := ReadAll(data);
    return Some(Parsed(Read32(data, 4), Read32(data, 8), lost));
  }
}
