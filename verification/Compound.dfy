/** Compound RTCP (section 6.4.1 of RFC 3550): walking the packets of a datagram. */
module Compound {
  import opened Bytes
  import opened Collections

  const SR: int := 200
  const RR: int := 201
  const PSFB: int := 206

  /** A packet that says its own length, in 32-bit words minus one. */
  predicate IsPacket(b: seq<int>)
  {
    && AreBytes(b) && |b| >= 4 && |b| % 4 == 0 && b[0] / 64 == 2
    && Read16(b, 2) == |b| / 4 - 1
  }

  ghost predicate ArePackets(ps: seq<seq<int>>)
  {
    forall i | 0 <= i < |ps| :: IsPacket(ps[i])
  }

  // ----- the walk -----

  /** A packet handed on: its type, its format or count, and where it lies. */
  datatype Slice = Slice(kind: int, format: int, start: int, end: int)

  /** Where the packet at p ends, if one starts there and is complete. */
  function End(data: seq<int>, p: int): (r: Option<int>)
    requires AreBytes(data) && 0 <= p
    ensures r.Some? ==> p + 4 <= r.value <= |data| && (r.value - p) % 4 == 0
  {
    if p + 4 > |data| || data[p] / 64 % 4 != 2 || p + (Read16(data, p + 2) + 1) * 4 > |data| then None
    else Some(p + (Read16(data, p + 2) + 1) * 4)
  }

  /** The packets from offset p on, as `rtc_media_session_handle_rtcp` hands them on. */
  function Walk(data: seq<int>, p: int): seq<Slice>
    requires AreBytes(data) && 0 <= p
    decreases |data| - p
  {
    var end := End(data, p);
    if end.None? then [] else [Slice(data[p + 1], data[p] % 32, p, end.value)] + Walk(data, end.value)
  }

  /** On any bytes the slices are complete packets side by side, from the start. */
  lemma {:induction false} SideBySide(data: seq<int>, p: int, i: int)
    requires AreBytes(data) && 0 <= p && 0 <= i < |Walk(data, p)|
    ensures var w := Walk(data, p);
            && p <= w[i].start && w[i].start + 4 <= w[i].end <= |data|
            && w[i].start == (if i == 0 then p else w[i - 1].end)
            && Read16(data, w[i].start + 2) == (w[i].end - w[i].start) / 4 - 1 && data[w[i].start] / 64 == 2
            && IsPacket(data[w[i].start..w[i].end])
    decreases |data| - p
  {
    var end := End(data, p).value;
    if i == 0 {
      SliceIsPacket(data, p, end);
    } else {
      SideBySide(data, end, i - 1);
      assert Walk(data, p)[i] == Walk(data, end)[i - 1];
      assert i > 1 ==> Walk(data, p)[i - 1] == Walk(data, end)[i - 2];
    }
  }

  lemma SliceIsPacket(data: seq<int>, p: int, end: int)
    requires AreBytes(data) && 0 <= p && End(data, p) == Some(end)
    ensures IsPacket(data[p..end])
  {
    var b := data[p..end];
    assert b[0] == data[p] && b[2] == data[p + 2] && b[3] == data[p + 3];
  }

  /** The packets from i on, one after the other. */
  function Join(ps: seq<seq<int>>, i: int): seq<int>
    requires 0 <= i <= |ps|
    decreases |ps| - i
  {
    if i == |ps| then [] else ps[i] + Join(ps, i + 1)
  }

  lemma PacketEnd(data: seq<int>, p: int, b: seq<int>)
    requires AreBytes(data) && IsPacket(b) && Occurs(data, p, b)
    ensures End(data, p) == Some(p + |b|) && data[p] == b[0] && data[p + 1] == b[1] && data[p..p + |b|] == b
  {
    assert data[p + 0] == b[0] && data[p + 1] == b[1] && data[p + 2] == b[2] && data[p + 3] == b[3];
  }

  /** The slice is the packet b. */
  ghost predicate IsSlice(data: seq<int>, s: Slice, b: seq<int>)
    requires IsPacket(b)
  {
    && 0 <= s.start <= s.end <= |data| && data[s.start..s.end] == b
    && s.kind == b[1] && s.format == b[0] % 32
  }

  /** Walking any packets joined together hands on each one's exact bytes, once
      and in order. */
  lemma {:induction false} WalkJoined(data: seq<int>, ps: seq<seq<int>>, i: int, p: int, k: int)
    requires AreBytes(data) && ArePackets(ps) && 0 <= i <= |ps| && Occurs(data, p, Join(ps, i))
    requires p + |Join(ps, i)| == |data|
    ensures |Walk(data, p)| == |ps| - i
    ensures 0 <= k < |ps| - i ==> IsSlice(data, Walk(data, p)[k], ps[i + k])
    decreases |ps| - i
  {
    if i < |ps| {
      OccursSplit(data, p, ps[i], Join(ps, i + 1));
      PacketEnd(data, p, ps[i]);
      WalkJoined(data, ps, i + 1, p + |ps[i]|, k - 1);
    }
  }

  lemma {:induction false} JoinBytes(ps: seq<seq<int>>, i: int)
    requires ArePackets(ps) && 0 <= i <= |ps|
    ensures AreBytes(Join(ps, i))
    decreases |ps| - i
  {
    if i < |ps| {
      JoinBytes(ps, i + 1);
    }
  }

  /** The whole datagram. */
  lemma CompoundWalked(ps: seq<seq<int>>, k: int)
    requires ArePackets(ps) && 0 <= k < |ps|
    ensures var data := Join(ps, 0);
            AreBytes(data) && |Walk(data, 0)| == |ps| && IsSlice(data, Walk(data, 0)[k], ps[k])
  {
    JoinBytes(ps, 0);
    WalkJoined(Join(ps, 0), ps, 0, 0, k);
  }

  /** The loop over the datagram. */
  method HandleRtcp(buf: seq<int>) returns (handed: seq<Slice>)
    requires AreBytes(buf)
    ensures handed == Walk(buf, 0)
  {
    handed := [];
    var offset := 0;
    while offset + 4 <= |buf|
      invariant 0 <= offset && Walk(buf, 0) == handed + Walk(buf, offset)
      decreases |buf| - offset
    {
      if buf[offset] / 64 % 4 != 2 {
        break;
      }
      var length := (buf[offset + 2] * 256 + buf[offset + 3] + 1) * 4;
      if offset + length > |buf| {
        break;
      }
      var s := Slice(buf[offset + 1], buf[offset] % 32, offset, offset + length);
      ConcatAssociates(handed, [s], Walk(buf, offset + length));
      handed := handed + [s];
      offset := offset + length;
    }
  }
}
