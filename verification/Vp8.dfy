/** VP8 frames in RTP payloads (section 4.2 of RFC 7741): cutting a frame into
    fragments and putting fragments back together. */
module Vp8 {
  import opened Bytes
  import opened Collections

  const MAX_FRAGMENT: int := 1399
  const MAX_FRAME: int := 262144

  datatype Payload = Payload(data: seq<int>, marker: bool)

  /** The payload descriptor: start of partition, not a key frame. */
  function Descriptor(first: bool, key: bool): (r: int)
    ensures IsByte(r) && r % 16 == 0
  {
    (if first then 16 else 0) + (if key then 0 else 32)
  }

  /** How much of the frame the fragment at an offset takes. */
  function FragmentSize(frame: seq<int>, offset: int): (n: int)
    requires 0 <= offset < |frame|
    ensures 0 < n <= MAX_FRAGMENT && offset + n <= |frame|
  {
    if |frame| - offset > MAX_FRAGMENT then MAX_FRAGMENT else |frame| - offset
  }

  function Fragment(frame: seq<int>, offset: int, key: bool): Payload
    requires 0 <= offset < |frame|
  {
    var n := FragmentSize(frame, offset);
    Payload([Descriptor(offset == 0, key)] + frame[offset..offset + n], offset + n >= |frame|)
  }

  /** The payloads of a frame from an offset on. */
  function Fragments(frame: seq<int>, offset: int, key: bool): seq<Payload>
    requires 0 <= offset <= |frame|
    decreases |frame| - offset
  {
    if offset == |frame| then []
    else [Fragment(frame, offset, key)] + Fragments(frame, offset + FragmentSize(frame, offset), key)
  }

  /** `rtc_vp8_packetize` */
  method Packetize(frame: seq<int>, key: bool, max: int) returns (ok: bool, payloads: seq<Payload>)
    requires 0 <= max
    ensures ok <==> frame != [] && |Fragments(frame, 0, key)| <= max
    ensures ok ==> payloads == Fragments(frame, 0, key)
  {
    payloads := [];
    if |frame| == 0 {
      return false, payloads;
    }
    var offset, first := 0, true;
    while offset < |frame|
      invariant 0 <= offset <= |frame| && (first <==> offset == 0) && |payloads| <= max
      invariant Fragments(frame, 0, key) == payloads + Fragments(frame, offset, key)
    {
      if |payloads| >= max {
        return false, payloads;
      }
      var n := if |frame| - offset > MAX_FRAGMENT then MAX_FRAGMENT else |frame| - offset;
      var p := Payload([Descriptor(first, key)] + frame[offset..offset + n], offset + n >= |frame|);
      ConcatAssociates(payloads, [p], Fragments(frame, offset + n, key));
      payloads := payloads + [p];
      offset := offset + n;
      first := false;
    }
    return true, payloads;
  }

  // ----- putting back together -----

  function Flag(b: int, mask: int): bool
    requires mask > 0
  {
    b / mask % 2 == 1
  }

  /** The length of the descriptor with its extension bytes; none if it does not fit. */
  function DescriptorLength(payload: seq<int>): (r: Option<int>)
    ensures r.Some? ==> 1 <= r.value <= |payload|
  {
    if |payload| < 1 then None
    else if !Flag(payload[0], 128) then Some(1)
    else if |payload| < 2 || (Flag(payload[1], 128) && |payload| < 3) then None
    else
      var ext := payload[1];
      var id := if !Flag(ext, 128) then 0 else if Flag(payload[2], 128) then 2 else 1;
      var n := 2 + id + (if Flag(ext, 64) then 1 else 0) + (if Flag(ext, 32) || Flag(ext, 16) then 1 else 0);
      if n > |payload| then None else Some(n)
  }

  /** A payload descriptor as section 4.2 of RFC 7741 lays it out. The bits that
      the depacketizer skips are `low` and `reserved`. */
  datatype PictureId = NoId | Short(id: int) | Long(id: int)

  datatype Extension = Extension(picture: PictureId, tl0: Option<int>, layer: bool, keyIndex: bool,
                                 layerByte: int, reserved: int)

  datatype Layout = Layout(nonReference: bool, start: bool, low: int, ext: Option<Extension>)

  predicate IsExtension(e: Extension)
  {
    && (e.picture.Short? ==> 0 <= e.picture.id < 128) && (e.picture.Long? ==> 0 <= e.picture.id < 32768)
    && 0 <= e.reserved < 16
  }

  function Bit(b: bool, value: int): int
  {
    if b then value else 0
  }

  function PictureBytes(p: PictureId): seq<int>
  {
    match p case NoId => [] case Short(id) => [id] case Long(id) => [128 + id / 256, id % 256]
  }

  function ExtensionBytes(e: Extension): seq<int>
  {
    [Bit(!e.picture.NoId?, 128) + Bit(e.tl0.Some?, 64) + Bit(e.layer, 32) + Bit(e.keyIndex, 16) + e.reserved]
    + PictureBytes(e.picture)
    + (if e.tl0.Some? then [e.tl0.value] else [])
    + (if e.layer || e.keyIndex then [e.layerByte] else [])
  }

  function LayoutBytes(h: Layout): seq<int>
  {
    [Bit(h.ext.Some?, 128) + Bit(h.nonReference, 32) + Bit(h.start, 16) + h.low]
    + (if h.ext.Some? then ExtensionBytes(h.ext.value) else [])
  }

  lemma FlagsRead(b: int, i: bool, l: bool, t: bool, k: bool, reserved: int)
    requires 0 <= reserved < 16 && b == Bit(i, 128) + Bit(l, 64) + Bit(t, 32) + Bit(k, 16) + reserved
    ensures Flag(b, 128) == i && Flag(b, 64) == l && Flag(b, 32) == t && Flag(b, 16) == k
  {
  }

  /** Whatever the descriptor says, of any shape the format has: what the
      depacketizer takes for data is exactly what follows it. */
  lemma LayoutSkipped(h: Layout, data: seq<int>)
    requires 0 <= h.low < 16 && (h.ext.Some? ==> IsExtension(h.ext.value))
    ensures var payload := LayoutBytes(h) + data;
            && DescriptorLength(payload) == Some(|LayoutBytes(h)|) && payload[|LayoutBytes(h)|..] == data
            && Flag(payload[0], 16) == h.start && Flag(payload[0], 32) == h.nonReference
  {
    var payload := LayoutBytes(h) + data;
    FlagsRead(payload[0], h.ext.Some?, false, h.nonReference, h.start, h.low);
    if h.ext.Some? {
      var e := h.ext.value;
      FlagsRead(payload[1], !e.picture.NoId?, e.tl0.Some?, e.layer, e.keyIndex, e.reserved);
    }
  }

  /** A payload that ends within its descriptor is refused. */
  lemma LayoutCut(h: Layout, n: int)
    requires 0 <= h.low < 16 && (h.ext.Some? ==> IsExtension(h.ext.value)) && 0 <= n < |LayoutBytes(h)|
    ensures DescriptorLength(LayoutBytes(h)[..n]).None?
  {
    var whole := LayoutBytes(h);
    FlagsRead(whole[0], h.ext.Some?, false, h.nonReference, h.start, h.low);
    if h.ext.Some? {
      var e := h.ext.value;
      FlagsRead(whole[1], !e.picture.NoId?, e.tl0.Some?, e.layer, e.keyIndex, e.reserved);
    }
  }

  datatype Collector = Collector(buf: seq<int>, ts: int, collecting: bool, gotStart: bool)

  datatype Frame = Frame(data: seq<int>, key: bool)

  datatype Accepted = Accepted(d: Collector, out: Option<Frame>)

  /** What is left when a frame is given up or handed over. */
  function Idle(d: Collector): Collector
  {
    d.(buf := [], collecting := false)
  }

  /** Adds data to the frame; the marker completes it. */
  function Append(d: Collector, data: seq<int>, marker: bool, key: bool): Accepted
  {
    if !d.collecting || !d.gotStart then Accepted(d, None)
    else if |d.buf| + |data| > MAX_FRAME then Accepted(Idle(d), None)
    else if marker then Accepted(Idle(d), Some(Frame(d.buf + data, key)))
    else Accepted(d.(buf := d.buf + data), None)
  }

  /** `rtc_vp8_depacketize` */
  function Accept(d: Collector, payload: seq<int>, ts: int, marker: bool): Accepted
  {
    var n := DescriptorLength(payload);
    if n.None? then Accepted(d, None)
    else
      var data, key := payload[n.value..], !Flag(payload[0], 32);
      if Flag(payload[0], 16) then Append(Collector([], ts, true, true), data, marker, key)
      else if !d.collecting then Accepted(d, None)
      else if ts != d.ts then Accepted(Idle(d), None)
      else Append(d, data, marker, key)
  }

  /** What comes out of payloads that arrive one after the other. */
  function Outputs(d: Collector, ps: seq<Payload>, ts: int): (r: seq<Option<Frame>>)
    ensures |r| == |ps|
    decreases |ps|
  {
    if ps == [] then []
    else
      var a := Accept(d, ps[0].data, ts, ps[0].marker);
      [a.out] + Outputs(a.d, ps[1..], ts)
  }

  /** A fragment as the depacketizer reads it. */
  lemma FragmentRead(frame: seq<int>, offset: int, key: bool)
    requires 0 <= offset < |frame|
    ensures var p, n := Fragment(frame, offset, key), FragmentSize(frame, offset);
            && DescriptorLength(p.data) == Some(1) && p.data[1..] == frame[offset..offset + n]
            && (Flag(p.data[0], 16) <==> offset == 0) && (Flag(p.data[0], 32) <==> !key)
  {
  }

  /** From the middle of a frame on, the rest of its fragments completes it. */
  lemma {:induction false} Completed(d: Collector, frame: seq<int>, offset: int, key: bool, ts: int, k: int)
    requires 0 <= offset < |frame| <= MAX_FRAME
    requires offset == 0 || d == Collector(frame[..offset], ts, true, true)
    ensures var ps := Fragments(frame, offset, key);
            && ps != []
            && (0 <= k < |ps| ==> Outputs(d, ps, ts)[k] == if k == |ps| - 1 then Some(Frame(frame, key)) else None)
    decreases |frame| - offset
  {
    var n := FragmentSize(frame, offset);
    var p, rest := Fragment(frame, offset, key), Fragments(frame, offset + n, key);
    FragmentRead(frame, offset, key);
    assert frame[..offset] + frame[offset..offset + n] == frame[..offset + n];
    assert ([p] + rest)[1..] == rest;
    if offset + n < |frame| {
      Completed(Collector(frame[..offset + n], ts, true, true), frame, offset + n, key, ts, k - 1);
      assert Accept(d, p.data, ts, p.marker) == Accepted(Collector(frame[..offset + n], ts, true, true), None) by {
        Taken(d, frame, offset, key, ts);
      }
    } else {
      assert frame[..offset + n] == frame;
      Taken(d, frame, offset, key, ts);
      assert rest == [];
    }
  }

  lemma Taken(d: Collector, frame: seq<int>, offset: int, key: bool, ts: int)
    requires 0 <= offset < |frame| <= MAX_FRAME
    requires offset == 0 || d == Collector(frame[..offset], ts, true, true)
    ensures var p, end := Fragment(frame, offset, key), offset + FragmentSize(frame, offset);
            var a := Accept(d, p.data, ts, p.marker);
            if end < |frame| then a == Accepted(Collector(frame[..end], ts, true, true), None)
            else a.out == Some(Frame(frame, key))
  {
    var n := FragmentSize(frame, offset);
    FragmentRead(frame, offset, key);
    assert frame[..offset] + frame[offset..offset + n] == frame[..offset + n];
    assert offset == 0 ==> [] + frame[offset..offset + n] == frame[..n];
    assert offset + n == |frame| ==> frame[..offset + n] == frame;
  }

  // ----- arbitrary runs -----

  /** A well-formed payload as it was heard. */
  datatype Heard = Heard(data: seq<int>, ts: int, marker: bool)

  /** The well-formed payloads since the last one that starts a frame. */
  function Since(since: seq<Heard>, payload: seq<int>, ts: int, marker: bool): seq<Heard>
  {
    var n := DescriptorLength(payload);
    if n.None? then since
    else
      var h := Heard(payload[n.value..], ts, marker);
      if Flag(payload[0], 16) then [h] else since + [h]
  }

  function Joined(hs: seq<Heard>): seq<int>
  {
    if hs == [] then [] else Joined(hs[..|hs| - 1]) + hs[|hs| - 1].data
  }

  lemma JoinedNext(hs: seq<Heard>, h: Heard)
    ensures Joined(hs + [h]) == Joined(hs) + h.data
  {
    assert (hs + [h])[..|hs|] == hs;
  }

  /** All with one timestamp, and only the last may have the marker. */
  ghost predicate OneFrame(hs: seq<Heard>, ts: int, complete: bool)
  {
    && hs != [] && (forall i | 0 <= i < |hs| :: hs[i].ts == ts)
    && (forall i | 0 <= i < |hs| - 1 :: !hs[i].marker) && hs[|hs| - 1].marker == complete
  }

  /** While a frame is being collected, the buffer is what has been heard of it. */
  ghost predicate Tracks(d: Collector, since: seq<Heard>)
  {
    d.collecting ==> d.gotStart && OneFrame(since, d.ts, false) && d.buf == Joined(since)
  }

  lemma AppendTracks(d: Collector, since: seq<Heard>, h: Heard, key: bool)
    requires d.collecting && d.gotStart && d.ts == h.ts && d.buf == Joined(since)
    requires since == [] || OneFrame(since, d.ts, false)
    ensures var a := Append(d, h.data, h.marker, key);
            && Tracks(a.d, since + [h])
            && (a.out.Some? ==> a.out.value.data == Joined(since + [h]) && OneFrame(since + [h], h.ts, true))
  {
    JoinedNext(since, h);
  }

  /** One payload keeps this; a frame that comes out is the concatenation of the
      well-formed payloads since the last start, all with its timestamp. */
  lemma AcceptTracks(d: Collector, since: seq<Heard>, payload: seq<int>, ts: int, marker: bool)
    requires Tracks(d, since)
    ensures var a, since' := Accept(d, payload, ts, marker), Since(since, payload, ts, marker);
            && Tracks(a.d, since')
            && (a.out.Some? ==> a.out.value.data == Joined(since') && OneFrame(since', ts, true))
  {
    var n := DescriptorLength(payload);
    if n.Some? {
      var h, key := Heard(payload[n.value..], ts, marker), !Flag(payload[0], 32);
      if Flag(payload[0], 16) {
        AppendTracks(Collector([], ts, true, true), [], h, key);
        assert [] + [h] == [h];
      } else if d.collecting && ts == d.ts {
        AppendTracks(d, since, h, key);
      }
    }
  }

  datatype Call = Call(payload: seq<int>, ts: int, marker: bool)

  /** The depacketizer and what was heard, after n calls from a fresh start. */
  function Run(calls: seq<Call>, n: int): Collector
    requires 0 <= n <= |calls|
  {
    if n == 0 then Collector([], 0, false, false)
    else Accept(Run(calls, n - 1), calls[n - 1].payload, calls[n - 1].ts, calls[n - 1].marker).d
  }

  function HeardIn(calls: seq<Call>, n: int): seq<Heard>
    requires 0 <= n <= |calls|
  {
    if n == 0 then []
    else Since(HeardIn(calls, n - 1), calls[n - 1].payload, calls[n - 1].ts, calls[n - 1].marker)
  }

  lemma {:induction false} RunTracks(calls: seq<Call>, n: int)
    requires 0 <= n <= |calls|
    ensures Tracks(Run(calls, n), HeardIn(calls, n))
  {
    if n > 0 {
      RunTracks(calls, n - 1);
      AcceptTracks(Run(calls, n - 1), HeardIn(calls, n - 1), calls[n - 1].payload, calls[n - 1].ts,
        calls[n - 1].marker);
    }
  }

  /** Over any run, whatever is fed in. */
  lemma Emitted(calls: seq<Call>, n: int)
    requires 0 <= n < |calls|
    ensures var out := Accept(Run(calls, n), calls[n].payload, calls[n].ts, calls[n].marker).out;
            out.Some? ==>
              out.value.data == Joined(HeardIn(calls, n + 1)) && OneFrame(HeardIn(calls, n + 1), calls[n].ts, true)
  {
    RunTracks(calls, n);
    AcceptTracks(Run(calls, n), HeardIn(calls, n), calls[n].payload, calls[n].ts, calls[n].marker);
  }

  // ----- in place -----

  class Depacketizer {
    const buf: array<int>
    var len: int
    var ts: int
    var collecting: bool
    var gotStart: bool

    ghost predicate Valid()
      reads this
    {
      buf.Length == MAX_FRAME && 0 <= len <= MAX_FRAME
    }

    ghost function State(): Collector
      requires Valid()
      reads this, buf
    {
      Collector(buf[..len], ts, collecting, gotStart)
    }

    constructor ()
      ensures Valid() && State() == Collector([], 0, false, false) && fresh(buf)
    {
      buf := new int[MAX_FRAME];
      len, ts, collecting, gotStart := 0, 0, false, false;
    }

    /** `rtc_vp8_depacketize` */
    method Depacketize(payload: seq<int>, timestamp: int, marker: bool) returns (frame: Option<Frame>)
      requires Valid()
      modifies this, buf
      ensures Valid()
      ensures var a := Accept(old(State()), payload, timestamp, marker); State() == a.d && frame == a.out
    {
      var n := DescriptorLength(payload);
      if n.None? {
        return None;
      }
      var start := Flag(payload[0], 16);
      if start || !collecting || timestamp != ts {
        if start {
          len, ts, collecting, gotStart := 0, timestamp, true, true;
        } else if collecting && timestamp != ts {
          collecting, len := false, 0;
          return None;
        } else {
          return None;
        }
      }
      frame := Add(payload[n.value..], marker, !Flag(payload[0], 32));
    }

    method Add(data: seq<int>, marker: bool, key: bool) returns (frame: Option<Frame>)
      requires Valid()
      modifies this, buf
      ensures Valid()
      ensures var a := Append(old(State()), data, marker, key); State() == a.d && frame == a.out
    {
      if !collecting || !gotStart {
        return None;
      }
      if len + |data| > MAX_FRAME {
        collecting, len := false, 0;
        return None;
      }
      Write(buf, len, data);
      len := len + |data|;
      if marker {
        frame := Some(Frame(buf[..len], key));
        collecting, len := false, 0;
        return;
      }
      return None;
    }
  }
}
