/** A frame on its way: cut into fragments, each sent as an RTP packet with
    extensions, parsed and put back together. */
module FramePipeline {
  import opened Bytes
  import opened Collections
  import opened RtpExt
  import opened Rtp
  import opened Vp8

  /** Fields of the packet that carries fragment k; all have one timestamp. */
  function HeaderOf(h: Header, k: int, marker: bool): Header
  {
    h.(marker := marker, number := (h.number + k) % 0x1_0000)
  }

  ghost predicate CanSend(h: Header, exts: seq<Ext>)
  {
    IsHeader(h) && h.kind < 128 && Carried(exts) && |exts| <= MAX_ENTRIES
  }

  ghost predicate Small(ps: seq<Payload>)
  {
    forall k | 0 <= k < |ps| :: AreBytes(ps[k].data) && |ps[k].data| <= MAX_PAYLOAD
  }

  /** One packet for each payload, as a session sends them: consecutive numbers,
      one timestamp. */
  ghost predicate SentAs(packets: seq<seq<int>>, h: Header, exts: seq<Ext>, ps: seq<Payload>)
    requires CanSend(h, exts)
  {
    && |packets| == |ps|
    && forall k | 0 <= k < |packets| :: packets[k] == Packet(HeaderOf(h, k, ps[k].marker), exts, ps[k].data)
  }

  /** What a receiver reads of a packet: the payload with its marker, the
      timestamp and the extensions. */
  datatype Received = Received(p: Payload, ts: int, exts: seq<Ext>)

  function Receive(data: seq<int>): Option<Received>
    requires AreBytes(data)
  {
    var r := Rtp.Parse(data);
    if r.None? then None
    else
      var exts := if r.value.ext.None? then Some([]) else ParseBody(r.value.ext.value, 0, MAX_ENTRIES);
      if exts.None? then None
      else Some(Received(Payload(r.value.payload, r.value.header.marker), r.value.header.ts, exts.value))
  }

  /** Each packet is received as what was sent. */
  lemma PacketReceived(h: Header, exts: seq<Ext>, p: Payload, k: int)
    requires CanSend(h, exts) && AreBytes(p.data) && |p.data| <= MAX_PAYLOAD && 0 <= k
    ensures var data := Packet(HeaderOf(h, k, p.marker), exts, p.data);
            AreBytes(data) && Receive(data) == Some(Received(p, h.ts, exts))
  {
    var data := Packet(HeaderOf(h, k, p.marker), exts, p.data);
    PacketParsed(HeaderOf(h, k, p.marker), exts, p.data, BlockOf(exts), data);
    if exts != [] {
      BodyParsed(exts, MAX_ENTRIES);
    }
  }

  lemma {:induction false} FragmentsSmall(frame: seq<int>, offset: int, key: bool)
    requires AreBytes(frame) && 0 <= offset <= |frame|
    ensures Small(Fragments(frame, offset, key))
    decreases |frame| - offset
  {
    if offset < |frame| {
      FragmentsSmall(frame, offset + FragmentSize(frame, offset), key);
      assert AreBytes(Fragment(frame, offset, key).data);
    }
  }

  /** Packets received one after the other and fed to the depacketizer. */
  ghost function Played(d: Collector, packets: seq<seq<int>>, i: int): seq<Option<Frame>>
    requires 0 <= i <= |packets| && forall k | 0 <= k < |packets| :: AreBytes(packets[k])
    decreases |packets| - i
  {
    if i == |packets| then []
    else
      var r := Receive(packets[i]);
      if r.None? then [None] + Played(d, packets, i + 1)
      else
        var a := Accept(d, r.value.p.data, r.value.ts, r.value.p.marker);
        [a.out] + Played(a.d, packets, i + 1)
  }

  lemma {:induction false} PlayedBack(d: Collector, h: Header, exts: seq<Ext>, ps: seq<Payload>, packets: seq<seq<int>>,
                                      i: int)
    requires CanSend(h, exts) && Small(ps) && SentAs(packets, h, exts, ps) && 0 <= i <= |ps|
    ensures forall k | 0 <= k < |packets| :: AreBytes(packets[k])
    ensures Played(d, packets, i) == Outputs(d, ps[i..], h.ts)
    decreases |ps| - i
  {
    forall k | 0 <= k < |packets| ensures AreBytes(packets[k]) {
      PacketReceived(h, exts, ps[k], k);
    }
    if i < |ps| {
      PacketReceived(h, exts, ps[i], i);
      var a := Accept(d, ps[i].data, h.ts, ps[i].marker);
      PlayedBack(a.d, h, exts, ps, packets, i + 1);
      assert ps[i..][0] == ps[i] && ps[i..][1..] == ps[i + 1..];
    }
  }

  /** For every frame that fits, whatever state the receiver's depacketizer was
      in: the last packet completes the same frame with the same key flag, no
      earlier one completes anything, and every packet has its extensions. */
  lemma FrameDelivered(d: Collector, h: Header, exts: seq<Ext>, frame: seq<int>, key: bool,
                       packets: seq<seq<int>>, k: int)
    requires CanSend(h, exts) && AreBytes(frame) && 1 <= |frame| <= MAX_FRAME
    requires SentAs(packets, h, exts, Fragments(frame, 0, key)) && 0 <= k < |packets|
    ensures forall i | 0 <= i < |packets| :: AreBytes(packets[i])
    ensures |Played(d, packets, 0)| == |packets|
    ensures Played(d, packets, 0)[k] == if k == |packets| - 1 then Some(Frame(frame, key)) else None
    ensures Receive(packets[k]).Some? && Receive(packets[k]).value.exts == exts
  {
    var ps := Fragments(frame, 0, key);
    FragmentsSmall(frame, 0, key);
    PlayedBack(d, h, exts, ps, packets, 0);
    assert ps[0..] == ps;
    Completed(d, frame, 0, key, h.ts, k);
    PacketReceived(h, exts, ps[k], k);
  }
}
