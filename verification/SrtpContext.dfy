/** An SRTP context: the sending and the receiving streams that share one key.
    Cipher and tag are ideal: a tag is the pair of everything it authenticates,
    and bytes that are no tag at all arrive as None. */
module SrtpContext {
  import opened Collections
  import opened SrtpReplay
  import opened SrtpStreams
  import opened SrtpIndex

  /** A packet of at least the fixed header; `fits` says that the header with its
      CSRC list and extension lies within the packet. */
  datatype Packet = Packet(ssrc: int, sn: int, fits: bool, body: seq<int>)

  datatype Tag = Mac(packet: Packet, roc: int)

  /** The library calls that may fail, as observed by one call. */
  datatype Crypto = Crypto(mac: bool, cipher: bool)

  ghost predicate SendStep(m: Streams, now: int, p: Packet, m': Streams)
  {
    exists t: Streams :: Touched(m, p.ssrc, now + 1, t) && p.ssrc in t && m' == t[p.ssrc := Sent(t[p.ssrc], p.sn)]
  }

  function Estimate(m: Streams, p: Packet): int
  {
    if p.ssrc in m then RocFor(m[p.ssrc], p.sn) else 0
  }

  /** The outcome of a packet whose tag has been verified, for the stream it
      belongs to; `completes` is false when header or decryption fail afterwards. */
  ghost function StreamNext(s: Stream, sn: int, roc: int, completes: bool): (Stream, bool)
  {
    var index := IndexOf(roc, sn);
    if !Fresh(s.accepted, index) then (s, false)
    else if !completes then (Marked(s, index), false)
    else (Received(Marked(s, index), roc, sn), true)
  }

  ghost predicate StreamStep(s: Stream, p: Packet, roc: int, completes: bool, s': Stream, ok: bool)
  {
    StreamNext(s, p.sn, roc, completes) == (s', ok)
  }

  /** Whether the tag verification of the profile lets the packet through. */
  predicate Authentic(gcm: bool, m: Streams, p: Packet, tag: Option<Tag>, crypto: Crypto)
  {
    && tag == Some(Mac(p, Estimate(m, p)))
    && if gcm then p.fits && crypto.cipher else crypto.mac
  }

  ghost predicate VerifiedIn(t: Streams, p: Packet, roc: int, completes: bool, m': Streams, ok: bool)
    requires p.ssrc in t
  {
    var (s, accepted) := StreamNext(t[p.ssrc], p.sn, roc, completes);
    m' == t[p.ssrc := s] && ok == accepted
  }

  /** What a verified packet does to the streams: its own is accessed and then stepped. */
  ghost predicate VerifiedStep(m: Streams, now: int, p: Packet, roc: int, completes: bool, m': Streams, ok: bool)
  {
    exists t: Streams :: Touched(m, p.ssrc, now + 1, t) && p.ssrc in t &&
      VerifiedIn(t, p, roc, completes, m', ok)
  }

  ghost predicate ReceiveStep(gcm: bool, m: Streams, now: int, p: Packet, tag: Option<Tag>, crypto: Crypto,
                              m': Streams, ok: bool)
  {
    if Authentic(gcm, m, p, tag, crypto)
    then VerifiedStep(m, now, p, Estimate(m, p), p.fits && crypto.cipher, m', ok)
    else m' == m && !ok
  }

  lemma SendsBy(m: Streams, now: int, p: Packet, t: Streams, m': Streams)
    requires Touched(m, p.ssrc, now + 1, t) && p.ssrc in t && m' == t[p.ssrc := Sent(t[p.ssrc], p.sn)]
    ensures SendStep(m, now, p, m')
  {
  }

  lemma VerifiedBy(m: Streams, now: int, p: Packet, roc: int, completes: bool, t: Streams, s: Stream, ok: bool)
    requires Touched(m, p.ssrc, now + 1, t) && p.ssrc in t && StreamStep(t[p.ssrc], p, roc, completes, s, ok)
    ensures VerifiedStep(m, now, p, roc, completes, t[p.ssrc := s], ok)
  {
    assert VerifiedIn(t, p, roc, completes, t[p.ssrc := s], ok);
  }

  class Context {
    const gcm: bool
    const send: StreamTable
    const recv: StreamTable
    var sendTick: int
    var recvTick: int

    ghost predicate SendValid()
      reads this, send, send.entries
    {
      send.Valid(sendTick)
    }

    ghost predicate RecvValid()
      reads this, recv, recv.entries
    {
      recv.Valid(recvTick)
    }

    constructor (gcm: bool)
      ensures SendValid() && RecvValid() && send != recv && send.entries != recv.entries
      ensures this.gcm == gcm && send.streams == map[] && recv.streams == map[]
    {
      this.gcm := gcm;
      send := new StreamTable();
      recv := new StreamTable();
      sendTick, recvTick := 0, 0;
    }

    /** `rtc_srtp_protect` and its GCM twin.  `room` is the check for the tag's bytes. */
    method Protect(p: Packet, room: bool, crypto: Crypto) returns (tag: Option<Tag>)
      requires SendValid()
      modifies this`sendTick, send, send.entries
      ensures SendValid()
      ensures !room ==> send.streams == old(send.streams) && sendTick == old(sendTick)
      ensures room ==> SendStep(old(send.streams), old(sendTick), p, send.streams) && sendTick == old(sendTick) + 1
      ensures tag.Some? <==> room && p.fits && crypto.cipher && (gcm || crypto.mac)
      ensures tag.Some? ==> p.ssrc in send.streams && tag.value == Mac(p, send.streams[p.ssrc].roc)
    {
      if !room {
        return None;
      }
      var roc := Forward(p);
      if !p.fits || !crypto.cipher || (!gcm && !crypto.mac) {
        return None;
      }
      return Some(Mac(p, roc));
    }

    /** Access to the packet's stream, which then moves. */
    method Forward(p: Packet) returns (roc: int)
      requires SendValid()
      modifies this`sendTick, send, send.entries
      ensures SendValid() && sendTick == old(sendTick) + 1
      ensures SendStep(old(send.streams), old(sendTick), p, send.streams)
      ensures p.ssrc in send.streams && roc == send.streams[p.ssrc].roc
    {
      var i := SendEntry(p.ssrc);
      ghost var t := send.streams;
      roc := Number(i, p);
      SendsBy(old(send.streams), old(sendTick), p, t, send.streams);
    }

    method SendEntry(ssrc: int) returns (i: nat)
      requires SendValid()
      modifies this`sendTick, send, send.entries
      ensures SendValid() && sendTick == old(sendTick) + 1
      ensures Touched(old(send.streams), ssrc, old(sendTick) + 1, send.streams)
      ensures ssrc in send.slots && send.slots[ssrc] == i && ssrc in send.streams
    {
      i := send.EntryFor(ssrc, sendTick);
      sendTick := sendTick + 1;
    }

    /** The sender's rollover counter moves with the sequence number. */
    method Number(i: nat, p: Packet) returns (roc: int)
      requires SendValid() && p.ssrc in send.slots && send.slots[p.ssrc] == i
      modifies send`streams, send.entries
      ensures SendValid() && p.ssrc in old(send.streams)
      ensures send.streams == old(send.streams)[p.ssrc := Sent(old(send.streams[p.ssrc]), p.sn)]
      ensures roc == send.streams[p.ssrc].roc
    {
      ghost var s := send.streams[p.ssrc];
      var st := send.entries[i];
      if !st.rocInit {
        st := st.(rocInit := true);
      } else if p.sn < st.lastSeq && st.lastSeq - p.sn > HALF {
        st := st.(roc := (st.roc + 1) % ROC_SPACE);
      }
      st := st.(lastSeq := p.sn);
      send.Put(i, p.ssrc, st, Sent(s, p.sn), sendTick);
      roc := st.roc;
    }

    /** `rtc_srtp_unprotect` and its GCM twin. */
    method Unprotect(p: Packet, tag: Option<Tag>, crypto: Crypto) returns (ok: bool)
      requires RecvValid()
      modifies this`recvTick, recv, recv.entries
      ensures RecvValid()
      ensures ReceiveStep(gcm, old(recv.streams), old(recvTick), p, tag, crypto, recv.streams, ok)
    {
      var roc := EstimateRoc(p);
      if gcm && !(p.fits && crypto.cipher) {
        return false;
      }
      if !gcm && !crypto.mac {
        return false;
      }
      if tag != Some(Mac(p, roc)) {
        return false;
      }
      ok := Accept(p, roc, p.fits && crypto.cipher);
    }

    method Accept(p: Packet, roc: int, completes: bool) returns (ok: bool)
      requires RecvValid()
      modifies this`recvTick, recv, recv.entries
      ensures RecvValid()
      ensures VerifiedStep(old(recv.streams), old(recvTick), p, roc, completes, recv.streams, ok)
    {
      var i := RecvEntry(p.ssrc);
      ghost var t := recv.streams;
      ghost var s;
      ok, s := Finish(i, p, roc, completes);
      VerifiedBy(old(recv.streams), old(recvTick), p, roc, completes, t, s, ok);
    }

    method RecvEntry(ssrc: int) returns (i: nat)
      requires RecvValid()
      modifies this`recvTick, recv, recv.entries
      ensures RecvValid() && recvTick == old(recvTick) + 1
      ensures Touched(old(recv.streams), ssrc, old(recvTick) + 1, recv.streams)
      ensures ssrc in recv.slots && recv.slots[ssrc] == i && ssrc in recv.streams
    {
      i := recv.EntryFor(ssrc, recvTick);
      recvTick := recvTick + 1;
    }

    /** The rollover counter a packet is verified under; the table is left alone. */
    method EstimateRoc(p: Packet) returns (roc: int)
      requires RecvValid()
      ensures roc == Estimate(recv.streams, p)
    {
      var known := recv.FindSsrc(p.ssrc, recvTick);
      if known < 0 {
        return 0;
      }
      var e := recv.entries[known];
      roc := e.roc;
      if e.rocInit && p.sn < e.lastSeq && e.lastSeq - p.sn > HALF {
        roc := (e.roc + 1) % ROC_SPACE;
      }
    }

    /** The part of unprotect that follows the tag verification. */
    method Finish(i: nat, p: Packet, roc: int, completes: bool) returns (ok: bool, ghost s: Stream)
      requires RecvValid() && p.ssrc in recv.slots && recv.slots[p.ssrc] == i
      modifies recv`streams, recv.entries
      ensures RecvValid()
      ensures p.ssrc in old(recv.streams) && recv.streams == old(recv.streams)[p.ssrc := s]
      ensures StreamStep(old(recv.streams[p.ssrc]), p, roc, completes, s, ok)
    {
      s := recv.streams[p.ssrc];
      var st := recv.entries[i];
      var index := roc * SEQ_SPACE + p.sn;
      var unseen, window := ReplayCheck(st.replay, index, s.accepted);
      if !unseen {
        return false, s;
      }
      st := st.(replay := window);
      s := Marked(s, index);
      if completes {
        if !st.rocInit || p.sn > st.lastSeq || st.lastSeq - p.sn > HALF {
          st := st.(lastSeq := p.sn, roc := roc, rocInit := true);
        }
        s := Received(s, roc, p.sn);
      }
      recv.Put(i, p.ssrc, st, s, recvTick);
      return completes, s;
    }
  }
}
