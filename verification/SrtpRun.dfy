/** Sender, network and receiver together.  The network may drop, repeat, reorder
    and fabricate packets, but cannot produce a tag that the sender never made. */
module SrtpRun {
  import opened Collections
  import opened SrtpStreams
  import opened SrtpIndex
  import opened SrtpContext
  import opened SrtpTracking

  /** `log` records the packets the receiver accepted, each with the index it used. */
  datatype World = World(gcm: bool, sent: Streams, sendTick: int, sealed: set<Tag>,
                         recv: Streams, recvTick: int, log: seq<(Packet, int)>)

  ghost predicate Init(w: World)
  {
    w.sent == map[] && w.recv == map[] && w.sealed == {} && w.log == []
  }

  datatype Event = Send(packet: Packet, room: bool, crypto: Crypto)
                 | Deliver(packet: Packet, tag: Option<Tag>, crypto: Crypto)

  ghost predicate Step(w: World, e: Event, w': World)
  {
    && w'.gcm == w.gcm && 0 <= e.packet.sn < SEQ_SPACE
    && match e
       case Send(p, room, crypto) =>
         && w'.recv == w.recv && w'.recvTick == w.recvTick && w'.log == w.log
         && (if room then SendStep(w.sent, w.sendTick, p, w'.sent) else w'.sent == w.sent)
         && w'.sealed == if room && p.fits && crypto.cipher && (w.gcm || crypto.mac)
                         then w.sealed + {Mac(p, Estimate(w'.sent, p))} else w.sealed
       case Deliver(p, tag, crypto) =>
         && (tag.Some? ==> tag.value in w.sealed)
         && w'.sent == w.sent && w'.sendTick == w.sendTick && w'.sealed == w.sealed
         && exists ok :: ReceiveStep(w.gcm, w.recv, w.recvTick, p, tag, crypto, w'.recv, ok)
                         && w'.log == if ok then w.log + [(p, IndexOf(Estimate(w.recv, p), p.sn))] else w.log
  }

  ghost predicate Run(ws: seq<World>, es: seq<Event>, ssrcs: set<int>)
  {
    && |ws| == |es| + 1 && Init(ws[0])
    && forall i | 0 <= i < |es| :: Step(ws[i], es[i], ws[i + 1]) && es[i].packet.ssrc in ssrcs
  }

  /** Every accepted packet carries the tag the sender made for that very index. */
  ghost predicate Authenticated(w: World)
  {
    forall i | 0 <= i < |w.log| ::
      var (p, index) := w.log[i];
      0 <= p.sn < SEQ_SPACE && index >= 0 && index % SEQ_SPACE == p.sn && Mac(p, index / SEQ_SPACE) in w.sealed
  }

  /** No index of a stream is accepted twice. */
  ghost predicate NoReplay(w: World)
  {
    forall i, j | 0 <= i < j < |w.log| :: w.log[i].0.ssrc != w.log[j].0.ssrc || w.log[i].1 != w.log[j].1
  }

  /** The receiver still remembers everything it has accepted. */
  ghost predicate Remembers(w: World, ssrcs: set<int>)
  {
    && w.recv.Keys <= ssrcs
    && forall i | 0 <= i < |w.log| :: w.log[i].0.ssrc in w.recv && w.log[i].1 in w.recv[w.log[i].0.ssrc].accepted
  }

  /** With at most eight SSRCs no access evicts a stream. */
  lemma NothingEvicted(m: Streams, ssrc: int, now: int, t: Streams, ssrcs: set<int>)
    requires Touched(m, ssrc, now, t) && m.Keys <= ssrcs && ssrc in ssrcs && |ssrcs| <= MAX_STREAMS
    ensures ssrc in t && t.Keys == m.Keys + {ssrc}
    ensures forall s | s in m :: t[s].accepted == m[s].accepted && (s != ssrc ==> t[s] == m[s])
    ensures t[ssrc] == (if ssrc in m then m[ssrc] else NewStream(now)).(used := now)
  {
    if ssrc !in m {
      assert m.Keys <= ssrcs - {ssrc};
      SubsetSize(m.Keys, ssrcs - {ssrc});
      assert |m| == |m.Keys|;
    }
  }

  /** The histories only grow. */
  ghost predicate Grown(m: Streams, m': Streams)
  {
    forall s | s in m :: s in m' && m[s].accepted <= m'[s].accepted
  }

  /** The index was unknown to the stream before and is known to it now. */
  ghost predicate NewlyKnown(m: Streams, m': Streams, ssrc: int, index: int)
  {
    && ssrc in m' && index in m'[ssrc].accepted
    && (ssrc in m ==> index !in m[ssrc].accepted)
  }

  lemma StreamOutcome(s: Stream, p: Packet, roc: int, completes: bool, s': Stream, ok: bool)
    requires StreamStep(s, p, roc, completes, s', ok)
    ensures s.accepted <= s'.accepted
    ensures ok ==> IndexOf(roc, p.sn) in s'.accepted && IndexOf(roc, p.sn) !in s.accepted
  {
  }

  /** What a verified packet can do to the histories when nothing is evicted. */
  lemma VerifiedOutcome(m: Streams, now: int, p: Packet, roc: int, completes: bool, m': Streams, ok: bool,
                        ssrcs: set<int>)
    requires VerifiedStep(m, now, p, roc, completes, m', ok)
    requires m.Keys <= ssrcs && p.ssrc in ssrcs && |ssrcs| <= MAX_STREAMS
    ensures m'.Keys <= ssrcs && Grown(m, m')
    ensures ok ==> NewlyKnown(m, m', p.ssrc, IndexOf(roc, p.sn))
  {
    var t: Streams :| Touched(m, p.ssrc, now + 1, t) && p.ssrc in t && VerifiedIn(t, p, roc, completes, m', ok);
    NothingEvicted(m, p.ssrc, now + 1, t, ssrcs);
    StreamOutcome(t[p.ssrc], p, roc, completes, m'[p.ssrc], ok);
  }

  ghost predicate Safe(w: World, ssrcs: set<int>)
  {
    Authenticated(w) && NoReplay(w) && Remembers(w, ssrcs)
  }

  lemma NotLogged(w: World, w': World, ssrcs: set<int>)
    requires Safe(w, ssrcs) && w'.log == w.log && w'.sealed >= w.sealed
    requires Grown(w.recv, w'.recv) && w'.recv.Keys <= ssrcs
    ensures Safe(w', ssrcs)
  {
  }

  lemma Logged(w: World, w': World, p: Packet, index: int, ssrcs: set<int>)
    requires Safe(w, ssrcs) && w'.log == w.log + [(p, index)] && w'.sealed == w.sealed
    requires 0 <= p.sn < SEQ_SPACE && index >= 0 && index % SEQ_SPACE == p.sn && Mac(p, index / SEQ_SPACE) in w.sealed
    requires Grown(w.recv, w'.recv) && w'.recv.Keys <= ssrcs && NewlyKnown(w.recv, w'.recv, p.ssrc, index)
    ensures Safe(w', ssrcs)
  {
    forall i | 0 <= i < |w.log| ensures w.log[i].0.ssrc != p.ssrc || w.log[i].1 != index {
      assert w.log[i].0.ssrc in w.recv && w.log[i].1 in w.recv[w.log[i].0.ssrc].accepted;
    }
  }

  lemma DeliverKeeps(w: World, p: Packet, tag: Option<Tag>, crypto: Crypto, w': World, ssrcs: set<int>)
    requires Step(w, Deliver(p, tag, crypto), w') && p.ssrc in ssrcs && |ssrcs| <= MAX_STREAMS
    requires Safe(w, ssrcs) && SenderInRange(w)
    ensures Safe(w', ssrcs)
  {
    var roc := Estimate(w.recv, p);
    var index := IndexOf(roc, p.sn);
    var ok :| ReceiveStep(w.gcm, w.recv, w.recvTick, p, tag, crypto, w'.recv, ok)
              && w'.log == if ok then w.log + [(p, index)] else w.log;
    if Authentic(w.gcm, w.recv, p, tag, crypto) {
      VerifiedOutcome(w.recv, w.recvTick, p, roc, p.fits && crypto.cipher, w'.recv, ok, ssrcs);
    }
    if ok {
      assert index / SEQ_SPACE == roc && index % SEQ_SPACE == p.sn;
      Logged(w, w', p, index, ssrcs);
    } else {
      NotLogged(w, w', ssrcs);
    }
  }

  /** Counters and sealed packets stay within their 32 and 16 bits. */
  ghost predicate SenderInRange(w: World)
  {
    && (forall s | s in w.sent :: w.sent[s].rocInit && InRange(w.sent[s].roc, w.sent[s].lastSeq))
    && (forall t | t in w.sealed :: InRange(t.roc, t.packet.sn))
  }

  lemma SendInRange(w: World, e: Event, w': World)
    requires Step(w, e, w') && e.Send? && SenderInRange(w)
    ensures SenderInRange(w')
  {
    if e.room {
      var ssrc := e.packet.ssrc;
      var t: Streams :| Touched(w.sent, ssrc, w.sendTick + 1, t) && ssrc in t
                        && w'.sent == t[ssrc := Sent(t[ssrc], e.packet.sn)];
      assert Estimate(w'.sent, e.packet) == w'.sent[ssrc].roc;
    }
  }

  /** The safety of a whole run: every packet accepted is one the sender sealed
      under exactly the index the receiver used, and no index is accepted twice,
      as long as at most eight SSRCs are in use. */
  lemma {:induction false} RunSafe(ws: seq<World>, es: seq<Event>, ssrcs: set<int>, i: int)
    requires Run(ws, es, ssrcs) && |ssrcs| <= MAX_STREAMS && 0 <= i < |ws|
    ensures Safe(ws[i], ssrcs) && SenderInRange(ws[i])
  {
    if i > 0 {
      var w, e := ws[i - 1], es[i - 1];
      var w' := ws[i - 1 + 1];
      assert Step(w, e, w') && e.packet.ssrc in ssrcs;
      RunSafe(ws, es, ssrcs, i - 1);
      if e.Deliver? {
        DeliverKeeps(w, e.packet, e.tag, e.crypto, w', ssrcs);
      } else {
        SendInRange(w, e, w');
        NotLogged(w, w', ssrcs);
      }
    }
  }

  // ----- every sealed packet has an index of its own -----

  /** Packets numbered by an RTP session: each moves the stream's sequence number
      forward by less than 2^15, until the 48-bit index space is used up. */
  ghost predicate Numbered(w: World, e: Event)
  {
    e.Send? && e.room && e.packet.ssrc in w.sent ==>
      exists d :: Forward(w.sent[e.packet.ssrc], e.packet.sn, d)
  }

  ghost predicate Forward(s: Stream, sn: int, d: int)
  {
    1 <= d < HALF && sn == (s.lastSeq + d) % SEQ_SPACE && HighestOf(s) + d < SEQ_SPACE * ROC_SPACE
  }

  /** The sender has used up every index it sealed under. */
  ghost predicate Behind(w: World, ssrcs: set<int>)
  {
    && w.sent.Keys <= ssrcs
    && forall t | t in w.sealed ::
         t.packet.ssrc in w.sent && IndexOf(t.roc, t.packet.sn) <= HighestOf(w.sent[t.packet.ssrc])
  }

  ghost predicate UniqueIndices(w: World)
  {
    forall a, b | a in w.sealed && b in w.sealed && a.packet.ssrc == b.packet.ssrc
                  && a.roc == b.roc && a.packet.sn == b.packet.sn :: a == b
  }

  /** The sender's step when nothing is evicted. */
  lemma SendOutcome(m: Streams, now: int, p: Packet, m': Streams, ssrcs: set<int>)
    requires SendStep(m, now, p, m') && m.Keys <= ssrcs && p.ssrc in ssrcs && |ssrcs| <= MAX_STREAMS
    requires p.ssrc in m ==> m[p.ssrc].rocInit && InRange(m[p.ssrc].roc, m[p.ssrc].lastSeq)
    requires p.ssrc in m ==> exists d :: Forward(m[p.ssrc], p.sn, d)
    ensures p.ssrc in m' && m'.Keys == m.Keys + {p.ssrc} && m'[p.ssrc].lastSeq == p.sn
    ensures forall s | s in m && s != p.ssrc :: m'[s] == m[s]
    ensures p.ssrc in m ==> 0 < HighestOf(m'[p.ssrc]) - HighestOf(m[p.ssrc]) < HALF
    ensures p.ssrc !in m ==> m'[p.ssrc].roc == 0
    ensures Estimate(m', p) == m'[p.ssrc].roc
  {
    var t: Streams :| Touched(m, p.ssrc, now + 1, t) && p.ssrc in t && m' == t[p.ssrc := Sent(t[p.ssrc], p.sn)];
    NothingEvicted(m, p.ssrc, now + 1, t, ssrcs);
    assert p.ssrc in m ==> t[p.ssrc] == m[p.ssrc].(used := now + 1);
    if p.ssrc in m {
      SentHigher(m[p.ssrc], p.sn, now + 1);
    }
  }

  lemma SentHigher(s: Stream, sn: int, now: int)
    requires s.rocInit && InRange(s.roc, s.lastSeq) && exists d :: Forward(s, sn, d)
    ensures 0 < HighestOf(Sent(s.(used := now), sn)) - HighestOf(s) < HALF
  {
    var d :| Forward(s, sn, d);
    SenderAdvances(s, d);
  }

  lemma SendUnique(w: World, e: Event, w': World, ssrcs: set<int>)
    requires Step(w, e, w') && e.Send? && Numbered(w, e) && e.packet.ssrc in ssrcs && |ssrcs| <= MAX_STREAMS
    requires SenderInRange(w) && Behind(w, ssrcs) && UniqueIndices(w)
    ensures Behind(w', ssrcs) && UniqueIndices(w')
  {
    if e.room {
      SendOutcome(w.sent, w.sendTick, e.packet, w'.sent, ssrcs);
      SealedHigher(w, w', e.packet.ssrc, Mac(e.packet, w'.sent[e.packet.ssrc].roc), ssrcs);
    }
  }

  lemma SealedHigher(w: World, w': World, ssrc: int, tag: Tag, ssrcs: set<int>)
    requires SenderInRange(w) && Behind(w, ssrcs) && UniqueIndices(w)
    requires tag.packet.ssrc == ssrc && ssrc in w'.sent && ssrc in ssrcs
    requires IndexOf(tag.roc, tag.packet.sn) == HighestOf(w'.sent[ssrc])
    requires w'.sent.Keys == w.sent.Keys + {ssrc}
    requires forall s | s in w.sent && s != ssrc :: HighestOf(w'.sent[s]) == HighestOf(w.sent[s])
    requires ssrc in w.sent ==> HighestOf(w'.sent[ssrc]) > HighestOf(w.sent[ssrc])
    requires w'.sealed == w.sealed || w'.sealed == w.sealed + {tag}
    ensures Behind(w', ssrcs) && UniqueIndices(w')
  {
    forall a | a in w.sealed && a.packet.ssrc == ssrc
      ensures IndexOf(a.roc, a.packet.sn) < IndexOf(tag.roc, tag.packet.sn)
    {
      assert a.packet.ssrc in w.sent;
    }
  }

  lemma StepUnique(w: World, e: Event, w': World, ssrcs: set<int>)
    requires Step(w, e, w') && Numbered(w, e) && e.packet.ssrc in ssrcs && |ssrcs| <= MAX_STREAMS
    requires SenderInRange(w) && Behind(w, ssrcs) && UniqueIndices(w)
    ensures Behind(w', ssrcs) && UniqueIndices(w')
  {
    if e.Send? {
      SendUnique(w, e, w', ssrcs);
    } else {
      assert w'.sent == w.sent && w'.sealed == w.sealed;
    }
  }

  /** Over every run with at most eight SSRCs, each numbered by its session, no
      two sealed packets share SSRC, rollover counter and sequence number. */
  lemma {:induction false} RunUnique(ws: seq<World>, es: seq<Event>, ssrcs: set<int>, i: int)
    requires Run(ws, es, ssrcs) && |ssrcs| <= MAX_STREAMS && 0 <= i < |ws|
    requires forall k | 0 <= k < |es| :: Numbered(ws[k], es[k])
    ensures Behind(ws[i], ssrcs) && UniqueIndices(ws[i])
  {
    if i > 0 {
      var w, e := ws[i - 1], es[i - 1];
      var w' := ws[i - 1 + 1];
      assert Step(w, e, w') && e.packet.ssrc in ssrcs && Numbered(w, e);
      RunSafe(ws, es, ssrcs, i - 1);
      RunUnique(ws, es, ssrcs, i - 1);
      StepUnique(w, e, w', ssrcs);
    }
  }
}
