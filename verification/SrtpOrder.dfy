/** What a receiver makes of whole runs: when its rollover counters follow the
    replay windows, and that packets delivered in order are all accepted. */
module SrtpOrder {
  import opened Collections
  import opened SrtpReplay
  import opened SrtpStreams
  import opened SrtpIndex
  import opened SrtpContext
  import opened SrtpTracking
  import opened SrtpRun

  // ----- counters and windows -----

  ghost predicate AllTrack(w: World)
  {
    forall s | s in w.recv :: Tracks(w.recv[s])
  }

  ghost predicate SealedFit(w: World)
  {
    forall t | t in w.sealed :: t.packet.fits
  }

  /** The stream a packet of that SSRC meets. */
  ghost function StreamOf(m: Streams, ssrc: int): Stream
  {
    if ssrc in m then m[ssrc] else NewStream(0)
  }

  /** A delivery under AES-CM whose tag is right and whose decryption fails, with a
      fresh index beyond the highest one. */
  ghost predicate LosesTrack(w: World, e: Event)
  {
    && e.Deliver? && !w.gcm && e.crypto.mac && !e.crypto.cipher
    && e.tag == Some(Mac(e.packet, Estimate(w.recv, e.packet)))
    && Advances(StreamOf(w.recv, e.packet.ssrc), IndexOf(Estimate(w.recv, e.packet), e.packet.sn))
  }

  ghost predicate Advances(s: Stream, index: int)
  {
    Fresh(s.accepted, index) && (s.rocInit ==> index > HighestOf(s))
  }

  lemma TouchedStreams(m: Streams, ssrc: int, now: int, t: Streams)
    requires Touched(m, ssrc, now, t)
    ensures ssrc in t && t[ssrc] == StreamOf(m, ssrc).(used := now)
    ensures forall s | s in t && s != ssrc :: s in m && t[s] == m[s]
  {
  }

  /** A packet whose tag is right steps its own stream; others are kept or go. */
  lemma VerifiedStreams(m: Streams, now: int, p: Packet, roc: int, completes: bool, m': Streams, ok: bool)
    requires VerifiedStep(m, now, p, roc, completes, m', ok)
    ensures p.ssrc in m'
    ensures StreamStep(StreamOf(m, p.ssrc).(used := now + 1), p, roc, completes, m'[p.ssrc], ok)
    ensures forall s | s in m' && s != p.ssrc :: s in m && m'[s] == m[s]
  {
    var t: Streams :| Touched(m, p.ssrc, now + 1, t) && p.ssrc in t && VerifiedIn(t, p, roc, completes, m', ok);
    TouchedStreams(m, p.ssrc, now + 1, t);
  }

  lemma StreamTracks(s: Stream, p: Packet, completes: bool, s': Stream, ok: bool)
    requires Tracks(s) && StreamStep(s, p, RocFor(s, p.sn), completes, s', ok) && 0 <= p.sn < SEQ_SPACE
    ensures Tracks(s') <==> completes || !Advances(s, IndexOf(RocFor(s, p.sn), p.sn))
    ensures completes && s.rocInit ==> s'.rocInit && HighestOf(s') >= HighestOf(s)
  {
    if completes {
      TrackingKept(s, p, s', ok);
    } else {
      TrackingLost(s, p, s', ok);
    }
  }

  lemma VerifiedTracks(m: Streams, now: int, p: Packet, completes: bool, m': Streams, ok: bool)
    requires VerifiedStep(m, now, p, Estimate(m, p), completes, m', ok) && 0 <= p.sn < SEQ_SPACE
    requires forall s | s in m :: Tracks(m[s])
    ensures (forall s | s in m' :: Tracks(m'[s])) <==>
            completes || !Advances(StreamOf(m, p.ssrc), IndexOf(Estimate(m, p), p.sn))
  {
    VerifiedStreams(m, now, p, Estimate(m, p), completes, m', ok);
    StreamTracks(StreamOf(m, p.ssrc).(used := now + 1), p, completes, m'[p.ssrc], ok);
  }

  /** One event keeps every counter equal to the highest index its window has
      accepted, exactly unless it is such a delivery. A sealed packet always fits,
      so nothing else can fail after the window was marked. */
  lemma StepTracks(w: World, e: Event, w': World)
    requires Step(w, e, w') && AllTrack(w) && SealedFit(w)
    ensures SealedFit(w')
    ensures AllTrack(w') <==> !LosesTrack(w, e)
  {
    if e.Deliver? && Authentic(w.gcm, w.recv, e.packet, e.tag, e.crypto) {
      assert e.tag.value in w.sealed;
      var ok :| ReceiveStep(w.gcm, w.recv, w.recvTick, e.packet, e.tag, e.crypto, w'.recv, ok);
      VerifiedTracks(w.recv, w.recvTick, e.packet, e.packet.fits && e.crypto.cipher, w'.recv, ok);
    }
  }

  /** Over every run, with any number of SSRCs. */
  lemma {:induction false} RunTracks(ws: seq<World>, es: seq<Event>, ssrcs: set<int>, i: int)
    requires Run(ws, es, ssrcs) && 0 <= i < |ws|
    requires forall k | 0 <= k < i :: !LosesTrack(ws[k], es[k])
    ensures AllTrack(ws[i]) && SealedFit(ws[i])
  {
    if i > 0 {
      assert Step(ws[i - 1], es[i - 1], ws[i - 1 + 1]);
      RunTracks(ws, es, ssrcs, i - 1);
      StepTracks(ws[i - 1], es[i - 1], ws[i]);
    }
  }

  /** A stream that stays in the table never falls back. */
  lemma StepHighest(w: World, e: Event, w': World, ssrc: int)
    requires Step(w, e, w') && AllTrack(w) && SealedFit(w) && !LosesTrack(w, e)
    requires ssrc in w.recv && ssrc in w'.recv && w.recv[ssrc].rocInit
    ensures w'.recv[ssrc].rocInit && HighestOf(w'.recv[ssrc]) >= HighestOf(w.recv[ssrc])
  {
    if e.Deliver? && Authentic(w.gcm, w.recv, e.packet, e.tag, e.crypto) {
      assert e.tag.value in w.sealed;
      var ok :| ReceiveStep(w.gcm, w.recv, w.recvTick, e.packet, e.tag, e.crypto, w'.recv, ok);
      VerifiedHighest(w.recv, w.recvTick, e.packet, e.crypto.cipher, w'.recv, ok, ssrc);
    }
  }

  lemma VerifiedHighest(m: Streams, now: int, p: Packet, completes: bool, m': Streams, ok: bool, ssrc: int)
    requires VerifiedStep(m, now, p, Estimate(m, p), completes, m', ok) && 0 <= p.sn < SEQ_SPACE
    requires (forall s | s in m :: Tracks(m[s])) && ssrc in m && ssrc in m' && m[ssrc].rocInit
    ensures m'[ssrc].rocInit && HighestOf(m'[ssrc]) >= HighestOf(m[ssrc])
  {
    VerifiedStreams(m, now, p, Estimate(m, p), completes, m', ok);
    if ssrc == p.ssrc && completes {
      StreamTracks(m[ssrc].(used := now + 1), p, completes, m'[ssrc], ok);
    }
  }

  /** With at most eight SSRCs the highest index of a stream never decreases. */
  lemma {:induction false} RunHighest(ws: seq<World>, es: seq<Event>, ssrcs: set<int>, i: int, j: int, ssrc: int)
    requires Run(ws, es, ssrcs) && |ssrcs| <= MAX_STREAMS && 0 <= i <= j < |ws|
    requires forall k | 0 <= k < j :: !LosesTrack(ws[k], es[k])
    requires ssrc in ws[i].recv && ws[i].recv[ssrc].rocInit
    ensures ssrc in ws[j].recv && ws[j].recv[ssrc].rocInit
    ensures HighestOf(ws[j].recv[ssrc]) >= HighestOf(ws[i].recv[ssrc])
    decreases j
  {
    if i < j {
      var w, e := ws[j - 1], es[j - 1];
      assert Step(w, e, ws[j - 1 + 1]) && e.packet.ssrc in ssrcs;
      RunHighest(ws, es, ssrcs, i, j - 1, ssrc);
      RunTracks(ws, es, ssrcs, j - 1);
      RunSafe(ws, es, ssrcs, j - 1);
      StepGrows(w, e, ws[j], ssrcs);
      StepHighest(w, e, ws[j], ssrc);
    }
  }

  lemma StepGrows(w: World, e: Event, w': World, ssrcs: set<int>)
    requires Step(w, e, w') && e.packet.ssrc in ssrcs && |ssrcs| <= MAX_STREAMS && w.recv.Keys <= ssrcs
    ensures Grown(w.recv, w'.recv)
  {
    if e.Deliver? && Authentic(w.gcm, w.recv, e.packet, e.tag, e.crypto) {
      var ok :| ReceiveStep(w.gcm, w.recv, w.recvTick, e.packet, e.tag, e.crypto, w'.recv, ok);
      VerifiedOutcome(w.recv, w.recvTick, e.packet, Estimate(w.recv, e.packet), e.packet.fits && e.crypto.cipher,
                      w'.recv, ok, ssrcs);
    }
  }

  /** One packet is sealed, delivered, and cannot be decrypted: its index is marked
      while the counter still says that nothing has come. */
  lemma DecryptionFailed() returns (ws: seq<World>, es: seq<Event>)
    ensures Run(ws, es, {1}) && |es| == 2 && !AllTrack(ws[2])
  {
    var p := Packet(1, 5, true, []);
    var sent, marked := Stream(0, 5, true, {}, 1), Stream(0, 0, false, {5}, 1);
    var w0 := World(false, map[], 0, {}, map[], 0, []);
    var w1 := World(false, map[1 := sent], 1, {Mac(p, 0)}, map[], 0, []);
    var w2 := w1.(recv := map[1 := marked], recvTick := 1);
    ws := [w0, w1, w2];
    es := [Send(p, true, Crypto(true, true)), Deliver(p, Some(Mac(p, 0)), Crypto(true, false))];
    assert Touched(map[], 1, 1, map[1 := NewStream(1)]);
    assert Step(w0, es[0], w1);
    FailedStep(p, marked);
    assert Step(w1, es[1], w2);
  }

  lemma FailedStep(p: Packet, marked: Stream)
    requires p == Packet(1, 5, true, []) && marked == Stream(0, 0, false, {5}, 1)
    ensures ReceiveStep(false, map[], 0, p, Some(Mac(p, 0)), Crypto(true, false), map[1 := marked], false)
  {
    var t: Streams := map[1 := NewStream(1)];
    assert Touched(map[], 1, 1, t);
    assert {} + {5} == {5};
    assert StreamStep(t[1], p, 0, false, marked, false);
    assert map[1 := marked] == t[1 := marked];
  }

  // ----- one delivery -----

  /** A genuine packet, whatever the state of the receiver: accepted under its true
      index exactly if that is in reach, unseen and inside the window. */
  lemma DeliverExactly(w: World, p: Packet, roc: int, w': World)
    requires Step(w, Deliver(p, Some(Mac(p, roc)), Crypto(true, true)), w') && AllTrack(w) && SealedFit(w)
    requires InRange(roc, p.sn) && StreamOf(w.recv, p.ssrc).roc + 1 < ROC_SPACE
    ensures w'.log == w.log + [(p, IndexOf(roc, p.sn))] <==>
            var s, index := StreamOf(w.recv, p.ssrc), IndexOf(roc, p.sn);
            InReach(s, index) && Fresh(s.accepted, index)
  {
    var s, tag := StreamOf(w.recv, p.ssrc), Some(Mac(p, roc));
    EstimateExact(s, roc, p.sn);
    assert tag.value in w.sealed;
    var ok :| ReceiveStep(w.gcm, w.recv, w.recvTick, p, tag, Crypto(true, true), w'.recv, ok)
              && w'.log == if ok then w.log + [(p, IndexOf(Estimate(w.recv, p), p.sn))] else w.log;
    if Estimate(w.recv, p) == roc {
      VerifiedStreams(w.recv, w.recvTick, p, roc, true, w'.recv, ok);
    }
  }

  /** The next packet of its stream, less than 2^15 ahead. */
  ghost predicate NextTo(last: Option<int>, index: int)
  {
    match last case None => 0 <= index < SEQ_SPACE case Some(x) => 0 < index - x < HALF
  }

  ghost function HighestIn(m: Streams, ssrc: int): Option<int>
  {
    if ssrc in m then Some(HighestOf(m[ssrc])) else None
  }

  ghost predicate AllBegun(m: Streams)
  {
    forall s | s in m :: m[s].rocInit
  }

  lemma NextVerified(m: Streams, now: int, p: Packet, roc: int, m': Streams, ok: bool, ssrcs: set<int>)
    requires VerifiedStep(m, now, p, roc, true, m', ok) && InRange(roc, p.sn) && AllBegun(m)
    requires (forall s | s in m :: Tracks(m[s])) && NextTo(HighestIn(m, p.ssrc), IndexOf(roc, p.sn))
    requires m.Keys <= ssrcs && p.ssrc in ssrcs && |ssrcs| <= MAX_STREAMS
    ensures ok && AllBegun(m') && HighestIn(m', p.ssrc) == Some(IndexOf(roc, p.sn))
    ensures forall s | s != p.ssrc :: HighestIn(m', s) == HighestIn(m, s)
  {
    var s, index := StreamOf(m, p.ssrc).(used := now + 1), IndexOf(roc, p.sn);
    assert index / SEQ_SPACE == roc && index % SEQ_SPACE == p.sn;
    NextInOrder(s, index);
    VerifiedStreams(m, now, p, roc, true, m', ok);
    VerifiedOutcome(m, now, p, roc, true, m', ok, ssrcs);
  }

  lemma NextEstimated(m: Streams, p: Packet, roc: int)
    requires (forall s | s in m :: Tracks(m[s])) && AllBegun(m) && InRange(roc, p.sn)
    requires NextTo(HighestIn(m, p.ssrc), IndexOf(roc, p.sn))
    ensures Estimate(m, p) == roc
  {
    var index := IndexOf(roc, p.sn);
    assert index / SEQ_SPACE == roc && index % SEQ_SPACE == p.sn;
    NextInOrder(StreamOf(m, p.ssrc), index);
  }

  lemma NextAccepted(w: World, p: Packet, roc: int, w': World, ssrcs: set<int>)
    requires Step(w, Deliver(p, Some(Mac(p, roc)), Crypto(true, true)), w') && AllTrack(w) && SealedFit(w)
    requires AllBegun(w.recv) && InRange(roc, p.sn) && NextTo(HighestIn(w.recv, p.ssrc), IndexOf(roc, p.sn))
    requires w.recv.Keys <= ssrcs && p.ssrc in ssrcs && |ssrcs| <= MAX_STREAMS
    ensures w'.log == w.log + [(p, IndexOf(roc, p.sn))] && AllBegun(w'.recv)
    ensures HighestIn(w'.recv, p.ssrc) == Some(IndexOf(roc, p.sn))
    ensures forall s | s != p.ssrc :: HighestIn(w'.recv, s) == HighestIn(w.recv, s)
  {
    NextEstimated(w.recv, p, roc);
    assert Mac(p, roc) in w.sealed;
    var ok :| ReceiveStep(w.gcm, w.recv, w.recvTick, p, Some(Mac(p, roc)), Crypto(true, true), w'.recv, ok)
              && w'.log == if ok then w.log + [(p, IndexOf(Estimate(w.recv, p), p.sn))] else w.log;
    NextVerified(w.recv, w.recvTick, p, roc, w'.recv, ok, ssrcs);
  }

  // ----- deliveries in order, with gaps -----

  /** A delivery of a packet with the tag that was made for it. Everything else the
      network delivers is made up. */
  predicate Genuine(e: Event)
  {
    e.Deliver? && e.tag.Some? && e.tag.value.packet == e.packet
  }

  /** What is made up changes nothing. */
  lemma MadeUp(w: World, e: Event, w': World)
    requires Step(w, e, w') && e.Deliver? && !Genuine(e)
    ensures w'.recv == w.recv && w'.log == w.log
  {
  }

  /** The index under which the last of the first i events delivered that SSRC. */
  ghost function LastDelivered(es: seq<Event>, i: int, ssrc: int): Option<int>
    requires 0 <= i <= |es|
  {
    if i == 0 then None
    else
      var e := es[i - 1];
      if Genuine(e) && e.packet.ssrc == ssrc then Some(IndexOf(e.tag.value.roc, e.packet.sn))
      else LastDelivered(es, i - 1, ssrc)
  }

  /** What the first i events deliver, each packet under the index it was sealed with. */
  ghost function Deliveries(es: seq<Event>, i: int): seq<(Packet, int)>
    requires 0 <= i <= |es|
  {
    if i == 0 then []
    else
      var e, before := es[i - 1], Deliveries(es, i - 1);
      if Genuine(e) then before + [(e.packet, IndexOf(e.tag.value.roc, e.packet.sn))] else before
  }

  /** No library call fails on a packet as it was sealed. */
  ghost predicate Intact(e: Event)
  {
    Genuine(e) ==> e.crypto == Crypto(true, true)
  }

  ghost predicate InTurn(es: seq<Event>, k: int)
    requires 0 <= k < |es|
  {
    var e := es[k];
    Intact(e) && (Genuine(e) ==> NextTo(LastDelivered(es, k, e.packet.ssrc), IndexOf(e.tag.value.roc, e.packet.sn)))
  }

  ghost predicate Follows(w: World, es: seq<Event>, i: int)
    requires 0 <= i <= |es|
  {
    && AllBegun(w.recv) && w.log == Deliveries(es, i)
    && forall s :: HighestIn(w.recv, s) == LastDelivered(es, i, s)
  }

  /** Over every run with at most eight SSRCs: if each stream is delivered in order
      with gaps below 2^15, whatever else is sent or made up meanwhile, exactly its
      packets are accepted, each under its true index, across any number of wraps. */
  lemma {:induction false} RunInTurn(ws: seq<World>, es: seq<Event>, ssrcs: set<int>, i: int)
    requires Run(ws, es, ssrcs) && |ssrcs| <= MAX_STREAMS && 0 <= i < |ws|
    requires forall k | 0 <= k < |es| :: InTurn(es, k)
    ensures ws[i].log == Deliveries(es, i) && Follows(ws[i], es, i)
  {
    if i > 0 {
      var e := es[i - 1];
      assert Step(ws[i - 1], e, ws[i - 1 + 1]) && e.packet.ssrc in ssrcs && InTurn(es, i - 1);
      RunInTurn(ws, es, ssrcs, i - 1);
      RunSafe(ws, es, ssrcs, i - 1);
      forall k | 0 <= k < i - 1 ensures !LosesTrack(ws[k], es[k]) {
        assert InTurn(es, k);
      }
      RunTracks(ws, es, ssrcs, i - 1);
      if Genuine(e) {
        assert e.tag.value in ws[i - 1].sealed;
        NextAccepted(ws[i - 1], e.packet, e.tag.value.roc, ws[i], ssrcs);
      } else if e.Deliver? {
        MadeUp(ws[i - 1], e, ws[i]);
      }
    }
  }

  // ----- a network that keeps the order and loses nothing -----

  ghost predicate Seals(w: World, e: Event)
  {
    e.Send? && e.room && e.packet.fits && e.crypto.cipher && (w.gcm || e.crypto.mac)
  }

  /** The tags the sender makes in the first i events. */
  ghost function SealedTags(ws: seq<World>, es: seq<Event>, i: int): seq<Tag>
    requires |ws| == |es| + 1 && 0 <= i <= |es|
  {
    if i == 0 then []
    else
      var e, before := es[i - 1], SealedTags(ws, es, i - 1);
      if Seals(ws[i - 1], e) then before + [Mac(e.packet, Estimate(ws[i].sent, e.packet))] else before
  }

  ghost function DeliveredTags(es: seq<Event>, i: int): seq<Tag>
    requires 0 <= i <= |es|
  {
    if i == 0 then []
    else
      var e, before := es[i - 1], DeliveredTags(es, i - 1);
      if Genuine(e) then before + [e.tag.value] else before
  }

  /** The genuine packets delivered are at any time the beginning of what has been
      sealed. */
  ghost predicate Fifo(ws: seq<World>, es: seq<Event>)
    requires |ws| == |es| + 1
  {
    forall i | 0 <= i <= |es| :: DeliveredTags(es, i) <= SealedTags(ws, es, i)
  }

  ghost function LastIndex(tags: seq<Tag>, n: int, ssrc: int): Option<int>
    requires 0 <= n <= |tags|
  {
    if n == 0 then None
    else if tags[n - 1].packet.ssrc == ssrc then Some(IndexOf(tags[n - 1].roc, tags[n - 1].packet.sn))
    else LastIndex(tags, n - 1, ssrc)
  }

  /** Each tag is the next one of its stream. */
  ghost predicate Sessions(tags: seq<Tag>)
  {
    forall n | 0 <= n < |tags| ::
      NextTo(LastIndex(tags, n, tags[n].packet.ssrc), IndexOf(tags[n].roc, tags[n].packet.sn))
  }

  lemma {:induction false} LastIndexPrefix(a: seq<Tag>, b: seq<Tag>, n: int, ssrc: int)
    requires 0 <= n <= |a| && a <= b
    ensures LastIndex(a, n, ssrc) == LastIndex(b, n, ssrc)
  {
    if n > 0 {
      LastIndexPrefix(a, b, n - 1, ssrc);
    }
  }

  lemma SessionsNext(tags: seq<Tag>, t: Tag)
    requires Sessions(tags) && NextTo(LastIndex(tags, |tags|, t.packet.ssrc), IndexOf(t.roc, t.packet.sn))
    ensures Sessions(tags + [t])
    ensures forall s :: LastIndex(tags + [t], |tags| + 1, s) ==
                        if s == t.packet.ssrc then Some(IndexOf(t.roc, t.packet.sn)) else LastIndex(tags, |tags|, s)
  {
    forall n, s | 0 <= n <= |tags| ensures LastIndex(tags + [t], n, s) == LastIndex(tags, n, s) {
      LastIndexPrefix(tags, tags + [t], n, s);
    }
  }

  /** The sender's table and the tags it has made agree. */
  ghost predicate SentLast(w: World, tags: seq<Tag>)
  {
    forall s :: HighestIn(w.sent, s) == LastIndex(tags, |tags|, s)
  }

  lemma SealNext(w: World, e: Event, w': World, ssrcs: set<int>)
    requires Step(w, e, w') && Seals(w, e) && Numbered(w, e) && e.packet.ssrc in ssrcs && |ssrcs| <= MAX_STREAMS
    requires SenderInRange(w) && w.sent.Keys <= ssrcs
    ensures var p := e.packet; var index := IndexOf(Estimate(w'.sent, p), p.sn);
            && NextTo(HighestIn(w.sent, p.ssrc), index)
            && HighestIn(w'.sent, p.ssrc) == Some(index)
            && forall s | s != p.ssrc :: HighestIn(w'.sent, s) == HighestIn(w.sent, s)
  {
    SendOutcome(w.sent, w.sendTick, e.packet, w'.sent, ssrcs);
  }

  /** Packets numbered by their sessions and all sealed are each the next of their
      stream. */
  lemma {:induction false} SealedInTurn(ws: seq<World>, es: seq<Event>, ssrcs: set<int>, i: int)
    requires Run(ws, es, ssrcs) && |ssrcs| <= MAX_STREAMS && 0 <= i < |ws|
    requires forall k | 0 <= k < |es| :: Numbered(ws[k], es[k]) && (es[k].Send? ==> Seals(ws[k], es[k]))
    ensures Sessions(SealedTags(ws, es, i)) && SentLast(ws[i], SealedTags(ws, es, i))
  {
    if i > 0 {
      var w, e := ws[i - 1], es[i - 1];
      assert Step(w, e, ws[i - 1 + 1]) && e.packet.ssrc in ssrcs && Numbered(w, e);
      SealedInTurn(ws, es, ssrcs, i - 1);
      if e.Send? {
        RunSafe(ws, es, ssrcs, i - 1);
        RunUnique(ws, es, ssrcs, i - 1);
        SealNext(w, e, ws[i], ssrcs);
        SessionsNext(SealedTags(ws, es, i - 1), Mac(e.packet, Estimate(ws[i].sent, e.packet)));
      }
    }
  }

  lemma {:induction false} DeliveredLast(es: seq<Event>, i: int, ssrc: int)
    requires 0 <= i <= |es| && forall k | 0 <= k < |es| :: Intact(es[k])
    ensures LastDelivered(es, i, ssrc) == LastIndex(DeliveredTags(es, i), |DeliveredTags(es, i)|, ssrc)
  {
    if i > 0 {
      assert Intact(es[i - 1]);
      DeliveredLast(es, i - 1, ssrc);
      var e, before := es[i - 1], DeliveredTags(es, i - 1);
      if Genuine(e) {
        LastIndexPrefix(before, before + [e.tag.value], |before|, ssrc);
      }
    }
  }

  lemma FifoInTurn(ws: seq<World>, es: seq<Event>, ssrcs: set<int>, k: int)
    requires Run(ws, es, ssrcs) && |ssrcs| <= MAX_STREAMS && 0 <= k < |es| && Fifo(ws, es)
    requires forall k | 0 <= k < |es| :: Numbered(ws[k], es[k]) && (es[k].Send? ==> Seals(ws[k], es[k]))
    requires forall k | 0 <= k < |es| :: Intact(es[k])
    ensures InTurn(es, k)
  {
    var e := es[k];
    if Genuine(e) {
      var sealed, before := SealedTags(ws, es, k), DeliveredTags(es, k);
      var n := |before|;
      assert before <= sealed && DeliveredTags(es, k + 1) <= SealedTags(ws, es, k + 1);
      assert DeliveredTags(es, k + 1) == before + [e.tag.value] && SealedTags(ws, es, k + 1) == sealed;
      assert sealed[n] == e.tag.value;
      SealedInTurn(ws, es, ssrcs, k);
      DeliveredLast(es, k, e.packet.ssrc);
      LastIndexPrefix(before, sealed, n, e.packet.ssrc);
    }
  }

  /** Sessions of at most eight SSRCs through a network that keeps the order and
      loses nothing, with any delay and whatever it makes up besides: exactly the
      packets sealed are accepted when they are delivered, each under the index it
      was sealed with. */
  lemma InOrderAccepted(ws: seq<World>, es: seq<Event>, ssrcs: set<int>, i: int)
    requires Run(ws, es, ssrcs) && |ssrcs| <= MAX_STREAMS && 0 <= i < |ws| && Fifo(ws, es)
    requires forall k | 0 <= k < |es| :: Numbered(ws[k], es[k]) && (es[k].Send? ==> Seals(ws[k], es[k]))
    requires forall k | 0 <= k < |es| :: Intact(es[k])
    ensures ws[i].log == Deliveries(es, i)
  {
    forall k | 0 <= k < |es| ensures InTurn(es, k) {
      FifoInTurn(ws, es, ssrcs, k);
    }
    RunInTurn(ws, es, ssrcs, i);
  }
}
