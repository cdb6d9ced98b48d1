/** What a ninth SSRC does to a context of eight streams: a stream that is given up
    forgets its window and its rollover counter. */
module SrtpEviction {
  import opened Collections
  import opened SrtpStreams
  import opened SrtpIndex
  import opened SrtpContext
  import opened SrtpRun

  const SN: int := 40000
  const Works := Crypto(true, true)

  /** One packet of each SSRC. */
  function Only(ssrc: int): Packet
  {
    Packet(ssrc, SN, true, [])
  }

  /** The streams of the SSRCs 0 to n - 1, accessed in turn. */
  ghost function Filled(n: int, accepted: set<int>): Streams
    ensures forall k :: k in Filled(n, accepted) <==> 0 <= k < n
    ensures forall k | 0 <= k < n :: Filled(n, accepted)[k] == Stream(0, SN, true, accepted, k + 1)
    ensures |Filled(n, accepted)| == if n < 0 then 0 else n
  {
    if n <= 0 then map[] else Filled(n - 1, accepted)[n - 1 := Stream(0, SN, true, accepted, n)]
  }

  /** Those a table keeps of up to nine. */
  ghost function Table(n: int, accepted: set<int>): Streams
  {
    if n <= 8 then Filled(n, accepted) else Filled(n, accepted) - {0}
  }

  /** The table once the next SSRC has been accessed. */
  ghost function Accessed(n: int, accepted: set<int>): Streams
  {
    (Filled(n, accepted) - (if n < 8 then {} else {0}))[n := NewStream(n + 1)]
  }

  /** The next SSRC finds a place, the ninth that of the first. */
  lemma NextTouched(n: int, accepted: set<int>)
    requires 0 <= n <= 8
    ensures Touched(Table(n, accepted), n, n + 1, Accessed(n, accepted))
  {
    var m := Filled(n, accepted);
    if n < 8 {
      assert m - {} == m;
    } else {
      assert IsOldest(m, 0);
    }
  }

  lemma NextStepped(n: int, accepted: set<int>)
    requires 0 <= n <= 8
    ensures n in Accessed(n, accepted) && Accessed(n, accepted)[n] == NewStream(n + 1)
    ensures Accessed(n, accepted)[n := Stream(0, SN, true, accepted, n + 1)] == Table(n + 1, accepted)
    ensures n !in Table(n, accepted) && n in Table(n + 1, accepted)
    ensures Table(n + 1, accepted)[n] == Stream(0, SN, true, accepted, n + 1)
  {
    var m, s := Filled(n, accepted), Stream(0, SN, true, accepted, n + 1);
    if n < 8 {
      assert m - {} == m;
      assert m[n := NewStream(n + 1)][n := s] == m[n := s];
    } else {
      assert (m - {0})[n := NewStream(n + 1)][n := s] == m[n := s] - {0};
    }
  }

  // ----- runs -----

  /** A run in which every stream in the table is numbered by its session. */
  ghost predicate NumberedRun(ws: seq<World>, es: seq<Event>, ssrcs: set<int>)
  {
    Run(ws, es, ssrcs) && forall k | 0 <= k < |es| :: Numbered(ws[k], es[k])
  }

  lemma Extended(ws: seq<World>, es: seq<Event>, ssrcs: set<int>, e: Event, w: World)
    requires NumberedRun(ws, es, ssrcs) && Step(ws[|es|], e, w) && Numbered(ws[|es|], e) && e.packet.ssrc in ssrcs
    ensures NumberedRun(ws + [w], es + [e], ssrcs)
  {
    var ws', es' := ws + [w], es + [e];
    forall k | 0 <= k < |es'|
      ensures Step(ws'[k], es'[k], ws'[k + 1]) && es'[k].packet.ssrc in ssrcs && Numbered(ws'[k], es'[k])
    {
      if k < |es| {
        assert Step(ws[k], es[k], ws[k + 1]) && Numbered(ws[k], es[k]);
      }
    }
  }

  /** A packet of a new stream is sealed under counter 0. */
  lemma SendsNew(w: World, p: Packet, t: Streams, w': World)
    requires w.gcm && p.fits && 0 <= p.sn < SEQ_SPACE && Touched(w.sent, p.ssrc, w.sendTick + 1, t)
    requires p.ssrc in t && t[p.ssrc] == NewStream(w.sendTick + 1)
    requires w' == w.(sent := t[p.ssrc := Stream(0, p.sn, true, {}, w.sendTick + 1)],
                      sendTick := w.sendTick + 1, sealed := w.sealed + {Mac(p, 0)})
    ensures Step(w, Send(p, true, Works), w')
  {
    SendsBy(w.sent, w.sendTick, p, t, w'.sent);
  }

  /** And accepted, whatever was accepted before. */
  lemma AcceptsNew(w: World, p: Packet, t: Streams, w': World)
    requires w.gcm && p.fits && 0 <= p.sn < SEQ_SPACE && p.ssrc !in w.recv && Mac(p, 0) in w.sealed
    requires Touched(w.recv, p.ssrc, w.recvTick + 1, t) && p.ssrc in t && t[p.ssrc] == NewStream(w.recvTick + 1)
    requires w' == w.(recv := t[p.ssrc := Stream(0, p.sn, true, {p.sn}, w.recvTick + 1)],
                      recvTick := w.recvTick + 1, log := w.log + [(p, p.sn)])
    ensures Step(w, Deliver(p, Some(Mac(p, 0)), Works), w')
  {
    assert {} + {p.sn} == {p.sn};
    VerifiedBy(w.recv, w.recvTick, p, 0, true, t, w'.recv[p.ssrc], true);
    assert ReceiveStep(w.gcm, w.recv, w.recvTick, p, Some(Mac(p, 0)), Works, w'.recv, true);
  }

  /** What an access to the next SSRC makes of the table, and what its stream then
      becomes. */
  lemma Access(n: int, accepted: set<int>, m: Streams, m': Streams) returns (t: Streams)
    requires 0 <= n <= 8 && m == Table(n, accepted) && m' == Table(n + 1, accepted)
    ensures Touched(m, n, n + 1, t) && n in t && t[n] == NewStream(n + 1) && n !in m
    ensures m' == t[n := Stream(0, SN, true, accepted, n + 1)]
  {
    t := Accessed(n, accepted);
    NextTouched(n, accepted);
    NextStepped(n, accepted);
  }

  /** With the ninth SSRC in the table the first comes back as a new one. */
  lemma FirstTouched(all: int, accepted: set<int>, t: Streams)
    requires all == 9 && t == (Table(all, accepted) - {1})[0 := NewStream(all + 1)]
    ensures 0 !in Table(all, accepted) && Touched(Table(all, accepted), 0, all + 1, t)
  {
    var m := Table(all, accepted);
    assert Filled(all, accepted) == m[0 := Filled(all, accepted)[0]];
    assert |m| == 8 && IsOldest(m, 1);
  }

  /** The packets of the first n SSRCs have been sealed, and nothing else has
      happened. */
  ghost predicate Sending(w: World, n: int)
  {
    && w.gcm && w.sent == Table(n, {}) && w.sendTick == n && w.recv == map[] && w.recvTick == 0 && w.log == []
    && forall k | 0 <= k < n :: Mac(Only(k), 0) in w.sealed
  }

  lemma SendsOne(w: World, n: int) returns (w': World)
    requires 0 <= n <= 8 && Sending(w, n)
    ensures Step(w, Send(Only(n), true, Works), w') && Numbered(w, Send(Only(n), true, Works)) && Sending(w', n + 1)
  {
    var m' := Table(n + 1, {});
    var t := Access(n, {}, w.sent, m');
    w' := w.(sent := m', sendTick := n + 1, sealed := w.sealed + {Mac(Only(n), 0)});
    SendsNew(w, Only(n), t, w');
  }

  lemma {:induction false} RunSending(n: int, ssrcs: set<int>) returns (ws: seq<World>, es: seq<Event>)
    requires 0 <= n <= 9 && forall k | 0 <= k < n :: k in ssrcs
    ensures NumberedRun(ws, es, ssrcs) && Sending(ws[|es|], n)
  {
    if n == 0 {
      ws, es := [World(true, map[], 0, {}, map[], 0, [])], [];
    } else {
      ws, es := RunSending(n - 1, ssrcs);
      var w := SendsOne(ws[|es|], n - 1);
      Extended(ws, es, ssrcs, Send(Only(n - 1), true, Works), w);
      ws, es := ws + [w], es + [Send(Only(n - 1), true, Works)];
    }
  }

  // ----- the receiver -----

  /** The packets of all SSRCs have been sealed and the first n accepted. */
  ghost predicate Receiving(w: World, all: int, n: int)
  {
    && w.gcm && w.recv == Table(n, {SN}) && w.recvTick == n && |w.log| == n
    && (n > 0 ==> w.log[0] == (Only(0), SN))
    && forall k | 0 <= k < all :: Mac(Only(k), 0) in w.sealed
  }

  lemma ReceivesOne(w: World, all: int, n: int) returns (w': World)
    requires 0 <= n <= 8 && n < all && Receiving(w, all, n)
    ensures Step(w, Deliver(Only(n), Some(Mac(Only(n), 0)), Works), w') && Receiving(w', all, n + 1)
  {
    var m' := Table(n + 1, {SN});
    var t := Access(n, {SN}, w.recv, m');
    w' := w.(recv := m', recvTick := n + 1, log := w.log + [(Only(n), SN)]);
    AcceptsNew(w, Only(n), t, w');
  }

  lemma {:induction false} RunReceiving(all: int, n: int, ssrcs: set<int>) returns (ws: seq<World>, es: seq<Event>)
    requires 0 <= n <= all <= 9 && forall k | 0 <= k < all :: k in ssrcs
    ensures NumberedRun(ws, es, ssrcs) && Receiving(ws[|es|], all, n)
    decreases n
  {
    if n == 0 {
      ws, es := RunSending(all, ssrcs);
    } else {
      ws, es := RunReceiving(all, n - 1, ssrcs);
      var w := ReceivesOne(ws[|es|], all, n - 1);
      Extended(ws, es, ssrcs, Deliver(Only(n - 1), Some(Mac(Only(n - 1), 0)), Works), w);
      ws, es := ws + [w], es + [Deliver(Only(n - 1), Some(Mac(Only(n - 1), 0)), Works)];
    }
  }

  /** The first packet again: its stream was given up, so nothing remembers it. */
  lemma ReceivesAgain(w: World, all: int) returns (w': World)
    requires all == 9 && Receiving(w, all, all)
    ensures Step(w, Deliver(Only(0), Some(Mac(Only(0), 0)), Works), w') && !NoReplay(w')
  {
    var t := (Table(all, {SN}) - {1})[0 := NewStream(all + 1)];
    FirstTouched(all, {SN}, t);
    w' := w.(recv := t[0 := Stream(0, SN, true, {SN}, all + 1)], recvTick := all + 1,
             log := w.log + [(Only(0), SN)]);
    AcceptsNew(w, Only(0), t, w');
    assert w'.log[0] == w'.log[all] == (Only(0), SN);
  }

  lemma Replayed(all: int, ssrcs: set<int>) returns (ws: seq<World>, es: seq<Event>)
    requires all == 9 && forall k | 0 <= k < all :: k in ssrcs
    ensures NumberedRun(ws, es, ssrcs) && !NoReplay(ws[|es|])
  {
    ws, es := RunReceiving(all, all, ssrcs);
    var last := ReceivesAgain(ws[|es|], all);
    var e := Deliver(Only(0), Some(Mac(Only(0), 0)), Works);
    Extended(ws, es, ssrcs, e, last);
    ws, es := ws + [last], es + [e];
  }

  /** With nine SSRCs a packet delivered twice is accepted twice. */
  lemma NinthReplays() returns (ws: seq<World>, es: seq<Event>, ssrcs: set<int>)
    ensures NumberedRun(ws, es, ssrcs) && |ssrcs| == MAX_STREAMS + 1 && !NoReplay(ws[|es|])
  {
    ssrcs := {0, 1, 2, 3, 4, 5, 6, 7, 8};
    ws, es := Replayed(9, ssrcs);
  }

  // ----- the sender -----

  /** SSRC 0 was numbered last with sn, under counter 0. */
  ghost predicate At(w: World, sn: int)
  {
    && w.gcm && 0 in w.sent && w.sent[0].roc == 0 && w.sent[0].rocInit && w.sent[0].lastSeq == sn
  }

  lemma SendsMore(w: World, sn: int, p: Packet) returns (w': World)
    requires At(w, sn) && p.fits && p.ssrc == 0 && 0 <= sn <= p.sn < SEQ_SPACE
    ensures Step(w, Send(p, true, Works), w') && At(w', p.sn) && w'.sealed == w.sealed + {Mac(p, 0)}
  {
    var now := w.sendTick + 1;
    var t := w.sent[0 := w.sent[0].(used := now)];
    assert Touched(w.sent, 0, now, t);
    w' := w.(sent := t[0 := Sent(t[0], p.sn)], sendTick := now, sealed := w.sealed + {Mac(p, 0)});
    SendsBy(w.sent, w.sendTick, p, t, w'.sent);
  }

  /** A run goes on with the next packet of SSRC 0, d numbers ahead. */
  lemma RunsOn(ws: seq<World>, es: seq<Event>, ssrcs: set<int>, sn: int, p: Packet, d: int)
    returns (ws': seq<World>, es': seq<Event>)
    requires NumberedRun(ws, es, ssrcs) && 0 in ssrcs && At(ws[|es|], sn) && 0 <= sn
    requires p.fits && p.ssrc == 0 && p.sn == sn + d < SEQ_SPACE && 1 <= d < HALF
    ensures NumberedRun(ws', es', ssrcs) && At(ws'[|es'|], p.sn)
    ensures ws'[|es'|].sealed == ws[|es|].sealed + {Mac(p, 0)}
  {
    var w := ws[|es|];
    var w' := SendsMore(w, sn, p);
    assert Forward(w.sent[0], p.sn, d);
    Extended(ws, es, ssrcs, Send(p, true, Works), w');
    ws', es' := ws + [w'], es + [Send(p, true, Works)];
  }

  /** The stream of SSRC 0 begins anew. */
  lemma BeginsAnew(all: int, ssrcs: set<int>, p: Packet) returns (ws: seq<World>, es: seq<Event>)
    requires all == 9 && (forall k | 0 <= k < all :: k in ssrcs) && p.fits && p.ssrc == 0 && 0 <= p.sn < SEQ_SPACE
    ensures NumberedRun(ws, es, ssrcs) && At(ws[|es|], p.sn) && Mac(Only(0), 0) in ws[|es|].sealed
  {
    ws, es := RunSending(all, ssrcs);
    var w0, t := ws[|es|], (Table(all, {}) - {1})[0 := NewStream(all + 1)];
    FirstTouched(all, {}, t);
    var w := w0.(sent := t[0 := Stream(0, p.sn, true, {}, all + 1)], sendTick := all + 1,
                 sealed := w0.sealed + {Mac(p, 0)});
    SendsNew(w0, p, t, w);
    Extended(ws, es, ssrcs, Send(p, true, Works), w);
    ws, es := ws + [w], es + [Send(p, true, Works)];
  }

  lemma Resealed(all: int, ssrcs: set<int>) returns (ws: seq<World>, es: seq<Event>)
    requires all == 9 && forall k | 0 <= k < all :: k in ssrcs
    ensures NumberedRun(ws, es, ssrcs) && !UniqueIndices(ws[|es|])
  {
    var again := Packet(0, SN, true, [1]);
    ws, es := BeginsAnew(all, ssrcs, Packet(0, 6464, true, []));
    ws, es := RunsOn(ws, es, ssrcs, 6464, Packet(0, 38464, true, []), 32000);
    ws, es := RunsOn(ws, es, ssrcs, 38464, again, 1536);
    assert Mac(Only(0), 0) in ws[|es|].sealed && Mac(again, 0) in ws[|es|].sealed;
  }

  /** With nine SSRCs, all of whose packets go forward, two packets are sealed under
      the same counter and sequence number: 40000, then past the wrap 6464, 38464
      and 40000 again, while the stream was given up in between. */
  lemma NinthReseals() returns (ws: seq<World>, es: seq<Event>, ssrcs: set<int>)
    ensures NumberedRun(ws, es, ssrcs) && |ssrcs| == MAX_STREAMS + 1 && !UniqueIndices(ws[|es|])
  {
    ssrcs := {0, 1, 2, 3, 4, 5, 6, 7, 8};
    ws, es := Resealed(9, ssrcs);
  }
}
