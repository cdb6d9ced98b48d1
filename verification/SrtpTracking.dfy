/** Rollover tracking of one stream: when the receiver's estimate is the true
    index, which packets it accepts, and how the sender's indices grow. */
module SrtpTracking {
  import opened SrtpReplay
  import opened SrtpStreams
  import opened SrtpIndex
  import opened SrtpContext

  ghost predicate InRange(roc: int, sn: int)
  {
    0 <= roc < ROC_SPACE && 0 <= sn < SEQ_SPACE
  }

  ghost function HighestOf(s: Stream): int
  {
    IndexOf(s.roc, s.lastSeq)
  }

  /** (roc, lastSeq) is the highest index the replay window has accepted. */
  ghost predicate Tracks(s: Stream)
  {
    && InRange(s.roc, s.lastSeq)
    && (s.rocInit <==> s.accepted != {})
    && (s.rocInit ==> HighestOf(s) in s.accepted && forall x | x in s.accepted :: x <= HighestOf(s))
    && (!s.rocInit ==> s.roc == 0 && s.lastSeq == 0)
  }

  /** The true indices a stream can estimate: any of the current epoch not more
      than 2^15 behind, and those of the next epoch less than 2^15 ahead. */
  ghost predicate InReach(s: Stream, index: int)
  {
    if !s.rocInit then index < SEQ_SPACE
    else
      || (index / SEQ_SPACE == s.roc && HighestOf(s) - index <= HALF)
      || (index / SEQ_SPACE == s.roc + 1 && index - HighestOf(s) < HALF)
  }

  /** The estimate is right for exactly the indices in reach. */
  lemma EstimateExact(s: Stream, roc: int, sn: int)
    requires Tracks(s) && InRange(roc, sn) && s.roc + 1 < ROC_SPACE
    ensures RocFor(s, sn) == roc <==> InReach(s, IndexOf(roc, sn))
  {
    assert IndexOf(roc, sn) / SEQ_SPACE == roc;
  }

  /** Whatever the packet, a completed or rejected delivery keeps the counters
      equal to the highest accepted index, and that index never decreases. */
  lemma TrackingKept(s: Stream, p: Packet, s': Stream, ok: bool)
    requires Tracks(s) && 0 <= p.sn < SEQ_SPACE
    requires StreamStep(s, p, RocFor(s, p.sn), true, s', ok)
    ensures Tracks(s')
    ensures s.rocInit ==> s'.rocInit && HighestOf(s') >= HighestOf(s)
    ensures ok ==> IndexOf(RocFor(s, p.sn), p.sn) <= HighestOf(s')
  {
    var roc := RocFor(s, p.sn);
    var index := IndexOf(roc, p.sn);
    assert s.rocInit && Wrapped(p.sn, s.lastSeq) && s.roc == ROC_SPACE - 1 ==> HighestOf(s) - index >= WINDOW_SIZE;
    if Fresh(s.accepted, index) {
      assert s'.accepted == s.accepted + {index};
    }
  }

  /** A delivery whose decryption fails after the window was marked breaks the
      tracking in exactly one case: a fresh index beyond the highest. */
  lemma TrackingLost(s: Stream, p: Packet, s': Stream, ok: bool)
    requires Tracks(s) && 0 <= p.sn < SEQ_SPACE
    requires StreamStep(s, p, RocFor(s, p.sn), false, s', ok)
    ensures Tracks(s') <==> !(Fresh(s.accepted, IndexOf(RocFor(s, p.sn), p.sn))
                              && (s.rocInit ==> IndexOf(RocFor(s, p.sn), p.sn) > HighestOf(s)))
  {
    var index := IndexOf(RocFor(s, p.sn), p.sn);
    if Fresh(s.accepted, index) {
      assert s'.accepted == s.accepted + {index};
      assert index in s'.accepted;
    }
  }

  /** A packet sealed under `roc` and delivered intact is accepted exactly when
      its true index is in reach, unseen, and still inside the window. */
  lemma AcceptedExactly(s: Stream, p: Packet, roc: int, s': Stream, ok: bool)
    requires Tracks(s) && InRange(roc, p.sn) && s.roc + 1 < ROC_SPACE
    requires StreamStep(s, p, RocFor(s, p.sn), true, s', ok)
    ensures RocFor(s, p.sn) == roc && ok <==>
            InReach(s, IndexOf(roc, p.sn)) && Fresh(s.accepted, IndexOf(roc, p.sn))
  {
    EstimateExact(s, roc, p.sn);
  }

  /** The sender's index grows by exactly the distance its sequence number moves
      forward, across the 16-bit wrap. */
  lemma SenderAdvances(s: Stream, d: nat)
    requires s.rocInit && InRange(s.roc, s.lastSeq) && 1 <= d < HALF
    requires HighestOf(s) + d < SEQ_SPACE * ROC_SPACE
    ensures HighestOf(Sent(s, (s.lastSeq + d) % SEQ_SPACE)) == HighestOf(s) + d
    ensures InRange(Sent(s, (s.lastSeq + d) % SEQ_SPACE).roc, (s.lastSeq + d) % SEQ_SPACE)
  {
    if s.lastSeq + d >= SEQ_SPACE {
      assert (s.lastSeq + d) % SEQ_SPACE == s.lastSeq + d - SEQ_SPACE;
      assert s.roc + 1 < ROC_SPACE;
    }
  }

  /** The next packet in order is estimated right, unseen and becomes the highest. */
  lemma NextInOrder(s: Stream, index: int)
    requires Tracks(s) && 0 <= index < SEQ_SPACE * ROC_SPACE
    requires !s.rocInit ==> index < SEQ_SPACE
    requires s.rocInit ==> 0 < index - HighestOf(s) < HALF
    ensures var roc, sn := index / SEQ_SPACE, index % SEQ_SPACE;
            var s' := Received(Marked(s, index), roc, sn);
            RocFor(s, sn) == roc && Fresh(s.accepted, index) && Tracks(s') && HighestOf(s') == index
  {
    var roc, sn := index / SEQ_SPACE, index % SEQ_SPACE;
    assert IndexOf(roc, sn) == index;
    assert Received(Marked(s, index), roc, sn).accepted == s.accepted + {index};
  }
}
