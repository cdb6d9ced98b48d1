/** Sequence numbers, rollover counters and packet indices (section 3.3.1 of
    RFC 3711): what one packet does to the stream it belongs to. */
module SrtpIndex {
  import opened SrtpStreams

  const SEQ_SPACE: nat := 0x1_0000
  const ROC_SPACE: nat := 0x1_0000_0000
  const HALF: nat := 0x8000

  function IndexOf(roc: int, sn: int): int
  {
    roc * SEQ_SPACE + sn
  }

  /** The test by which both sides conclude that the sequence number has wrapped. */
  predicate Wrapped(sn: int, last: int)
  {
    sn < last && last - sn > HALF
  }

  /** The rollover counter that `s` assigns to a packet numbered sn. */
  function RocFor(s: Stream, sn: int): int
  {
    if s.rocInit && Wrapped(sn, s.lastSeq) then (s.roc + 1) % ROC_SPACE else s.roc
  }

  /** The sender's stream after protecting sn. */
  function Sent(s: Stream, sn: int): Stream
  {
    s.(roc := RocFor(s, sn), lastSeq := sn, rocInit := true)
  }

  /** The receiver's stream after accepting sn under roc. */
  function Received(s: Stream, roc: int, sn: int): Stream
  {
    if !s.rocInit || sn > s.lastSeq || s.lastSeq - sn > HALF
    then s.(roc := roc, lastSeq := sn, rocInit := true) else s
  }

  function Marked(s: Stream, index: int): Stream
  {
    s.(accepted := s.accepted + {index})
  }
}
