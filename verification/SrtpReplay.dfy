/** The 128-packet replay window of an SRTP stream (section 3.3.2 of RFC 3711):
    two 64-bit words, bit k standing for the index `highest - k`.  The window is
    related to the set of all indices the stream has ever accepted. */
module SrtpReplay {
  import opened Words

  const WINDOW_SIZE: nat := 128

  /** `rtc_srtp_replay_t`; the words window[0] and window[1] are `low` and `high`. */
  datatype Replay = Replay(initialized: bool, highest: int, low: nat, high: nat)

  const ZERO := Replay(false, 0, 0, 0)

  predicate WindowBit(r: Replay, k: nat)
  {
    if k < 64 then Bit(r.low, k) else Bit(r.high, k - 64)
  }

  /** The window stands for the whole history `accepted` of the stream. */
  ghost predicate Represents(r: Replay, accepted: set<int>)
  {
    && r.low < TWO_64 && r.high < TWO_64
    && (r.initialized <==> accepted != {})
    && (r.initialized ==>
          && r.highest in accepted
          && (forall x | x in accepted :: x <= r.highest)
          && forall k | 0 <= k < WINDOW_SIZE :: WindowBit(r, k) <==> r.highest - k in accepted)
  }

  /** What section 3.3.2 of RFC 3711 asks of a packet index: never accepted
      before, and not so old that it has left the window. */
  ghost predicate Fresh(accepted: set<int>, index: int)
  {
    index !in accepted && forall x | x in accepted :: x - index < WINDOW_SIZE
  }

  /** What a shift by delta, bit 0 set for the new highest index, has to do to bit k. */
  ghost predicate BitAdvanced(r: Replay, r': Replay, delta: nat, k: nat)
  {
    WindowBit(r', k) <==> k == 0 || (k >= delta && WindowBit(r, k - delta))
  }

  /** The branch of `srtp_replay_check` for an index above the highest. */
  method Advance(r: Replay, delta: nat, index: int) returns (r': Replay)
    requires r.low < TWO_64 && r.high < TWO_64
    requires delta > 0
    ensures r'.initialized == r.initialized && r'.highest == index
    ensures r'.low < TWO_64 && r'.high < TWO_64
    ensures forall k | 0 <= k < WINDOW_SIZE :: BitAdvanced(r, r', delta, k)
  {
    var low, high;
    if delta >= WINDOW_SIZE {
      low, high := 1, 0;
    } else if delta >= 64 {
      high := Shl(r.low, delta - 64);
      low := Or(0, 1);
    } else {
      high := Or(Shl(r.high, delta), Shr(r.low, 64 - delta));
      low := Or(Shl(r.low, delta), 1);
    }
    r' := Replay(r.initialized, index, low, high);
    ghost var d := delta;
    AdvancedBounds(r, delta);
    forall k | 0 <= k < WINDOW_SIZE ensures BitAdvanced(r, r', d, k) {
      if d >= WINDOW_SIZE {
        NewWindowBit(r', k);
      } else if d >= 64 {
        JumpedBit(r, d, k);
      } else if k < 64 {
        ShiftedLowBit(r, d, k);
      } else {
        ShiftedHighBit(r, d, k);
      }
    }
  }

  lemma NewWindowBit(r: Replay, k: nat)
    requires r.low == 1 && r.high == 0
    ensures WindowBit(r, k) <==> k == 0
  {
    if k < 64 {
      BitOfMask(0, k);
    } else {
      BitOfZero(k - 64);
    }
  }

  lemma AdvancedBounds(r: Replay, delta: nat)
    requires r.low < TWO_64 && r.high < TWO_64
    ensures Shl(r.low, delta) < TWO_64 && Shl(r.high, delta) < TWO_64
    ensures Or(Shl(r.low, delta), 1) < TWO_64
    ensures Or(0, 1) == 1
    ensures delta >= 64 ==> Shl(r.low, delta - 64) < TWO_64
    ensures delta < 64 ==> Or(Shl(r.high, delta), Shr(r.low, 64 - delta)) < TWO_64
  {
    Pow2Constants();
    OrBound(Shl(r.low, delta), 1, 64);
    if delta < 64 {
      ShrBound(r.low, 64 - delta);
      OrBound(Shl(r.high, delta), Shr(r.low, 64 - delta), 64);
    }
  }

  lemma JumpedBit(r: Replay, delta: nat, k: nat)
    requires r.low < TWO_64 && 64 <= delta < WINDOW_SIZE && k < WINDOW_SIZE
    ensures BitAdvanced(r, Replay(r.initialized, 0, 1, Shl(r.low, delta - 64)), delta, k)
  {
    if k < 64 {
      BitOfMask(0, k);
    } else {
      BitOfShl(r.low, delta - 64, k - 64);
    }
  }

  lemma ShiftedLowBit(r: Replay, delta: nat, k: nat)
    requires k < 64
    ensures Bit(Or(Shl(r.low, delta), 1), k) <==> k == 0 || (k >= delta && Bit(r.low, k - delta))
  {
    BitOfOr(Shl(r.low, delta), 1, k);
    BitOfShl(r.low, delta, k);
    BitOfMask(0, k);
  }

  lemma ShiftedHighBit(r: Replay, delta: nat, k: nat)
    requires r.low < TWO_64 && 0 < delta < 64 && 64 <= k < WINDOW_SIZE
    ensures Bit(Or(Shl(r.high, delta), Shr(r.low, 64 - delta)), k - 64) <==> WindowBit(r, k - delta)
  {
    BitOfOr(Shl(r.high, delta), Shr(r.low, 64 - delta), k - 64);
    BitOfShl(r.high, delta, k - 64);
    BitOfShr(r.low, 64 - delta, k - 64);
    if k - delta >= 64 {
      Pow2Constants();
      BitBeyond(r.low, 64, k - delta);
    }
  }

  /** `srtp_replay_check`: decides freshness exactly, and records the index. */
  method ReplayCheck(r: Replay, index: int, ghost accepted: set<int>) returns (ok: bool, r': Replay)
    requires Represents(r, accepted)
    ensures ok <==> Fresh(accepted, index)
    ensures ok ==> Represents(r', accepted + {index})
    ensures !ok ==> r' == r
  {
    r' := r;
    if !r.initialized {
      r' := Replay(true, index, 1, 0);
      forall k | 0 <= k < WINDOW_SIZE ensures WindowBit(r', k) <==> index - k in {index} {
        NewWindowBit(r', k);
      }
      assert accepted + {index} == {index};
      return true, r';
    }
    if index > r.highest {
      r' := Advance(r, index - r.highest, index);
      forall k | 0 <= k < WINDOW_SIZE
        ensures WindowBit(r', k) <==> index - k in accepted + {index}
      {
        var d := index - r.highest;
        assert BitAdvanced(r, r', d, k);
        if k >= d { assert index - k == r.highest - (k - d); }
      }
      return true, r';
    }
    var delta := r.highest - index;
    if delta >= WINDOW_SIZE {
      return false, r;
    }
    assert WindowBit(r, delta) <==> r.highest - delta in accepted;
    var mask := Pow2(delta % 64);
    if WindowBit(r, delta) {
      return false, r;
    }
    r' := if delta < 64 then r.(low := Or(r.low, mask)) else r.(high := Or(r.high, mask));
    MarkedBits(r, r', delta);
    return true, r';
  }

  lemma MarkedBits(r: Replay, r': Replay, delta: nat)
    requires r.low < TWO_64 && r.high < TWO_64 && delta < WINDOW_SIZE
    requires r' == if delta < 64 then r.(low := Or(r.low, Pow2(delta % 64)))
                   else r.(high := Or(r.high, Pow2(delta % 64)))
    ensures r'.low < TWO_64 && r'.high < TWO_64
    ensures forall k | 0 <= k < WINDOW_SIZE :: WindowBit(r', k) <==> k == delta || WindowBit(r, k)
  {
    var word := if delta < 64 then r.low else r.high;
    MarkedBound(word, delta % 64);
    forall k | 0 <= k < WINDOW_SIZE
      ensures WindowBit(r', k) <==> k == delta || WindowBit(r, k)
    {
      MarkedBit(word, delta % 64, k % 64);
    }
  }

  lemma MarkedBound(word: nat, j: nat)
    requires word < TWO_64 && j < 64
    ensures Or(word, Pow2(j)) < TWO_64
  {
    Pow2Constants();
    Pow2Less(j, 64);
    OrBound(word, Pow2(j), 64);
  }

  lemma MarkedBit(word: nat, j: nat, k: nat)
    ensures Bit(Or(word, Pow2(j)), k) <==> j == k || Bit(word, k)
  {
    BitOfOr(word, Pow2(j), k);
    BitOfMask(j, k);
  }
}
