/** The table of per-SSRC streams of an SRTP context: eight slots, evicting the
    least recently used stream when a ninth SSRC turns up.  Its meaning is a map
    from SSRC to stream. */
module SrtpStreams {
  import opened Collections
  import opened SrtpReplay

  const MAX_STREAMS: nat := 8

  /** `rtc_srtp_replay_entry_t` */
  datatype Entry = Entry(ssrc: int, inUse: bool, lruTick: int,
                         roc: int, lastSeq: int, rocInit: bool, replay: Replay)

  const Used: Entry -> bool := (e: Entry) => e.inUse

  const UNUSED := Entry(0, false, 0, 0, 0, false, ZERO)

  /** What an entry stands for: the window is replaced by the history it
      represents, and `used` is the time of the last access. */
  datatype Stream = Stream(roc: int, lastSeq: int, rocInit: bool, accepted: set<int>, used: int)

  type Streams = map<int, Stream>

  function NewStream(now: int): Stream
  {
    Stream(0, 0, false, {}, now)
  }

  /** The stream whose last access is the longest ago. */
  ghost predicate IsOldest(m: Streams, ssrc: int)
  {
    ssrc in m && forall x | x in m && x != ssrc :: m[ssrc].used < m[x].used
  }

  /** What an access to `ssrc` at time `now` does: a known stream is kept, a new
      one starts from nothing, and a full table gives up its oldest stream. */
  ghost predicate Touched(m: Streams, ssrc: int, now: int, m': Streams)
  {
    if ssrc in m then
      m' == m[ssrc := m[ssrc].(used := now)]
    else if |m| < MAX_STREAMS then
      m' == m[ssrc := NewStream(now)]
    else
      exists victim :: IsOldest(m, victim) && m' == (m - {victim})[ssrc := NewStream(now)]
  }

  ghost predicate Matches(e: Entry, s: Stream)
  {
    && e.roc == s.roc && e.lastSeq == s.lastSeq && e.rocInit == s.rocInit && e.lruTick == s.used
    && Represents(e.replay, s.accepted)
  }

  /** `slots` lists the used entries by SSRC, one to one. */
  ghost predicate Placed(entries: seq<Entry>, slots: map<int, int>)
  {
    && |entries| == MAX_STREAMS
    && (forall s | s in slots :: 0 <= slots[s] < MAX_STREAMS && entries[slots[s]].inUse && entries[slots[s]].ssrc == s)
    && (forall i | 0 <= i < MAX_STREAMS && entries[i].inUse ::
          entries[i].ssrc in slots && slots[entries[i].ssrc] == i)
  }

  /** Access times never repeat and lie in the past. */
  ghost predicate Timed(m: Streams, now: int)
  {
    && (forall s | s in m :: m[s].used <= now)
    && (forall s {:trigger UsedAlone(m, s)} | s in m :: UsedAlone(m, s))
  }

  /** No other stream was last used when s was. */
  ghost predicate UsedAlone(m: Streams, s: int)
    requires s in m
  {
    forall t | t in m && t != s :: m[t].used != m[s].used
  }

  /** One stream is used now, the others were before, as the table says. */
  lemma TimedNext(m: Streams, m': Streams, now: int, x: int)
    requires Timed(m, now) && x in m' && m'[x].used == now + 1
    requires forall s | s in m' && s != x :: s in m && m'[s].used == m[s].used
    ensures Timed(m', now + 1)
  {
    forall s | s in m' ensures UsedAlone(m', s) {
      if s != x {
        assert UsedAlone(m, s);
      }
    }
  }

  lemma TimedSame(m: Streams, m': Streams, now: int)
    requires Timed(m, now) && m'.Keys == m.Keys && forall s | s in m' :: m'[s].used == m[s].used
    ensures Timed(m', now)
  {
    forall s | s in m' ensures UsedAlone(m', s) {
      assert UsedAlone(m, s);
    }
  }

  ghost predicate Holds(entries: seq<Entry>, slots: map<int, int>, m: Streams, now: int)
  {
    && Placed(entries, slots)
    && slots.Keys == m.Keys && |m| == Count(entries, Used)
    && (forall s | s in slots :: Matches(entries[slots[s]], m[s]))
    && Timed(m, now)
  }

  /** A free entry, or else the one that was used the longest ago. */
  ghost predicate Replaceable(entries: seq<Entry>, i: nat)
  {
    i < |entries| && (entries[i].inUse ==>
      forall j | 0 <= j < |entries| :: entries[j].inUse && entries[i].lruTick <= entries[j].lruTick)
  }

  /** Overwriting entry i puts a new SSRC there and drops the one that was there. */
  lemma PlacedAfter(entries: seq<Entry>, slots: map<int, int>, i: nat, e: Entry)
    requires Placed(entries, slots) && i < MAX_STREAMS && e.inUse && e.ssrc !in slots
    ensures Placed(entries[i := e], (slots - Occupant(entries, i))[e.ssrc := i])
  {
    var dropped := slots - Occupant(entries, i);
    forall s | s in dropped ensures slots[s] != i {
      assert entries[slots[s]].ssrc == s;
    }
  }

  ghost function Occupant(entries: seq<Entry>, i: nat): set<int>
    requires i < |entries|
  {
    if entries[i].inUse then {entries[i].ssrc} else {}
  }

  lemma MatchesAfter(entries: seq<Entry>, slots: map<int, int>, m: Streams, i: nat, e: Entry)
    requires Placed(entries, slots) && i < MAX_STREAMS && e.ssrc !in slots && slots.Keys == m.Keys
    requires e.roc == e.lastSeq == 0 && !e.rocInit && e.replay == ZERO
    requires forall s | s in slots :: Matches(entries[slots[s]], m[s])
    ensures var slots', m' := (slots - Occupant(entries, i))[e.ssrc := i],
                              (m - Occupant(entries, i))[e.ssrc := NewStream(e.lruTick)];
            forall s | s in slots' :: s in m' && 0 <= slots'[s] < MAX_STREAMS
              && Matches(entries[i := e][slots'[s]], m'[s])
  {
    forall s | s in slots - Occupant(entries, i) ensures slots[s] != i {
      assert entries[slots[s]].ssrc == s;
    }
  }

  lemma TouchedAfter(entries: seq<Entry>, slots: map<int, int>, m: Streams, i: nat, ssrc: int, now: int, m': Streams)
    requires Holds(entries, slots, m, now) && Replaceable(entries, i) && ssrc !in m
    requires m' == (m - Occupant(entries, i))[ssrc := NewStream(now + 1)]
    ensures Touched(m, ssrc, now + 1, m') && Timed(m', now + 1)
    ensures |m'| == if entries[i].inUse then |m| else |m| + 1
  {
    CountAll(entries, Used);
    if entries[i].inUse {
      SwapSize(m, entries[i].ssrc, ssrc, NewStream(now + 1));
      Oldest(entries, slots, m, i, now);
    } else {
      assert m - {} == m;
    }
    TimedNext(m, m', now, ssrc);
  }

  /** The entry that was used the longest ago holds the oldest stream. */
  lemma Oldest(entries: seq<Entry>, slots: map<int, int>, m: Streams, i: nat, now: int)
    requires Holds(entries, slots, m, now) && Replaceable(entries, i) && entries[i].inUse
    ensures IsOldest(m, entries[i].ssrc)
  {
    var v := entries[i].ssrc;
    assert UsedAlone(m, v) && Matches(entries[slots[v]], m[v]);
    forall x | x in m && x != v ensures m[v].used < m[x].used {
      assert Matches(entries[slots[x]], m[x]);
    }
  }

  lemma SwapSize(m: Streams, gone: int, ssrc: int, s: Stream)
    requires gone in m && ssrc !in m
    ensures |(m - {gone})[ssrc := s]| == |m|
  {
    assert (m - {gone}).Keys + {gone} == m.Keys;
  }

  lemma HoldsAfterReplace(entries: seq<Entry>, slots: map<int, int>, m: Streams, i: nat, ssrc: int, now: int,
                          entries': seq<Entry>, slots': map<int, int>, m': Streams)
    requires Holds(entries, slots, m, now) && Replaceable(entries, i) && ssrc !in m
    requires entries' == entries[i := UNUSED.(ssrc := ssrc, inUse := true, lruTick := now + 1)]
    requires slots' == (slots - Occupant(entries, i))[ssrc := i]
    requires m' == (m - Occupant(entries, i))[ssrc := NewStream(now + 1)]
    ensures Holds(entries', slots', m', now + 1) && Touched(m, ssrc, now + 1, m')
  {
    TouchedAfter(entries, slots, m, i, ssrc, now, m');
    HoldsReplaced(entries, slots, m, i, UNUSED.(ssrc := ssrc, inUse := true, lruTick := now + 1), slots', m');
  }

  lemma HoldsReplaced(entries: seq<Entry>, slots: map<int, int>, m: Streams, i: nat, e: Entry,
                      slots': map<int, int>, m': Streams)
    requires Placed(entries, slots) && slots.Keys == m.Keys && |m| == Count(entries, Used) && i < MAX_STREAMS
    requires forall s | s in slots :: Matches(entries[slots[s]], m[s])
    requires e == UNUSED.(ssrc := e.ssrc, inUse := true, lruTick := e.lruTick) && e.ssrc !in m
    requires slots' == (slots - Occupant(entries, i))[e.ssrc := i]
    requires m' == (m - Occupant(entries, i))[e.ssrc := NewStream(e.lruTick)]
    requires |m'| == (if entries[i].inUse then |m| else |m| + 1) && Timed(m', e.lruTick)
    ensures Holds(entries[i := e], slots', m', e.lruTick)
  {
    PlacedAfter(entries, slots, i, e);
    MatchesAfter(entries, slots, m, i, e);
    CountAfter(entries, |m|, i, e, |m'|);
    assert slots'.Keys == m'.Keys;
  }

  lemma CountAfter(entries: seq<Entry>, n: int, i: nat, e: Entry, n': int)
    requires i < |entries| && n == Count(entries, Used) && e.inUse && n' == if entries[i].inUse then n else n + 1
    ensures n' == Count(entries[i := e], Used)
  {
    CountUpdate(entries, Used, i, e);
  }

  lemma TimedAfter(m: Streams, ssrc: int, now: int)
    requires Timed(m, now) && ssrc in m
    ensures Timed(m[ssrc := m[ssrc].(used := now + 1)], now + 1)
  {
    TimedNext(m, m[ssrc := m[ssrc].(used := now + 1)], now, ssrc);
  }

  lemma HoldsAfterPromote(entries: seq<Entry>, slots: map<int, int>, m: Streams, i: nat, now: int,
                          entries': seq<Entry>, m': Streams)
    requires Holds(entries, slots, m, now) && i < MAX_STREAMS && entries[i].inUse
    requires entries' == entries[i := entries[i].(lruTick := now + 1)]
    requires m' == m[entries[i].ssrc := m[entries[i].ssrc].(used := now + 1)]
    ensures Holds(entries', slots, m', now + 1) && Touched(m, entries[i].ssrc, now + 1, m')
  {
    CountUpdate(entries, Used, i, entries[i].(lruTick := now + 1));
    assert m'.Keys == m.Keys;
    TimedAfter(m, entries[i].ssrc, now);
    forall s | s in slots ensures Matches(entries'[slots[s]], m'[s]) {
      assert Matches(entries[slots[s]], m[s]) && entries[slots[s]].ssrc == s;
    }
  }

  /** An entry updated together with the stream it stands for. */
  lemma HoldsAfterUpdate(entries: seq<Entry>, slots: map<int, int>, m: Streams, ssrc: int, now: int,
                         entries': seq<Entry>, m': Streams)
    requires Holds(entries, slots, m, now) && ssrc in slots
    requires |entries'| == |entries| && entries' == entries[slots[ssrc] := entries'[slots[ssrc]]]
    requires entries'[slots[ssrc]].inUse && entries'[slots[ssrc]].ssrc == ssrc
    requires ssrc in m' && m' == m[ssrc := m'[ssrc]] && m'[ssrc].used == m[ssrc].used
    requires Matches(entries'[slots[ssrc]], m'[ssrc])
    ensures Holds(entries', slots, m', now)
  {
    TimedSame(m, m', now);
    CountUpdate(entries, Used, slots[ssrc], entries'[slots[ssrc]]);
    assert m'.Keys == m.Keys;
    forall s | s in slots ensures Matches(entries'[slots[s]], m'[s]) {
      assert Matches(entries[slots[s]], m[s]) && entries[slots[s]].ssrc == s;
    }
  }

  class StreamTable {
    const entries: array<Entry>
    ghost var slots: map<int, int>
    ghost var streams: Streams

    ghost predicate Valid(now: int)
      reads this, entries
    {
      && entries.Length == MAX_STREAMS
      && Holds(entries[..], slots, streams, now)
    }

    constructor ()
      ensures Valid(0) && streams == map[] && fresh(entries)
    {
      entries := new Entry[MAX_STREAMS](_ => UNUSED);
      slots, streams := map[], map[];
      new;
      CountNone(entries[..], Used);
    }

    /** `srtp_find_ssrc`: a lookup that leaves the table alone. */
    method FindSsrc(ssrc: int, ghost now: int) returns (i: int)
      requires Valid(now)
      ensures -1 <= i < MAX_STREAMS
      ensures i == -1 <==> ssrc !in streams
      ensures i >= 0 ==> Matches(entries[i], streams[ssrc])
    {
      i := 0;
      while i < entries.Length
        invariant 0 <= i <= entries.Length
        invariant forall j | 0 <= j < i :: !(entries[j].inUse && entries[j].ssrc == ssrc)
      {
        if entries[i].inUse && entries[i].ssrc == ssrc {
          return i;
        }
        i := i + 1;
      }
      return -1;
    }

    /** The fields of a stream written back into its entry. */
    method Put(i: nat, ssrc: int, e: Entry, ghost s: Stream, ghost now: int)
      requires Valid(now) && ssrc in slots && slots[ssrc] == i
      requires e.inUse && e.ssrc == ssrc && Matches(e, s) && s.used == streams[ssrc].used
      modifies this`streams, entries
      ensures Valid(now) && streams == old(streams)[ssrc := s]
    {
      ghost var entries0, streams0 := entries[..], streams;
      entries[i] := e;
      streams := streams[ssrc := s];
      HoldsAfterUpdate(entries0, slots, streams0, ssrc, now, entries[..], streams);
    }

    /** The scan of `srtp_entry_for_ssrc`: the stream's entry, or the one to give it. */
    method Scan(ssrc: int, ghost now: int) returns (present: bool, i: nat)
      requires Valid(now)
      ensures i < MAX_STREAMS
      ensures present <==> ssrc in streams
      ensures present ==> entries[i].inUse && entries[i].ssrc == ssrc
      ensures !present ==> Replaceable(entries[..], i)
    {
      var free, lru := -1, 0;
      i := 0;
      while i < entries.Length
        invariant 0 <= i <= entries.Length
        invariant forall j | 0 <= j < i :: !(entries[j].inUse && entries[j].ssrc == ssrc)
        invariant -1 <= free < i && (free >= 0 ==> !entries[free].inUse)
        invariant free == -1 ==> forall j | 0 <= j < i :: entries[j].inUse
        invariant 0 <= lru < entries.Length
        invariant forall j | 0 <= j < i :: entries[lru].lruTick <= entries[j].lruTick
      {
        if entries[i].inUse && entries[i].ssrc == ssrc {
          return true, i;
        }
        if !entries[i].inUse && free == -1 {
          free := i;
        }
        if entries[i].lruTick < entries[lru].lruTick {
          lru := i;
        }
        i := i + 1;
      }
      return false, if free >= 0 then free else lru;
    }

    /** `srtp_entry_for_ssrc`: the entry of the stream, now the most recently used. */
    method EntryFor(ssrc: int, tick: int) returns (i: nat)
      requires Valid(tick)
      modifies this, entries
      ensures Valid(tick + 1)
      ensures Touched(old(streams), ssrc, tick + 1, streams)
      ensures ssrc in slots && slots[ssrc] == i < MAX_STREAMS
    {
      var present;
      present, i := Scan(ssrc, tick);
      if present {
        Promote(i, ssrc, tick);
      } else {
        Replace(i, ssrc, tick);
      }
    }

    method Promote(i: nat, ssrc: int, tick: int)
      requires Valid(tick) && i < MAX_STREAMS && entries[i].inUse && entries[i].ssrc == ssrc
      modifies this, entries
      ensures Valid(tick + 1) && Touched(old(streams), ssrc, tick + 1, streams)
      ensures ssrc in slots && slots[ssrc] == i
    {
      ghost var entries0, streams0 := entries[..], streams;
      entries[i] := entries[i].(lruTick := tick + 1);
      streams := streams[ssrc := streams[ssrc].(used := tick + 1)];
      HoldsAfterPromote(entries0, slots, streams0, i, tick, entries[..], streams);
    }

    method Replace(i: nat, ssrc: int, tick: int)
      requires Valid(tick) && Replaceable(entries[..], i) && ssrc !in streams
      modifies this, entries
      ensures Valid(tick + 1) && Touched(old(streams), ssrc, tick + 1, streams)
      ensures ssrc in slots && slots[ssrc] == i
    {
      ghost var entries0, slots0, streams0 := entries[..], slots, streams;
      entries[i] := UNUSED.(ssrc := ssrc, inUse := true, lruTick := tick + 1);
      slots := (slots - Occupant(entries0, i))[ssrc := i];
      streams := (streams - Occupant(entries0, i))[ssrc := NewStream(tick + 1)];
      HoldsAfterReplace(entries0, slots0, streams0, i, ssrc, tick, entries[..], slots, streams);
    }
  }
}
