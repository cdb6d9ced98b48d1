/** Transport-wide congestion control feedback: what the builder writes for a
    window of arrivals and what the parser reads back. */
module TwccFormat {
  import opened Bytes
  import opened Collections
  import opened Words

  const WINDOW: int := 256
  const TICK: int := 250
  const NOT_RECV: int := 0
  const SMALL: int := 1
  const LARGE: int := 2

  // ----- quantising arrival times -----

  /** C's integer division truncates toward zero. */
  function Truncate(a: int, b: int): int
    requires b > 0
  {
    if a >= 0 then a / b else -((-a) / b)
  }

  /** A packet's status and its delta in ticks. */
  datatype Mark = Mark(status: int, delta: int)

  function Quantize(arrival: Option<int>, prev: int): Mark
  {
    match arrival
    case None => Mark(NOT_RECV, 0)
    case Some(time) =>
      var ticks := Truncate(time - prev, TICK);
      if -128 <= ticks <= 127 then Mark(SMALL, ticks)
      else if -32768 <= ticks <= 32767 then Mark(LARGE, ticks)
      else Mark(NOT_RECV, 0)
  }

  /** The reconstructed time that the next delta is relative to. */
  function Advance(m: Mark, prev: int): int
  {
    if m.status == NOT_RECV then prev else prev + m.delta * TICK
  }

  function Marks(arrivals: seq<Option<int>>, prev: int): (r: seq<Mark>)
    ensures |r| == |arrivals|
    ensures forall i | 0 <= i < |r| :: IsMark(r[i])
  {
    if arrivals == [] then []
    else
      var m := Quantize(arrivals[0], prev);
      [m] + Marks(arrivals[1..], Advance(m, prev))
  }

  predicate IsMark(m: Mark)
  {
    || m == Mark(NOT_RECV, 0)
    || (m.status == SMALL && -128 <= m.delta <= 127)
    || (m.status == LARGE && -32768 <= m.delta <= 32767)
  }

  function Statuses(marks: seq<Mark>): (r: seq<int>)
    ensures |r| == |marks| && forall i | 0 <= i < |r| :: r[i] == marks[i].status
  {
    if marks == [] then [] else [marks[0].status] + Statuses(marks[1..])
  }

  /** The times the marks stand for, one by one, starting from prev. */
  function Times(marks: seq<Mark>, prev: int): (r: seq<int>)
    ensures |r| == |marks|
  {
    if marks == [] then []
    else [Advance(marks[0], prev)] + Times(marks[1..], Advance(marks[0], prev))
  }

  /** Every packet reported as received was received, at a time less than one
      tick away from the one reconstructed; the error does not accumulate. */
  lemma {:induction false} TimesAccurate(arrivals: seq<Option<int>>, prev: int, i: int)
    requires 0 <= i < |arrivals| && Marks(arrivals, prev)[i].status != NOT_RECV
    ensures arrivals[i].Some? && -TICK < Times(Marks(arrivals, prev), prev)[i] - arrivals[i].value < TICK
    decreases |arrivals|
  {
    var m := Quantize(arrivals[0], prev);
    if i > 0 {
      TimesAccurate(arrivals[1..], Advance(m, prev), i - 1);
    }
  }

  /** The last whole tick on the way from prev to a time. */
  function Rebuilt(time: int, prev: int): int
  {
    if time >= prev then time - time % TICK else time + (-time) % TICK
  }

  /** Every received packet is within what 16 bits of ticks can say of the
      reconstructed time of the one received before it. */
  ghost predicate InRange(arrivals: seq<Option<int>>, prev: int)
  {
    arrivals == [] ||
    (if arrivals[0].None? then InRange(arrivals[1..], prev)
     else -8_192_249 <= arrivals[0].value - prev <= 8_191_999
          && InRange(arrivals[1..], Rebuilt(arrivals[0].value, prev)))
  }

  ghost predicate Reported(arrivals: seq<Option<int>>, marks: seq<Mark>)
    requires |marks| == |arrivals|
  {
    forall i | 0 <= i < |arrivals| :: marks[i].status != NOT_RECV <==> arrivals[i].Some?
  }

  lemma TicksFit(d: int)
    ensures -32768 <= Truncate(d, TICK) <= 32767 <==> -8_192_249 <= d <= 8_191_999
  {
  }

  lemma RebuiltIs(time: int, prev: int)
    requires prev % TICK == 0
    ensures prev + Truncate(time - prev, TICK) * TICK == Rebuilt(time, prev) && Rebuilt(time, prev) % TICK == 0
  {
    if time >= prev {
      Whole(prev, time - prev);
    } else {
      Whole(-prev, prev - time);
    }
  }

  lemma Whole(p: int, d: int)
    requires p % TICK == 0
    ensures p + d / TICK * TICK == p + d - (p + d) % TICK
  {
    var q := p / TICK;
    assert p == TICK * q && d == TICK * (d / TICK) + d % TICK;
    assert p + d == TICK * (q + d / TICK) + d % TICK;
  }

  /** One packet is reported exactly when its distance fits. */
  lemma QuantizeExactly(time: int, prev: int)
    requires prev % TICK == 0
    ensures Quantize(Some(time), prev).status != NOT_RECV <==> -8_192_249 <= time - prev <= 8_191_999
    ensures Quantize(Some(time), prev).status != NOT_RECV ==>
              Advance(Quantize(Some(time), prev), prev) == Rebuilt(time, prev)
    ensures Rebuilt(time, prev) % TICK == 0
  {
    TicksFit(time - prev);
    RebuiltIs(time, prev);
  }

  lemma ReportedFront(arrivals: seq<Option<int>>, marks: seq<Mark>)
    requires |marks| == |arrivals| > 0
    ensures Reported(arrivals, marks) <==>
            (marks[0].status != NOT_RECV <==> arrivals[0].Some?) && Reported(arrivals[1..], marks[1..])
  {
    if Reported(arrivals[1..], marks[1..]) && (marks[0].status != NOT_RECV <==> arrivals[0].Some?) {
      forall i | 0 <= i < |arrivals| ensures marks[i].status != NOT_RECV <==> arrivals[i].Some? {
        assert i > 0 ==> marks[i] == marks[1..][i - 1] && arrivals[i] == arrivals[1..][i - 1];
      }
    }
  }

  lemma WholeTicks(reference: int)
    ensures reference * 64000 % TICK == 0
  {
    assert reference * 64000 == TICK * (reference * 256) + 0;
  }

  /** Every packet is reported as received or not as it was, exactly when every
      distance fits. */
  lemma {:induction false} ReportedExactly(arrivals: seq<Option<int>>, prev: int)
    requires prev % TICK == 0
    ensures Reported(arrivals, Marks(arrivals, prev)) <==> InRange(arrivals, prev)
  {
    if arrivals != [] {
      var m, marks := Quantize(arrivals[0], prev), Marks(arrivals, prev);
      ReportedFront(arrivals, marks);
      assert marks[1..] == Marks(arrivals[1..], Advance(m, prev));
      if arrivals[0].None? {
        ReportedExactly(arrivals[1..], prev);
      } else {
        QuantizeExactly(arrivals[0].value, prev);
        if m.status != NOT_RECV {
          ReportedExactly(arrivals[1..], Rebuilt(arrivals[0].value, prev));
        }
      }
    }
  }

  /** Received packets at most about eight seconds apart are all reported. */
  ghost predicate Steady(arrivals: seq<Option<int>>, last: int)
  {
    arrivals == [] ||
    (if arrivals[0].None? then Steady(arrivals[1..], last)
     else -8_191_500 <= arrivals[0].value - last <= 8_191_500 && Steady(arrivals[1..], arrivals[0].value))
  }

  lemma {:induction false} SteadyReported(arrivals: seq<Option<int>>, last: int, prev: int, i: int)
    requires Steady(arrivals, last) && -TICK < prev - last < TICK && 0 <= i < |arrivals|
    ensures Marks(arrivals, prev)[i].status != NOT_RECV <==> arrivals[i].Some?
    decreases |arrivals|
  {
    var m := Quantize(arrivals[0], prev);
    if i > 0 {
      SteadyReported(arrivals[1..], if arrivals[0].None? then last else arrivals[0].value, Advance(m, prev), i - 1);
    }
  }

  /** The first arrival time, or nothing. */
  function First(arrivals: seq<Option<int>>): Option<int>
  {
    if arrivals == [] then None else if arrivals[0].Some? then arrivals[0] else First(arrivals[1..])
  }

  /** The same for a whole window, whose first time is rounded down to 64 ms. */
  lemma {:induction false} WindowReported(arrivals: seq<Option<int>>, last: int, start: int, i: int)
    requires First(arrivals) == Some(last) && Steady(arrivals, last) && 0 <= i < |arrivals|
    requires start <= last < start + 64000
    ensures Marks(arrivals, start)[i].status != NOT_RECV <==> arrivals[i].Some?
    decreases |arrivals|
  {
    var m := Quantize(arrivals[0], start);
    if i > 0 {
      if arrivals[0].None? {
        WindowReported(arrivals[1..], last, start, i - 1);
      } else {
        SteadyReported(arrivals[1..], last, Advance(m, start), i - 1);
      }
    }
  }

  // ----- status chunks -----

  /** Where, from j on, the run of statuses equal to the one at i ends. */
  function RunEnd(st: seq<int>, i: int, j: int): (e: int)
    requires 0 <= i < j <= |st|
    ensures j <= e <= |st|
    decreases |st| - j
  {
    if j == |st| || st[j] != st[i] then j else RunEnd(st, i, j + 1)
  }

  lemma {:induction false} RunEqual(st: seq<int>, i: int, j: int, k: int)
    requires 0 <= i < j <= |st| && j <= k < RunEnd(st, i, j)
    ensures st[k] == st[i]
    decreases |st| - j
  {
    if j < k {
      RunEqual(st, i, j + 1, k);
    }
  }

  /** A run-length chunk is written for three equal statuses in a row and for a
      LARGE delta at the front, otherwise a vector of up to 14 one-bit statuses. */
  predicate AsRun(st: seq<int>, i: int)
    requires 0 <= i < |st|
  {
    RunEnd(st, i, i + 1) - i >= 3 || st[i] == LARGE
  }

  /** Where the chunk that starts at i ends. */
  function ChunkEnd(st: seq<int>, i: int): (e: int)
    requires 0 <= i < |st|
    ensures i < e <= |st|
  {
    if AsRun(st, i) then RunEnd(st, i, i + 1) else if |st| - i < 14 then |st| else i + 14
  }

  /** The first n bits of the vector for the statuses from i to e, most significant
      first: one bit per status, SMALL or not, then zeros. */
  function Vector(st: seq<int>, i: int, e: int, n: int): (v: int)
    requires 0 <= i <= e <= |st| && 0 <= n
    ensures v >= 0
    decreases n, i, e
  {
    if n == 0 then 0 else 2 * Vector(st, i, e, n - 1) + if i + n <= e && st[i + n - 1] == SMALL then 1 else 0
  }

  function Chunk(st: seq<int>, i: int): int
    requires 0 <= i < |st|
  {
    if AsRun(st, i) then st[i] * 0x2000 + (ChunkEnd(st, i) - i)
    else 0x8000 + Vector(st, i, ChunkEnd(st, i), 14)
  }

  /** How many statuses a 16-bit chunk stands for, as the parser reads it: the top
      bit tells a run from a vector, the next one a vector of one-bit statuses
      from one of two-bit symbols. */
  function ChunkSize(chunk: int): (n: int)
    ensures n >= 0
  {
    if chunk < 0x8000 then chunk % 0x2000 else if chunk < 0xC000 then 14 else 7
  }

  /** The k-th of them. The builder never writes two-bit symbols. */
  function StatusAt(chunk: int, k: int): int
    requires 0 <= k < ChunkSize(chunk)
  {
    if chunk < 0x8000 then chunk / 0x2000
    else if chunk < 0xC000 then Shr(chunk, 13 - k) % 2
    else Shr(chunk, 12 - 2 * k) % 4
  }

  /** The statuses so far with those of a chunk from the k-th on, up to count. */
  function AddFrom(chunk: int, k: int, status: seq<int>, count: int): (r: seq<int>)
    requires 0 <= k <= ChunkSize(chunk) && |status| <= count
    ensures |status| <= |r| <= count
    decreases ChunkSize(chunk) - k
  {
    if k == ChunkSize(chunk) || |status| == count then status
    else AddFrom(chunk, k + 1, status + [StatusAt(chunk, k)], count)
  }

  /** What the chunk at i lets through of status k: all of a run, but only SMALL or
      not of a vector. */
  function Shown(st: seq<int>, i: int, k: int): int
    requires 0 <= i <= k < |st|
  {
    if AsRun(st, i) || st[k] == SMALL then st[k] else NOT_RECV
  }

  /** What it lets through from status k to its end. */
  function SeenFront(st: seq<int>, i: int, k: int): (r: seq<int>)
    requires 0 <= i < |st| && i <= k <= ChunkEnd(st, i)
    ensures |r| == ChunkEnd(st, i) - k
    decreases ChunkEnd(st, i) - k
  {
    if k == ChunkEnd(st, i) then [] else [Shown(st, i, k)] + SeenFront(st, i, k + 1)
  }

  /** What is left of the statuses from i on once they have gone through chunks:
      a LARGE delta inside a vector chunk comes back as not received. */
  function Seen(st: seq<int>, i: int): (r: seq<int>)
    requires 0 <= i <= |st|
    ensures |r| == |st| - i
    decreases |st| - i
  {
    if i == |st| then [] else SeenFront(st, i, i) + Seen(st, ChunkEnd(st, i))
  }

  ghost predicate LargeInFront(st: seq<int>, i: int)
    requires 0 <= i < |st|
  {
    !AsRun(st, i) && exists k :: i <= k < ChunkEnd(st, i) && st[k] == LARGE
  }

  /** From i on no vector chunk spans a LARGE delta. */
  ghost predicate NoLargeInVector(st: seq<int>, i: int)
    requires 0 <= i <= |st|
    decreases |st| - i
  {
    i == |st| || (!LargeInFront(st, i) && NoLargeInVector(st, ChunkEnd(st, i)))
  }

  ghost predicate AreStatuses(st: seq<int>)
  {
    |st| <= WINDOW && forall i | 0 <= i < |st| :: NOT_RECV <= st[i] <= LARGE
  }

  lemma {:induction false} SeenFrontAt(st: seq<int>, i: int, k: int, j: int)
    requires 0 <= i < |st| && i <= k <= j < ChunkEnd(st, i)
    ensures SeenFront(st, i, k)[j - k] == Shown(st, i, j)
    decreases j - k
  {
    if k < j {
      SeenFrontAt(st, i, k + 1, j);
    }
  }

  lemma FrontKept(st: seq<int>, i: int)
    requires 0 <= i < |st| && AreStatuses(st) && !LargeInFront(st, i)
    ensures SeenFront(st, i, i) == st[i..ChunkEnd(st, i)]
  {
    forall j | i <= j < ChunkEnd(st, i) ensures SeenFront(st, i, i)[j - i] == st[j] {
      SeenFrontAt(st, i, i, j);
    }
    SameSlice(st, i, ChunkEnd(st, i), SeenFront(st, i, i));
  }

  lemma SameSlice(st: seq<int>, i: int, e: int, r: seq<int>)
    requires 0 <= i <= e <= |st| && |r| == e - i && forall j | i <= j < e :: r[j - i] == st[j]
    ensures r == st[i..e]
  {
    forall k | 0 <= k < e - i ensures r[k] == st[i..e][k] {
      assert r[i + k - i] == st[i + k];
    }
  }

  lemma FrontLost(st: seq<int>, i: int, k: int)
    requires 0 <= i < |st| && !AsRun(st, i) && i <= k < ChunkEnd(st, i) && st[k] == LARGE
    ensures SeenFront(st, i, i) != st[i..ChunkEnd(st, i)]
  {
    SeenFrontAt(st, i, i, k);
    assert st[i..ChunkEnd(st, i)][k - i] == LARGE;
  }

  lemma FrontExactly(st: seq<int>, i: int)
    requires 0 <= i < |st| && AreStatuses(st)
    ensures SeenFront(st, i, i) == st[i..ChunkEnd(st, i)] <==> !LargeInFront(st, i)
  {
    if LargeInFront(st, i) {
      var k :| i <= k < ChunkEnd(st, i) && st[k] == LARGE;
      FrontLost(st, i, k);
    } else {
      FrontKept(st, i);
    }
  }

  /** The chunks keep every status exactly when no vector chunk spans a LARGE delta. */
  lemma {:induction false} SeenExactly(st: seq<int>, i: int)
    requires AreStatuses(st) && 0 <= i <= |st|
    ensures Seen(st, i) == st[i..] <==> NoLargeInVector(st, i)
    decreases |st| - i
  {
    if i < |st| {
      var e := ChunkEnd(st, i);
      FrontExactly(st, i);
      SeenExactly(st, e);
      SliceSum(st, i, e);
      PartsEqual(SeenFront(st, i, i), Seen(st, e), st[i..e], st[e..]);
    }
  }

  lemma SliceSum(st: seq<int>, i: int, e: int)
    requires 0 <= i <= e <= |st|
    ensures st[i..] == st[i..e] + st[e..]
  {
  }

  lemma PartsEqual(a: seq<int>, b: seq<int>, c: seq<int>, d: seq<int>)
    requires |a| == |c|
    ensures a + b == c + d <==> a == c && b == d
  {
    if a + b == c + d {
      assert a == (a + b)[..|a|] && b == (a + b)[|a|..];
      assert c == (c + d)[..|c|] && d == (c + d)[|c|..];
    }
  }

  lemma StatusesInRange(marks: seq<Mark>)
    requires |marks| <= WINDOW && forall i | 0 <= i < |marks| :: IsMark(marks[i])
    ensures AreStatuses(Statuses(marks))
  {
    forall i | 0 <= i < |marks| ensures NOT_RECV <= Statuses(marks)[i] <= LARGE {
      assert IsMark(marks[i]);
    }
  }

  // ----- the packet -----

  /** The chunks from status i on. */
  function ChunkBytes(st: seq<int>, i: int): (r: seq<int>)
    requires AreStatuses(st) && 0 <= i <= |st|
    ensures |r| <= 2 * (|st| - i)
    decreases |st| - i
  {
    if i == |st| then []
    else
      ChunkInRange(st, i);
      U16(Chunk(st, i)) + ChunkBytes(st, ChunkEnd(st, i))
  }

  function DeltaBytesOf(m: Mark): (r: seq<int>)
    requires IsMark(m)
    ensures |r| <= 2
  {
    if m.status == SMALL then [m.delta % 256]
    else if m.status == LARGE then U16(m.delta % 0x1_0000)
    else []
  }

  function DeltaBytes(marks: seq<Mark>): (r: seq<int>)
    requires forall i | 0 <= i < |marks| :: IsMark(marks[i])
    ensures |r| <= 2 * |marks|
  {
    if marks == [] then [] else DeltaBytesOf(marks[0]) + DeltaBytes(marks[1..])
  }

  predicate IsHeader(sender: int, media: int, base: int, fb: int)
  {
    0 <= sender < 0x1_0000_0000 && 0 <= media < 0x1_0000_0000 && 0 <= base < 0x1_0000 && 0 <= fb < 256
  }

  function Header(words: int, sender: int, media: int, base: int, count: int, reference: int, fb: int): (r: seq<int>)
    requires IsHeader(sender, media, base, fb)
    requires 0 <= words < 0x1_0000 && 0 <= count < 0x1_0000 && 0 <= reference < 0x100_0000
    ensures |r| == 20
  {
    [0x8F, 205, words / 256, words % 256,
     sender / 0x100_0000, sender / 0x1_0000 % 256, sender / 256 % 256, sender % 256,
     media / 0x100_0000, media / 0x1_0000 % 256, media / 256 % 256, media % 256,
     base / 256, base % 256, count / 256, count % 256,
     reference / 0x1_0000, reference / 256 % 256, reference % 256, fb]
  }

  /** The reference time, in units of 64 ms and 24 bits, from the first arrival. */
  function Reference(arrivals: seq<Option<int>>): (r: int)
    ensures 0 <= r < 0x100_0000
  {
    if arrivals == [] then 0
    else if arrivals[0].Some? then arrivals[0].value / 64000 % 0x100_0000
    else Reference(arrivals[1..])
  }

  function MarksOf(arrivals: seq<Option<int>>): (r: seq<Mark>)
    ensures |r| == |arrivals|
    ensures forall i | 0 <= i < |r| :: IsMark(r[i])
  {
    Marks(arrivals, Reference(arrivals) * 64000)
  }

  lemma {:induction false} ReferenceOf(arrivals: seq<Option<int>>, first: int)
    requires First(arrivals) == Some(first)
    ensures Reference(arrivals) == first / 64000 % 0x100_0000
  {
    if arrivals[0].None? {
      ReferenceOf(arrivals[1..], first);
    }
  }

  /** Up to 2^24 times 64 ms, packets are reported exactly as they arrived. */
  lemma MarksReported(arrivals: seq<Option<int>>, first: int, i: int)
    requires First(arrivals) == Some(first) && 0 <= first < 0x100_0000 * 64000
    requires Steady(arrivals, first) && 0 <= i < |arrivals|
    ensures MarksOf(arrivals)[i].status != NOT_RECV <==> arrivals[i].Some?
  {
    var reference := Reference(arrivals);
    ReferenceOf(arrivals, first);
    assert reference == first / 64000;
    WindowReported(arrivals, first, reference * 64000, i);
  }

  /** Every received packet is in range of the one before it, the first one of
      the reference time. */
  ghost predicate WindowInRange(arrivals: seq<Option<int>>)
  {
    InRange(arrivals, Reference(arrivals) * 64000)
  }

  lemma SteadyInRange(arrivals: seq<Option<int>>, first: int)
    requires First(arrivals) == Some(first) && 0 <= first < 0x100_0000 * 64000 && Steady(arrivals, first)
    ensures WindowInRange(arrivals)
  {
    forall i | 0 <= i < |arrivals| ensures MarksOf(arrivals)[i].status != NOT_RECV <==> arrivals[i].Some? {
      MarksReported(arrivals, first, i);
    }
    WholeTicks(Reference(arrivals));
    ReportedExactly(arrivals, Reference(arrivals) * 64000);
  }

  lemma {:induction false} FirstInRange(arrivals: seq<Option<int>>, prev: int, first: int)
    requires First(arrivals) == Some(first) && InRange(arrivals, prev)
    ensures first - prev <= 8_191_999
  {
    if arrivals[0].None? {
      FirstInRange(arrivals[1..], prev, first);
    }
  }

  /** A clock beyond the 24 bits of the reference time is out of range. */
  lemma WrappedOutOfRange(arrivals: seq<Option<int>>, first: int)
    requires First(arrivals) == Some(first) && first >= 0x100_0000 * 64000
    ensures !WindowInRange(arrivals)
  {
    ReferenceOf(arrivals, first);
    if WindowInRange(arrivals) {
      FirstInRange(arrivals, Reference(arrivals) * 64000, first);
    }
  }

  /** Chunks and deltas, filled up to a multiple of four bytes. */
  function Body(marks: seq<Mark>): (r: seq<int>)
    requires |marks| <= WINDOW && forall i | 0 <= i < |marks| :: IsMark(marks[i])
    ensures |r| % 4 == 0 && |r| <= 4 * |marks| + 3
  {
    StatusesInRange(marks);
    Filled(ChunkBytes(Statuses(marks), 0) + DeltaBytes(marks))
  }

  function Filled(b: seq<int>): (r: seq<int>)
    ensures |r| % 4 == 0 && |b| <= |r| <= |b| + 3
  {
    b + Zeros(Missing(|b|))
  }

  /** What is missing to a multiple of four. */
  function Missing(n: int): (r: int)
    ensures 0 <= r < 4 && (n + r) % 4 == 0
  {
    (4 - n % 4) % 4
  }

  /** Header and body, with the length field in 32-bit words minus one. */
  function Packet(sender: int, media: int, base: int, fb: int, count: int, reference: int, body: seq<int>): seq<int>
    requires IsHeader(sender, media, base, fb) && 0 <= count < 0x1_0000 && 0 <= reference < 0x100_0000
    requires |body| <= 4 * WINDOW + 3
  {
    Header((20 + |body|) / 4 - 1, sender, media, base, count, reference, fb) + body
  }

  function Feedback(sender: int, media: int, base: int, fb: int, arrivals: seq<Option<int>>): seq<int>
    requires IsHeader(sender, media, base, fb) && |arrivals| <= WINDOW
  {
    Packet(sender, media, base, fb, |arrivals|, Reference(arrivals), Body(MarksOf(arrivals)))
  }

  lemma {:induction false} VectorBound(st: seq<int>, i: int, e: int, n: int)
    requires 0 <= i <= e <= |st| && 0 <= n
    ensures 0 <= Vector(st, i, e, n) < Pow2(n)
    decreases n
  {
    if n > 0 {
      VectorBound(st, i, e, n - 1);
    }
  }

  lemma ChunkInRange(st: seq<int>, i: int)
    requires 0 <= i < |st| && AreStatuses(st)
    ensures if AsRun(st, i) then 0 <= Chunk(st, i) < 0x8000 else 0x8000 <= Chunk(st, i) < 0xC000
  {
    if !AsRun(st, i) {
      VectorBound(st, i, ChunkEnd(st, i), 14);
      Pow2Small();
    }
  }

  // ----- the parser -----

  datatype Item = Item(number: int, received: bool, time: int)

  datatype Parsed = Parsed(sender: int, media: int, base: int, fb: int, items: seq<Item>)

  datatype Walk = Walk(status: seq<int>, at: int)

  /** The chunk loop of `rtc_rtcp_parse_twcc`, from offset p on with the statuses
      collected so far, until there are enough. */
  function ReadChunks(data: seq<int>, p: int, count: int, status: seq<int>): (r: Option<Walk>)
    requires 0 <= p && |status| <= count
    ensures r.Some? ==> |r.value.status| == count && p <= r.value.at
    decreases |data| - p
  {
    if |status| == count then Some(Walk(status, p))
    else if p + 2 > |data| then None
    else ReadChunks(data, p + 2, count, AddFrom(Read16(data, p), 0, status, count))
  }

  function Signed(v: int, bits: int): int
  {
    if v >= bits / 2 then v - bits else v
  }

  /** The delta loop of `rtc_rtcp_parse_twcc`, from offset p and packet i on. */
  function ReadItems(data: seq<int>, p: int, status: seq<int>, i: int, base: int, time: int): Option<seq<Item>>
    requires 0 <= p && 0 <= i <= |status|
    decreases |status| - i
  {
    if i == |status| then Some([])
    else
      var number := (base + i) % 0x1_0000;
      if status[i] == NOT_RECV then Prepend(Item(number, false, 0), ReadItems(data, p, status, i + 1, base, time))
      else if status[i] == SMALL then
        if p + 1 > |data| then None
        else
          var t := time + Signed(data[p], 256) * TICK;
          Prepend(Item(number, true, t), ReadItems(data, p + 1, status, i + 1, base, t))
      else if status[i] == LARGE then
        if p + 2 > |data| then None
        else
          var t := time + Signed(Read16(data, p), 0x1_0000) * TICK;
          Prepend(Item(number, true, t), ReadItems(data, p + 2, status, i + 1, base, t))
      else None
  }

  /** Chunks, then deltas. */
  function ReadBody(data: seq<int>, base: int, count: int, start: int): Option<seq<Item>>
    requires 0 <= count
  {
    var walk := ReadChunks(data, 20, count, []);
    if walk.None? then None else ReadItems(data, walk.value.at, walk.value.status, 0, base, start)
  }

  /** `rtc_rtcp_parse_twcc` */
  function Parse(data: seq<int>): Option<Parsed>
  {
    if |data| < 20 || data[0] / 64 % 4 != 2 then None
    else
      var base, count := Read16(data, 12), Read16(data, 14);
      var reference := data[16] * 0x1_0000 + data[17] * 256 + data[18];
      if count <= 0 || count > WINDOW then None
      else
        var items := ReadBody(data, base, count, reference * 64000);
        if items.None? then None
        else Some(Parsed(Read32(data, 4), Read32(data, 8), base, data[19], items.value))
  }

  // ----- the round trip -----

  lemma {:induction false} ShrVector(st: seq<int>, i: int, e: int, m: int)
    requires 0 <= i <= e <= |st| && 0 <= m <= 14
    ensures Shr(0x8000 + Vector(st, i, e, 14), m) == Vector(st, i, e, 14 - m) + Pow2(15 - m)
    decreases m
  {
    if m == 0 {
      Pow2Small();
    } else {
      ShrVector(st, i, e, m - 1);
    }
  }

  /** The parser reads from a vector what it lets through. */
  lemma VectorStatus(st: seq<int>, i: int, e: int, k: int)
    requires 0 <= i <= k < e <= |st| && k - i < 14
    ensures ChunkSize(0x8000 + Vector(st, i, e, 14)) == 14
    ensures StatusAt(0x8000 + Vector(st, i, e, 14), k - i) == if st[k] == SMALL then SMALL else NOT_RECV
  {
    VectorBound(st, i, e, 14);
    Pow2Small();
    ShrVector(st, i, e, 13 - (k - i));
  }

  lemma RunStatus(s: int, n: int, k: int)
    requires NOT_RECV <= s <= LARGE && 0 <= k < n < 0x2000
    ensures ChunkSize(s * 0x2000 + n) == n && StatusAt(s * 0x2000 + n, k) == s
  {
    assert (s * 0x2000 + n) / 0x2000 == s && (s * 0x2000 + n) % 0x2000 == n;
  }

  lemma ChunkStatus(st: seq<int>, i: int, k: int)
    requires 0 <= i < |st| && AreStatuses(st) && i <= k < ChunkEnd(st, i)
    ensures ChunkSize(Chunk(st, i)) == if AsRun(st, i) then ChunkEnd(st, i) - i else 14
    ensures StatusAt(Chunk(st, i), k - i) == Shown(st, i, k)
  {
    if AsRun(st, i) {
      RunStatus(st[i], ChunkEnd(st, i) - i, k - i);
      if k > i { RunEqual(st, i, i + 1, k); }
    } else {
      VectorStatus(st, i, ChunkEnd(st, i), k);
    }
  }

  /** A chunk adds what it lets through. */
  lemma {:induction false} ChunkAdds(st: seq<int>, i: int, k: int, status: seq<int>)
    requires 0 <= i < |st| && AreStatuses(st) && i <= k <= ChunkEnd(st, i) && |status| == k
    requires k - i <= ChunkSize(Chunk(st, i))
    ensures AddFrom(Chunk(st, i), k - i, status, |st|) == status + SeenFront(st, i, k)
    decreases ChunkEnd(st, i) - k
  {
    if k == ChunkEnd(st, i) {
      ChunkStatus(st, i, i);
      assert status + [] == status;
    } else {
      var s := Shown(st, i, k);
      ChunkStatus(st, i, k);
      ChunkAdds(st, i, k + 1, status + [s]);
      ConcatAssociates(status, [s], SeenFront(st, i, k + 1));
    }
  }

  lemma ReadOnce(data: seq<int>, p: int, count: int, status: seq<int>, c: int)
    requires 0 <= p && |status| < count && 0 <= c < 0x1_0000 && Occurs(data, p, U16(c))
    ensures ReadChunks(data, p, count, status) == ReadChunks(data, p + 2, count, AddFrom(c, 0, status, count))
  {
    OccursRead16(data, p, c);
  }

  lemma ReadNext(data: seq<int>, p: int, st: seq<int>, i: int, status: seq<int>)
    requires 0 <= i < |st| && AreStatuses(st) && |status| == i && 0 <= p && Occurs(data, p, ChunkBytes(st, i))
    ensures Occurs(data, p + 2, ChunkBytes(st, ChunkEnd(st, i)))
    ensures ReadChunks(data, p, |st|, status) == ReadChunks(data, p + 2, |st|, status + SeenFront(st, i, i))
  {
    ChunkInRange(st, i);
    OccursSplit(data, p, U16(Chunk(st, i)), ChunkBytes(st, ChunkEnd(st, i)));
    ReadOnce(data, p, |st|, status, Chunk(st, i));
    ChunkAdds(st, i, i, status);
  }

  lemma {:induction false} ChunksRead(data: seq<int>, p: int, st: seq<int>, i: int, status: seq<int>)
    requires AreStatuses(st) && 0 <= i <= |st| && |status| == i && 0 <= p && Occurs(data, p, ChunkBytes(st, i))
    ensures ReadChunks(data, p, |st|, status) ==
            ReadChunks(data, p + |ChunkBytes(st, i)|, |st|, status + Seen(st, i))
    decreases |st| - i
  {
    if i == |st| {
      assert status + [] == status;
    } else {
      var e, front := ChunkEnd(st, i), SeenFront(st, i, i);
      ReadNext(data, p, st, i, status);
      ChunksRead(data, p + 2, st, e, status + front);
      ConcatAssociates(status, front, Seen(st, e));
    }
  }

  /** The items the parser reports for marks, from packet i and time prev on. */
  function ItemsOf(marks: seq<Mark>, i: int, base: int, prev: int): (r: seq<Item>)
    ensures |r| == |marks|
  {
    if marks == [] then []
    else
      var t, received := Advance(marks[0], prev), marks[0].status != NOT_RECV;
      [Item((base + i) % 0x1_0000, received, if received then t else 0)] + ItemsOf(marks[1..], i + 1, base, t)
  }

  lemma {:induction false} ItemsRead(data: seq<int>, p: int, status: seq<int>, marks: seq<Mark>, i: int, base: int,
                                     time: int)
    requires forall k | 0 <= k < |marks| :: IsMark(marks[k])
    requires 0 <= i <= |status| && |status| == i + |marks| && status[i..] == Statuses(marks)
    requires Occurs(data, p, DeltaBytes(marks))
    ensures var r := ReadItems(data, p, status, i, base, time);
            r.Some? && r.value == ItemsOf(marks, i, base, time)
    decreases |marks|
  {
    if marks != [] {
      var m := marks[0];
      assert status[i] == status[i..][0] == m.status && status[i + 1..] == Statuses(marks[1..]);
      OccursSplit(data, p, DeltaBytesOf(m), DeltaBytes(marks[1..]));
      ItemStep(data, p, status, m, i, base, time);
      ItemsRead(data, p + |DeltaBytesOf(m)|, status, marks[1..], i + 1, base, Advance(m, time));
    }
  }

  lemma ItemStep(data: seq<int>, p: int, status: seq<int>, m: Mark, i: int, base: int, time: int)
    requires IsMark(m) && 0 <= i < |status| && status[i] == m.status && Occurs(data, p, DeltaBytesOf(m))
    ensures var t, received := Advance(m, time), m.status != NOT_RECV;
            ReadItems(data, p, status, i, base, time)
            == Prepend(Item((base + i) % 0x1_0000, received, if received then t else 0),
                       ReadItems(data, p + |DeltaBytesOf(m)|, status, i + 1, base, t))
  {
    DeltaRead(data, p, m);
  }

  /** Deltas come back from their one or two bytes with their sign. */
  lemma DeltaRead(data: seq<int>, p: int, m: Mark)
    requires IsMark(m) && Occurs(data, p, DeltaBytesOf(m))
    ensures m.status == SMALL ==> Signed(data[p], 256) == m.delta
    ensures m.status == LARGE ==> Signed(Read16(data, p), 0x1_0000) == m.delta
  {
    if m.status == SMALL {
      assert data[p + 0] == DeltaBytesOf(m)[0];
    } else if m.status == LARGE {
      OccursRead16(data, p, m.delta % 0x1_0000);
    }
  }

  /** `ItemsOf`, packet by packet. */
  lemma {:induction false} ItemsAt(marks: seq<Mark>, i: int, base: int, prev: int, k: int)
    requires 0 <= k < |marks|
    ensures var item := ItemsOf(marks, i, base, prev)[k];
            && item.number == (base + (i + k)) % 0x1_0000
            && (item.received <==> marks[k].status != NOT_RECV)
            && (item.received ==> item.time == Times(marks, prev)[k])
    decreases |marks|
  {
    if k > 0 {
      ItemsAt(marks[1..], i + 1, base, Advance(marks[0], prev), k - 1);
    }
  }

  /** What a packet's item should say: its number, whether it was received, and
      an arrival time less than a tick away from the recorded one. */
  ghost predicate ItemReturned(item: Item, k: int, base: int, arrival: Option<int>)
  {
    && item.number == (base + k) % 0x1_0000
    && (item.received <==> arrival.Some?)
    && (item.received ==> -TICK < item.time - arrival.value < TICK)
  }

  ghost predicate AllReturned(items: seq<Item>, base: int, arrivals: seq<Option<int>>)
  {
    |items| == |arrivals| && forall k | 0 <= k < |arrivals| :: ItemReturned(items[k], k, base, arrivals[k])
  }

  /** Whether the parser gives back the window as it was recorded. */
  ghost predicate Returned(r: Option<Parsed>, sender: int, media: int, base: int, fb: int, arrivals: seq<Option<int>>)
  {
    && r.Some? && r.value.sender == sender && r.value.media == media && r.value.base == base && r.value.fb == fb
    && AllReturned(r.value.items, base, arrivals)
  }

  lemma HeaderBytes(data: seq<int>, words: int, sender: int, media: int, base: int, count: int, reference: int,
                    fb: int)
    requires IsHeader(sender, media, base, fb)
    requires 0 <= words < 0x1_0000 && 0 <= count < 0x1_0000 && 0 <= reference < 0x100_0000
    requires |data| >= 20 && data[..20] == Header(words, sender, media, base, count, reference, fb)
    ensures data[0] == 0x8F && Occurs(data, 4, U32(sender)) && Occurs(data, 8, U32(media))
    ensures Occurs(data, 12, U16(base)) && Occurs(data, 14, U16(count)) && data[19] == fb
    ensures data[16] == reference / 0x1_0000 && data[17] == reference / 256 % 256 && data[18] == reference % 256
  {
    var h := Header(words, sender, media, base, count, reference, fb);
    forall k | 0 <= k < 20 ensures data[k] == h[k] {
      assert data[..20][k] == h[k];
    }
  }

  lemma HeaderRead(data: seq<int>, words: int, sender: int, media: int, base: int, count: int, reference: int, fb: int)
    requires IsHeader(sender, media, base, fb)
    requires 0 <= words < 0x1_0000 && 0 <= count < 0x1_0000 && 0 <= reference < 0x100_0000
    requires |data| >= 20 && data[..20] == Header(words, sender, media, base, count, reference, fb)
    ensures data[0] == 0x8F && Read32(data, 4) == sender && Read32(data, 8) == media
    ensures Read16(data, 12) == base && Read16(data, 14) == count && data[19] == fb
    ensures data[16] * 0x1_0000 + data[17] * 256 + data[18] == reference
  {
    HeaderBytes(data, words, sender, media, base, count, reference, fb);
    OccursRead32(data, 4, sender);
    OccursRead32(data, 8, media);
    OccursRead16(data, 12, base);
    OccursRead16(data, 14, count);
  }

  /** Where chunks and deltas lie in the packet. */
  lemma BodyOccurs(data: seq<int>, head: seq<int>, marks: seq<Mark>)
    requires |head| == 20 && |marks| <= WINDOW && forall i | 0 <= i < |marks| :: IsMark(marks[i])
    requires data == head + Body(marks)
    ensures AreStatuses(Statuses(marks)) && Occurs(data, 20, ChunkBytes(Statuses(marks), 0))
    ensures Occurs(data, 20 + |ChunkBytes(Statuses(marks), 0)|, DeltaBytes(marks))
  {
    StatusesInRange(marks);
    var a, b := ChunkBytes(Statuses(marks), 0), DeltaBytes(marks);
    var pad := Zeros(Missing(|a + b|));
    assert Body(marks) == a + b + pad;
    assert Occurs(data, 20, a + b + pad);
    OccursSplit(data, 20, a + b, pad);
    OccursSplit(data, 20, a, b);
  }

  /** In what ReadItems reports, received is what the status says. */
  lemma {:induction false} FlagsRead(data: seq<int>, p: int, status: seq<int>, i: int, base: int, time: int, k: int)
    requires 0 <= p && 0 <= i <= k < |status|
    ensures var r := ReadItems(data, p, status, i, base, time);
            r.Some? ==> |r.value| == |status| - i && (r.value[k - i].received <==> status[k] != NOT_RECV)
    decreases |status| - i
  {
    var r := ReadItems(data, p, status, i, base, time);
    if r.Some? {
      var q, t := if status[i] == NOT_RECV then p else if status[i] == SMALL then p + 1 else p + 2,
                  if status[i] == NOT_RECV then time
                  else if status[i] == SMALL then time + Signed(data[p], 256) * TICK
                  else time + Signed(Read16(data, p), 0x1_0000) * TICK;
      var rest := ReadItems(data, q, status, i + 1, base, t);
      assert rest.Some? && r.value[1..] == rest.value;
      if k > i {
        FlagsRead(data, q, status, i + 1, base, t, k);
      } else if i + 1 < |status| {
        FlagsRead(data, q, status, i + 1, base, t, i + 1);
      }
    }
  }

  lemma SeenAt(st: seq<int>, i: int, k: int)
    requires 0 <= i < |st| && i <= k < |st|
    ensures Seen(st, i)[k - i] ==
            if k < ChunkEnd(st, i) then SeenFront(st, i, i)[k - i] else Seen(st, ChunkEnd(st, i))[k - ChunkEnd(st, i)]
  {
  }

  /** A status that does not come back comes back as not received. */
  lemma {:induction false} SeenOrLost(st: seq<int>, i: int, k: int)
    requires 0 <= i <= k < |st|
    ensures Seen(st, i)[k - i] == st[k] || Seen(st, i)[k - i] == NOT_RECV
    decreases |st| - i
  {
    SeenAt(st, i, k);
    if k < ChunkEnd(st, i) {
      SeenFrontAt(st, i, i, k);
    } else {
      SeenOrLost(st, ChunkEnd(st, i), k);
    }
  }

  lemma SomeLost(st: seq<int>) returns (k: int)
    requires AreStatuses(st) && !NoLargeInVector(st, 0)
    ensures 0 <= k < |st| && st[k] != NOT_RECV && Seen(st, 0)[k] == NOT_RECV
  {
    SeenExactly(st, 0);
    var seen := Seen(st, 0);
    assert st[0..] == st;
    k :| 0 <= k < |st| && seen[k] != st[k];
    SeenOrLost(st, 0, k);
  }

  ghost predicate ParsedAs(r: Option<Parsed>, sender: int, media: int, base: int, fb: int, items: Option<seq<Item>>)
  {
    && (r.Some? <==> items.Some?)
    && (r.Some? ==> r.value.sender == sender && r.value.media == media
                    && r.value.base == base && r.value.fb == fb && r.value.items == items.value)
  }

  /** What the parser makes of a packet whose header and chunks are known. */
  lemma ParsedItems(data: seq<int>, base: int, count: int, start: int, status: seq<int>, p: int)
    requires |data| >= 20 && data[0] == 0x8F && Read16(data, 12) == base && Read16(data, 14) == count
    requires 1 <= count <= WINDOW && (data[16] * 0x1_0000 + data[17] * 256 + data[18]) * 64000 == start
    requires var r := ReadChunks(data, 20, count, []); r.Some? && r.value.status == status && r.value.at == p
    ensures ParsedAs(Parse(data), Read32(data, 4), Read32(data, 8), base, data[19],
                     ReadItems(data, p, status, 0, base, start))
  {
  }

  /** Statuses that all come back give back what was reported as it was. */
  lemma ItemsReturned(data: seq<int>, p: int, marks: seq<Mark>, base: int, start: int, arrivals: seq<Option<int>>)
    requires marks == Marks(arrivals, start) && Occurs(data, p, DeltaBytes(marks))
    ensures var items := ReadItems(data, p, Statuses(marks), 0, base, start);
            items.Some? && (AllReturned(items.value, base, arrivals) <==> Reported(arrivals, marks))
  {
    var st := Statuses(marks);
    assert st[0..] == st;
    ItemsRead(data, p, st, marks, 0, base, start);
    var items := ItemsOf(marks, 0, base, start);
    forall k | 0 <= k < |arrivals|
      ensures ItemReturned(items[k], k, base, arrivals[k]) <==> (marks[k].status != NOT_RECV <==> arrivals[k].Some?)
    {
      ItemsAt(marks, 0, base, start, k);
      if marks[k].status != NOT_RECV {
        TimesAccurate(arrivals, start, k);
      }
    }
  }

  lemma ItemLost(data: seq<int>, p: int, marks: seq<Mark>, base: int, start: int, arrivals: seq<Option<int>>)
    requires 0 <= p && marks == Marks(arrivals, start)
    requires AreStatuses(Statuses(marks)) && !NoLargeInVector(Statuses(marks), 0)
    ensures var items := ReadItems(data, p, Seen(Statuses(marks), 0), 0, base, start);
            items.Some? ==> !AllReturned(items.value, base, arrivals)
  {
    var k := SomeLost(Statuses(marks));
    TimesAccurate(arrivals, start, k);
    FlagsRead(data, p, Seen(Statuses(marks), 0), 0, base, start, k);
    var items := ReadItems(data, p, Seen(Statuses(marks), 0), 0, base, start);
    assert items.Some? ==> !ItemReturned(items.value[k], k, base, arrivals[k]);
  }

  lemma PacketHeader(sender: int, media: int, base: int, fb: int, count: int, reference: int, body: seq<int>,
                     data: seq<int>)
    requires IsHeader(sender, media, base, fb) && 0 <= count < 0x1_0000 && 0 <= reference < 0x100_0000
    requires |body| <= 4 * WINDOW + 3 && data == Packet(sender, media, base, fb, count, reference, body)
    ensures |data| >= 20 && data[0] == 0x8F && Read32(data, 4) == sender && Read32(data, 8) == media
    ensures Read16(data, 12) == base && Read16(data, 14) == count && data[19] == fb
    ensures data[16] * 0x1_0000 + data[17] * 256 + data[18] == reference
    ensures data == data[..20] + body
  {
    var words := (20 + |body|) / 4 - 1;
    assert data[..20] == Header(words, sender, media, base, count, reference, fb);
    HeaderRead(data, words, sender, media, base, count, reference, fb);
  }

  lemma AllChunksRead(data: seq<int>, st: seq<int>)
    requires AreStatuses(st) && Occurs(data, 20, ChunkBytes(st, 0))
    ensures ReadChunks(data, 20, |st|, []) == Some(Walk(Seen(st, 0), 20 + |ChunkBytes(st, 0)|))
  {
    ChunksRead(data, 20, st, 0, []);
    assert [] + Seen(st, 0) == Seen(st, 0);
  }

  lemma FeedbackBody(data: seq<int>, marks: seq<Mark>)
    requires |data| >= 20 && |marks| <= WINDOW && forall i | 0 <= i < |marks| :: IsMark(marks[i])
    requires data == data[..20] + Body(marks)
    ensures var st := Statuses(marks);
            && AreStatuses(st) && Occurs(data, 20 + |ChunkBytes(st, 0)|, DeltaBytes(marks))
            && ReadChunks(data, 20, |marks|, []) == Some(Walk(Seen(st, 0), 20 + |ChunkBytes(st, 0)|))
  {
    BodyOccurs(data, data[..20], marks);
    AllChunksRead(data, Statuses(marks));
  }

  lemma ParsedBody(sender: int, media: int, base: int, fb: int, reference: int, marks: seq<Mark>, data: seq<int>,
                   st: seq<int>, p: int)
    requires |data| >= 20 && data[0] == 0x8F && Read32(data, 4) == sender && Read32(data, 8) == media
    requires 1 <= |marks| <= WINDOW && Read16(data, 12) == base && Read16(data, 14) == |marks| && data[19] == fb
    requires data[16] * 0x1_0000 + data[17] * 256 + data[18] == reference
    requires (forall i | 0 <= i < |marks| :: IsMark(marks[i])) && data == data[..20] + Body(marks)
    requires st == Statuses(marks) && AreStatuses(st) && p == 20 + |ChunkBytes(st, 0)|
    ensures Occurs(data, p, DeltaBytes(marks))
    ensures ParsedAs(Parse(data), sender, media, base, fb, ReadItems(data, p, Seen(st, 0), 0, base, reference * 64000))
  {
    FeedbackBody(data, marks);
    ParsedItems(data, base, |marks|, reference * 64000, Seen(st, 0), p);
  }

  /** What the parser makes of a whole packet. */
  lemma ParsedFeedback(sender: int, media: int, base: int, fb: int, reference: int, marks: seq<Mark>, body: seq<int>,
                       data: seq<int>, st: seq<int>, p: int)
    requires IsHeader(sender, media, base, fb) && 1 <= |marks| <= WINDOW && 0 <= reference < 0x100_0000
    requires (forall i | 0 <= i < |marks| :: IsMark(marks[i])) && body == Body(marks)
    requires data == Packet(sender, media, base, fb, |marks|, reference, body)
    requires st == Statuses(marks) && AreStatuses(st) && p == 20 + |ChunkBytes(st, 0)|
    ensures Occurs(data, p, DeltaBytes(marks))
    ensures ParsedAs(Parse(data), sender, media, base, fb, ReadItems(data, p, Seen(st, 0), 0, base, reference * 64000))
  {
    PacketHeader(sender, media, base, fb, |marks|, reference, body, data);
    ParsedBody(sender, media, base, fb, reference, marks, data, st, p);
  }

  lemma ItemsExactly(data: seq<int>, p: int, marks: seq<Mark>, st: seq<int>, base: int, start: int,
                     arrivals: seq<Option<int>>)
    requires marks == Marks(arrivals, start) && st == Statuses(marks) && AreStatuses(st)
    requires Occurs(data, p, DeltaBytes(marks))
    ensures var items := ReadItems(data, p, Seen(st, 0), 0, base, start);
            items.Some? && AllReturned(items.value, base, arrivals)
            <==> NoLargeInVector(st, 0) && Reported(arrivals, marks)
  {
    SeenExactly(st, 0);
    assert st[0..] == st;
    if NoLargeInVector(st, 0) {
      ItemsReturned(data, p, marks, base, start, arrivals);
    } else {
      ItemLost(data, p, marks, base, start, arrivals);
    }
  }

  lemma ReturnedAs(r: Option<Parsed>, sender: int, media: int, base: int, fb: int, items: Option<seq<Item>>,
                   arrivals: seq<Option<int>>)
    requires ParsedAs(r, sender, media, base, fb, items)
    ensures Returned(r, sender, media, base, fb, arrivals) <==> items.Some? && AllReturned(items.value, base, arrivals)
  {
  }

  lemma FeedbackParts(sender: int, media: int, base: int, fb: int, arrivals: seq<Option<int>>, data: seq<int>)
    returns (marks: seq<Mark>, reference: int, body: seq<int>)
    requires IsHeader(sender, media, base, fb) && 1 <= |arrivals| <= WINDOW
    requires data == Feedback(sender, media, base, fb, arrivals)
    ensures marks == MarksOf(arrivals) == Marks(arrivals, reference * 64000) && reference == Reference(arrivals)
    ensures body == Body(marks) && data == Packet(sender, media, base, fb, |marks|, reference, body)
  {
    marks, reference, body := MarksOf(arrivals), Reference(arrivals), Body(MarksOf(arrivals));
  }

  lemma ReportedReturned(sender: int, media: int, base: int, fb: int, arrivals: seq<Option<int>>, marks: seq<Mark>,
                         reference: int, body: seq<int>, data: seq<int>)
    requires IsHeader(sender, media, base, fb) && 1 <= |arrivals| <= WINDOW && 0 <= reference < 0x100_0000
    requires marks == Marks(arrivals, reference * 64000) && body == Body(marks)
    requires data == Packet(sender, media, base, fb, |marks|, reference, body)
    ensures Returned(Parse(data), sender, media, base, fb, arrivals)
            <==> NoLargeInVector(Statuses(marks), 0) && Reported(arrivals, marks)
  {
    var st := Statuses(marks);
    StatusesInRange(marks);
    var p := 20 + |ChunkBytes(st, 0)|;
    ParsedFeedback(sender, media, base, fb, reference, marks, body, data, st, p);
    var items := ReadItems(data, p, Seen(st, 0), 0, base, reference * 64000);
    ItemsExactly(data, p, marks, st, base, reference * 64000, arrivals);
    ReturnedAs(Parse(data), sender, media, base, fb, items, arrivals);
  }

  /** The round trip holds exactly when no vector chunk spans a LARGE delta and
      every received packet is in range of the one before it. */
  lemma RoundTrip(sender: int, media: int, base: int, fb: int, arrivals: seq<Option<int>>, data: seq<int>)
    requires IsHeader(sender, media, base, fb) && 1 <= |arrivals| <= WINDOW
    requires data == Feedback(sender, media, base, fb, arrivals)
    ensures Returned(Parse(data), sender, media, base, fb, arrivals)
            <==> NoLargeInVector(Statuses(MarksOf(arrivals)), 0) && WindowInRange(arrivals)
  {
    var marks, reference, body := FeedbackParts(sender, media, base, fb, arrivals, data);
    WholeTicks(reference);
    ReportedExactly(arrivals, reference * 64000);
    ReportedReturned(sender, media, base, fb, arrivals, marks, reference, body, data);
  }

  /** Within the 24 bits of the reference time, about twelve days, and with gaps
      of at most eight seconds, only the vector chunks matter. */
  lemma SteadyRoundTrip(sender: int, media: int, base: int, fb: int, arrivals: seq<Option<int>>, first: int,
                        data: seq<int>)
    requires IsHeader(sender, media, base, fb) && 1 <= |arrivals| <= WINDOW
    requires First(arrivals) == Some(first) && 0 <= first < 0x100_0000 * 64000 && Steady(arrivals, first)
    requires data == Feedback(sender, media, base, fb, arrivals)
    ensures Returned(Parse(data), sender, media, base, fb, arrivals)
            <==> NoLargeInVector(Statuses(MarksOf(arrivals)), 0)
  {
    RoundTrip(sender, media, base, fb, arrivals, data);
    SteadyInRange(arrivals, first);
  }

  /** Once the reference time has wrapped the window does not come back. */
  lemma WrappedLost(sender: int, media: int, base: int, fb: int, arrivals: seq<Option<int>>, first: int,
                    data: seq<int>)
    requires IsHeader(sender, media, base, fb) && 1 <= |arrivals| <= WINDOW
    requires First(arrivals) == Some(first) && first >= 0x100_0000 * 64000
    requires data == Feedback(sender, media, base, fb, arrivals)
    ensures !Returned(Parse(data), sender, media, base, fb, arrivals)
  {
    RoundTrip(sender, media, base, fb, arrivals, data);
    WrappedOutOfRange(arrivals, first);
  }

  lemma FarApart(arrivals: seq<Option<int>>)
    requires arrivals == [Some(0), Some(10_000_000)]
    ensures NoLargeInVector(Statuses(MarksOf(arrivals)), 0) && !WindowInRange(arrivals)
  {
    assert Reference(arrivals) == 0 && arrivals[1..][0] == Some(10_000_000);
    var marks := MarksOf(arrivals);
    assert marks[0] == Mark(SMALL, 0) && marks[1] == Marks(arrivals[1..], 0)[0] == Mark(NOT_RECV, 0);
    var st := Statuses(marks);
    assert st == [SMALL, NOT_RECV];
    assert RunEnd(st, 0, 1) == 1 && ChunkEnd(st, 0) == 2;
    assert !InRange(arrivals[1..], 0);
  }

  /** Ten seconds without a packet: the next one is received and reported lost,
      whatever the chunks. */
  lemma FarApartLost(sender: int, media: int, base: int, fb: int, arrivals: seq<Option<int>>, data: seq<int>)
    requires IsHeader(sender, media, base, fb) && arrivals == [Some(0), Some(10_000_000)]
    requires data == Feedback(sender, media, base, fb, arrivals)
    ensures !Returned(Parse(data), sender, media, base, fb, arrivals)
    ensures NoLargeInVector(Statuses(MarksOf(arrivals)), 0)
  {
    FarApart(arrivals);
    RoundTrip(sender, media, base, fb, arrivals, data);
  }

  lemma SmallThenLarge(arrivals: seq<Option<int>>)
    requires arrivals == [Some(0), Some(100_000)]
    ensures !NoLargeInVector(Statuses(MarksOf(arrivals)), 0)
  {
    var marks := MarksOf(arrivals);
    assert Reference(arrivals) == 0 && marks == Marks(arrivals, 0);
    assert marks[0] == Mark(SMALL, 0) && marks[1] == Marks(arrivals[1..], 0)[0] == Mark(LARGE, 400);
    var st := Statuses(marks);
    assert RunEnd(st, 0, 1) == 1 && ChunkEnd(st, 0) == 2;
    assert st[1] == LARGE;
    assert LargeInFront(st, 0);
  }

  /** A SMALL delta followed by a LARGE one defeats the encoder's test, which
      looks at the first status only: two packets 100 ms apart do not come back. */
  lemma SmallThenLargeLost(sender: int, media: int, base: int, fb: int, arrivals: seq<Option<int>>)
    requires IsHeader(sender, media, base, fb) && arrivals == [Some(0), Some(100_000)]
    ensures !Returned(Parse(Feedback(sender, media, base, fb, arrivals)), sender, media, base, fb, arrivals)
  {
    SmallThenLarge(arrivals);
    RoundTrip(sender, media, base, fb, arrivals, Feedback(sender, media, base, fb, arrivals));
  }

  /** The feedback for a full window fits the 1200 bytes that callers provide. */
  lemma FeedbackSize(sender: int, media: int, base: int, fb: int, arrivals: seq<Option<int>>)
    requires IsHeader(sender, media, base, fb) && |arrivals| <= WINDOW
    ensures |Feedback(sender, media, base, fb, arrivals)| <= 1044
  {
    var n := |Body(MarksOf(arrivals))|;
    assert n <= 4 * WINDOW + 3 && n % 4 == 0;
  }

  // ----- steps of the loops that write and read a packet -----

  lemma {:induction false} VectorNext(st: seq<int>, i: int, e: int, n: int)
    requires 0 <= i <= e < |st| && 0 <= n
    ensures Vector(st, i, e + 1, n) ==
            Vector(st, i, e, n) + if st[e] == SMALL && e - i < n then Pow2(n - 1 - (e - i)) else 0
    decreases n
  {
    if n > 0 {
      VectorNext(st, i, e, n - 1);
    }
  }

  lemma {:induction false} VectorEmpty(st: seq<int>, i: int, n: int)
    requires 0 <= i <= |st| && 0 <= n
    ensures Vector(st, i, i, n) == 0
    decreases n
  {
    if n > 0 {
      VectorEmpty(st, i, n - 1);
    }
  }
}
