/** The receiver's arrival window, the loops that write a feedback packet into a
    buffer, and the loops that read one. */
module TwccReceiver {
  import opened Bytes
  import opened Collections
  import opened Words
  import opened TwccFormat

  // ----- status chunks -----

  /** The length of the run at i. */
  method RunAt(st: seq<int>, i: int) returns (run: int)
    requires 0 <= i < |st| <= WINDOW
    ensures i + run == RunEnd(st, i, i + 1)
  {
    run := 1;
    while i + run < |st| && st[i + run] == st[i] && run < 0x1FFF
      invariant 1 <= run <= |st| - i && RunEnd(st, i, i + 1) == RunEnd(st, i, i + run)
    {
      run := run + 1;
    }
  }

  /** The status-vector chunk for n statuses from i on. */
  method VectorAt(st: seq<int>, i: int, n: int) returns (chunk: int)
    requires 0 <= i && 0 <= n <= 14 && i + n <= |st|
    ensures chunk == 0x8000 + Vector(st, i, i + n, 14)
  {
    chunk := 0x8000;
    VectorEmpty(st, i, 14);
    var k := 0;
    while k < n
      invariant 0 <= k <= n && chunk == 0x8000 + Vector(st, i, i + k, 14)
    {
      VectorNext(st, i, i + k, 14);
      if st[i + k] == SMALL {
        chunk := chunk + Pow2(13 - k);
      }
      k := k + 1;
    }
  }

  /** The chunk at i, and how many statuses it covers. */
  method ChunkAt(st: seq<int>, i: int) returns (chunk: int, n: int)
    requires 0 <= i < |st| <= WINDOW
    ensures chunk == Chunk(st, i) && i + n == ChunkEnd(st, i)
  {
    var run := RunAt(st, i);
    if run >= 3 || st[i] == LARGE {
      return st[i] * 0x2000 + run, run;
    }
    n := if |st| - i > 14 then 14 else |st| - i;
    chunk := VectorAt(st, i, n);
  }

  // ----- writing -----

  lemma ChunkStep(all: seq<int>, before: seq<int>, st: seq<int>, i: int)
    requires AreStatuses(st) && 0 <= i < |st| && all == before + ChunkBytes(st, i)
    ensures 0 <= Chunk(st, i) < 0x1_0000 && |all| >= |before| + 2
    ensures all == before + U16(Chunk(st, i)) + ChunkBytes(st, ChunkEnd(st, i))
  {
    ChunkInRange(st, i);
    ConcatAssociates(before, U16(Chunk(st, i)), ChunkBytes(st, ChunkEnd(st, i)));
  }

  /** The chunk loop: all chunks, or false if the buffer ends first. */
  method WriteChunks(out: array<int>, p: int, st: seq<int>) returns (ok: bool, q: int)
    requires 0 <= p <= out.Length && AreStatuses(st)
    modifies out
    ensures ok <==> p + |ChunkBytes(st, 0)| <= out.Length
    ensures ok ==> q == p + |ChunkBytes(st, 0)| && out[..q] == old(out[..p]) + ChunkBytes(st, 0)
  {
    q := p;
    var i := 0;
    ghost var all := old(out[..p]) + ChunkBytes(st, 0);
    while i < |st|
      invariant 0 <= i <= |st| && p <= q <= out.Length && all == out[..q] + ChunkBytes(st, i)
    {
      ChunkStep(all, out[..q], st, i);
      if out.Length < q + 2 {
        return false, q;
      }
      var chunk, n := ChunkAt(st, i);
      Write(out, q, U16(chunk));
      q := q + 2;
      i := i + n;
    }
    return true, q;
  }

  ghost predicate AreMarks(marks: seq<Mark>)
  {
    forall i | 0 <= i < |marks| :: IsMark(marks[i])
  }

  lemma DeltaStep(all: seq<int>, before: seq<int>, marks: seq<Mark>, j: int)
    requires 0 <= j < |marks| && AreMarks(marks[j..]) && all == before + DeltaBytes(marks[j..])
    ensures IsMark(marks[j]) && AreMarks(marks[j + 1..])
    ensures all == before + DeltaBytesOf(marks[j]) + DeltaBytes(marks[j + 1..])
  {
    assert marks[j..][0] == marks[j] && marks[j..][1..] == marks[j + 1..];
    ConcatAssociates(before, DeltaBytesOf(marks[j]), DeltaBytes(marks[j + 1..]));
  }

  /** One delta, in one byte or two; nothing for a packet not received. */
  method WriteDelta(out: array<int>, p: int, m: Mark) returns (ok: bool, q: int)
    requires 0 <= p <= out.Length && IsMark(m)
    modifies out
    ensures ok <==> p + |DeltaBytesOf(m)| <= out.Length
    ensures ok ==> q == p + |DeltaBytesOf(m)| && out[..q] == old(out[..p]) + DeltaBytesOf(m)
  {
    if m.status == SMALL {
      if p + 1 > out.Length {
        return false, p;
      }
      Write(out, p, [m.delta % 256]);
      return true, p + 1;
    } else if m.status == LARGE {
      if p + 2 > out.Length {
        return false, p;
      }
      Write(out, p, U16(m.delta % 0x1_0000));
      return true, p + 2;
    }
    return true, p;
  }

  /** The delta loop. */
  method WriteDeltas(out: array<int>, p: int, marks: seq<Mark>) returns (ok: bool, q: int)
    requires 0 <= p <= out.Length && AreMarks(marks)
    modifies out
    ensures ok <==> p + |DeltaBytes(marks)| <= out.Length
    ensures ok ==> q == p + |DeltaBytes(marks)| && out[..q] == old(out[..p]) + DeltaBytes(marks)
  {
    q := p;
    ok := true;
    var j := 0;
    ghost var all := old(out[..p]) + DeltaBytes(marks);
    assert marks[0..] == marks;
    while j < |marks|
      invariant 0 <= j <= |marks| && p <= q <= out.Length && AreMarks(marks[j..])
      invariant all == out[..q] + DeltaBytes(marks[j..])
    {
      DeltaStep(all, out[..q], marks, j);
      ok, q := WriteDelta(out, q, marks[j]);
      if !ok {
        return;
      }
      j := j + 1;
    }
    assert marks[j..] == [];
    return true, q;
  }

  /** The padding loop. */
  method WritePadding(out: array<int>, p: int) returns (ok: bool, q: int)
    requires 0 <= p <= out.Length
    modifies out
    ensures ok <==> p + Missing(p) <= out.Length
    ensures ok ==> q == p + Missing(p) && out[..q] == old(out[..p]) + Zeros(Missing(p))
  {
    q := p;
    ghost var end := p + Missing(p);
    ghost var all := old(out[..p]) + Zeros(end - p);
    while q % 4 != 0
      invariant p <= q <= end && q <= out.Length
      invariant all == out[..q] + Zeros(end - q)
      decreases end - q
    {
      if q >= out.Length {
        return false, q;
      }
      ConcatAssociates(out[..q], [0], Zeros(end - q - 1));
      out[q] := 0;
      q := q + 1;
    }
    return true, q;
  }

  /** Chunks, deltas and padding after a header of 20 bytes. */
  method WriteBody(out: array<int>, marks: seq<Mark>) returns (ok: bool, q: int)
    requires out.Length >= 20 && |marks| <= WINDOW && AreMarks(marks)
    modifies out
    ensures ok <==> 20 + |Body(marks)| <= out.Length
    ensures ok ==> q == 20 + |Body(marks)| && out[..q] == old(out[..20]) + Body(marks)
  {
    var st := Statuses(marks);
    ghost var body := Body(marks);
    ghost var chunks, deltas, pad := BodyParts(out[..20], marks, body);
    ok, q := WriteChunks(out, 20, st);
    if ok {
      ok, q := WriteDeltas(out, q, marks);
    }
    if ok {
      ok, q := WritePadding(out, q);
    }
  }

  lemma BodyParts(head: seq<int>, marks: seq<Mark>, body: seq<int>) returns (a: seq<int>, b: seq<int>, pad: seq<int>)
    requires |head| == 20 && |marks| <= WINDOW && AreMarks(marks) && body == Body(marks)
    ensures AreStatuses(Statuses(marks)) && a == ChunkBytes(Statuses(marks), 0) && b == DeltaBytes(marks)
    ensures pad == Zeros(Missing(20 + |a| + |b|)) && |body| == |a| + |b| + |pad|
    ensures head + body == head + a + b + pad
  {
    StatusesInRange(marks);
    a, b := ChunkBytes(Statuses(marks), 0), DeltaBytes(marks);
    pad := Zeros(Missing(20 + |a| + |b|));
    assert body == a + b + pad;
    ConcatAssociates(head, a + b, pad);
    ConcatAssociates(head, a, b);
  }

  /** Header, body, then the length patched into the header. */
  method WritePacket(sender: int, media: int, base: int, fb: int, reference: int, marks: seq<Mark>, out: array<int>)
    returns (ok: bool, len: int)
    requires IsHeader(sender, media, base, fb) && 0 <= reference < 0x100_0000 && out.Length >= 32
    requires |marks| <= WINDOW && AreMarks(marks)
    modifies out
    ensures var f := Packet(sender, media, base, fb, |marks|, reference, Body(marks));
            (ok <==> out.Length >= |f|) && (ok ==> len == |f| && out[..len] == f)
  {
    Write(out, 0, Header(0, sender, media, base, |marks|, reference, fb));
    ghost var body := Body(marks);
    ok, len := WriteBody(out, marks);
    if ok {
      ghost var all := out[..len];
      var words := len / 4 - 1;
      out[2] := words / 256;
      out[3] := words % 256;
      Patched(sender, media, base, fb, |marks|, reference, body, all, out[..len]);
    }
  }

  lemma Patched(sender: int, media: int, base: int, fb: int, count: int, reference: int, body: seq<int>,
                before: seq<int>, after: seq<int>)
    requires IsHeader(sender, media, base, fb) && 0 <= count <= WINDOW && 0 <= reference < 0x100_0000
    requires |body| <= 4 * WINDOW + 3 && before == Header(0, sender, media, base, count, reference, fb) + body
    requires var words := |before| / 4 - 1; after == before[2 := words / 256][3 := words % 256]
    ensures after == Packet(sender, media, base, fb, count, reference, body)
  {
    assert after[20..] == body;
  }

  /** The marks of a window, from the reference time on. */
  method MarkAll(window: seq<Option<int>>, start: int) returns (marks: seq<Mark>)
    ensures marks == Marks(window, start)
  {
    marks := [];
    var i, prev := 0, start;
    assert window[0..] == window;
    while i < |window|
      invariant 0 <= i <= |window| && Marks(window, start) == marks + Marks(window[i..], prev)
    {
      var m := Quantize(window[i], prev);
      assert window[i..][0] == window[i] && window[i..][1..] == window[i + 1..];
      ConcatAssociates(marks, [m], Marks(window[i + 1..], Advance(m, prev)));
      marks := marks + [m];
      prev := Advance(m, prev);
      i := i + 1;
    }
    assert window[i..] == [];
  }

  /** The first arrival, as the search for the reference time finds it. */
  method FindFirst(window: seq<Option<int>>) returns (first: int)
    ensures first < 0 ==> First(window).None?
    ensures first >= 0 ==> first < |window| && window[first].Some? && First(window) == window[first]
  {
    var i := 0;
    assert window[0..] == window;
    while i < |window|
      invariant 0 <= i <= |window| && First(window) == First(window[i..])
    {
      assert window[i..][0] == window[i] && window[i..][1..] == window[i + 1..];
      if window[i].Some? {
        return i;
      }
      i := i + 1;
    }
    return -1;
  }

  // ----- the arrival window -----

  /** `seq_after`: the distance from a to b as a signed 16-bit number. */
  function Distance(a: int, b: int): (d: int)
    ensures -0x8000 <= d < 0x8000 && (d - (b - a)) % 0x1_0000 == 0
  {
    var d := (b - a) % 0x1_0000;
    if d >= 0x8000 then d - 0x1_0000 else d
  }

  lemma DistanceIs(a: int, b: int, k: int)
    requires 0 <= a < 0x1_0000 && 0 <= b < 0x1_0000 && 0 <= k < WINDOW
    ensures Distance(a, b) == k <==> b == (a + k) % 0x1_0000
  {
  }

  function Padded(window: seq<Option<int>>, n: int): (r: seq<Option<int>>)
    ensures |r| == if n > |window| then n else |window|
    ensures forall k | 0 <= k < |r| :: r[k] == if k < |window| then window[k] else None
    decreases n - |window|
  {
    if n <= |window| then window else Padded(window + [None], n)
  }

  /** What a packet at distance d from the base does to the window. */
  function Record(window: seq<Option<int>>, d: int, time: int): (r: seq<Option<int>>)
    ensures |window| <= |r| && (|window| <= WINDOW ==> |r| <= WINDOW)
  {
    if d < 0 || d >= WINDOW then window
    else
      var w := Padded(window, d + 1);
      if w[d].Some? then w else w[d := Some(time)]
  }

  datatype Arrival = Arrival(number: int, time: int)

  /** The window after a run of packets since the last feedback. */
  function Window(packets: seq<Arrival>): (r: seq<Option<int>>)
    requires packets != []
    ensures 1 <= |r| <= WINDOW
  {
    var last := packets[|packets| - 1];
    if |packets| == 1 then [Some(last.time)]
    else Record(Window(packets[..|packets| - 1]), Distance(packets[0].number, last.number), last.time)
  }

  /** When a number was first seen. */
  function FirstTime(packets: seq<Arrival>, number: int): Option<int>
  {
    if packets == [] then None
    else
      var last := packets[|packets| - 1];
      var before := FirstTime(packets[..|packets| - 1], number);
      if before.None? && last.number == number then Some(last.time) else before
  }

  /** Entry k of the window is the first arrival of number base + k, whatever
      came in between: late, repeated, out of order or out of the window. */
  lemma {:induction false} WindowExactly(packets: seq<Arrival>, k: int)
    requires packets != [] && 0 <= k < WINDOW
    requires forall i | 0 <= i < |packets| :: 0 <= packets[i].number < 0x1_0000
    ensures (if k < |Window(packets)| then Window(packets)[k] else None)
            == FirstTime(packets, (packets[0].number + k) % 0x1_0000)
  {
    var n := |packets| - 1;
    var base, last := packets[0].number, packets[n];
    if n == 0 {
      assert FirstTime(packets[..0], (base + k) % 0x1_0000) == None;
    } else {
      assert packets[..n][0] == packets[0];
      WindowExactly(packets[..n], k);
      DistanceIs(base, last.number, k);
    }
  }

  class Receiver {
    const window: array<Option<int>>
    var base: int
    var count: int
    var haveBase: bool
    var fb: int

    /** A window that has a base has its first packet, so the case of a window
        with nothing received in it cannot arise. */
    ghost predicate Valid()
      reads this, window
    {
      && window.Length == WINDOW && 0 <= base < 0x1_0000 && 0 <= fb < 256 && 0 <= count <= WINDOW
      && (if haveBase then count >= 1 && window[0].Some? else count == 0)
      && forall k | count <= k < WINDOW :: window[k] == None
    }

    ghost function Contents(): seq<Option<int>>
      requires Valid()
      reads this, window
    {
      window[..count]
    }

    constructor ()
      ensures Valid() && Contents() == [] && !haveBase && fb == 0 && fresh(window)
    {
      window := new Option<int>[WINDOW](_ => None);
      base, count, haveBase, fb := 0, 0, false, 0;
    }

    method OnPacket(sn: int, time: int)
      requires Valid() && 0 <= sn < 0x1_0000
      modifies this, window
      ensures Valid() && haveBase && fb == old(fb)
      ensures !old(haveBase) ==> base == sn && Contents() == [Some(time)]
      ensures old(haveBase) ==> base == old(base) && Contents() == Record(old(Contents()), Distance(base, sn), time)
    {
      if !haveBase {
        base, count, haveBase := sn, 1, true;
        window[0] := Some(time);
        return;
      }
      var delta := Distance(base, sn);
      if delta < 0 {
        return;
      }
      if delta >= WINDOW {
        return;
      }
      if delta + 1 > count {
        count := delta + 1;
      }
      assert window[..count] == Padded(old(Contents()), delta + 1);
      if window[delta].Some? {
        return;
      }
      window[delta] := Some(time);
    }

    /** `rtc_twcc_receiver_init`, keeping the feedback counter */
    method Reset()
      requires window.Length == WINDOW && 0 <= fb < 256
      modifies this, window
      ensures Valid() && Contents() == [] && !haveBase && fb == old(fb)
    {
      base, count, haveBase := 0, 0, false;
      var i := 0;
      while i < WINDOW
        invariant 0 <= i <= WINDOW && count == 0 && !haveBase && base == 0 && fb == old(fb)
        invariant forall k | 0 <= k < i :: window[k] == None
      {
        window[i] := None;
        i := i + 1;
      }
    }

    /** Succeeds exactly when there is something to report and room for it; then
        the buffer holds the packet for the window and the window is empty. */
    method BuildFeedback(sender: int, media: int, out: array<int>) returns (ok: bool, len: int)
      requires Valid() && IsHeader(sender, media, base, fb)
      modifies this, window, out
      ensures Valid() && (ok ==> Contents() == [] && !haveBase)
      ensures fb == if old(haveBase) && out.Length >= 32 then (old(fb) + 1) % 256 else old(fb)
      ensures !ok ==> Contents() == old(Contents()) && base == old(base) && haveBase == old(haveBase)
      ensures var f := Feedback(sender, media, old(base), old(fb), old(Contents()));
              && (ok <==> old(haveBase) && out.Length >= 32 && out.Length >= |f|)
              && (ok ==> len == |f| && out[..len] == f)
    {
      len := 0;
      if !haveBase || count == 0 {
        return false, 0;
      }
      if out.Length < 32 {
        return false, 0;
      }
      var arrivals := window[..count];
      var first := FindFirst(arrivals);
      assert arrivals[0].Some?;
      var reference := arrivals[first].value / 64000 % 0x100_0000;
      ReferenceOf(arrivals, arrivals[first].value);
      var marks := MarkAll(arrivals, reference * 64000);
      ok, len := WritePacket(sender, media, base, fb, reference, marks, out);
      fb := (fb + 1) % 256;
      if !ok {
        return;
      }
      Reset();
    }
  }
}
