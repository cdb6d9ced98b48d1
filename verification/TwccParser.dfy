/** The loops of the feedback parser. */
module TwccParser {
  import opened Bytes
  import opened Collections
  import opened Words
  import opened TwccFormat

  /** The statuses of one chunk, added until the number needed is reached. */
  method AddChunk(chunk: int, status: seq<int>, count: int) returns (r: seq<int>)
    requires 0 <= chunk < 0x1_0000 && |status| <= count
    ensures r == AddFrom(chunk, 0, status, count)
  {
    r := status;
    var k := 0;
    if chunk < 0x8000 {
      var s, run := chunk / 0x2000, chunk % 0x2000;
      while k < run && |r| < count
        invariant 0 <= k <= run && |r| <= count && AddFrom(chunk, 0, status, count) == AddFrom(chunk, k, r, count)
      {
        r := r + [s];
        k := k + 1;
      }
    } else if chunk / 0x4000 % 2 == 0 {
      while k < 14 && |r| < count
        invariant 0 <= k <= 14 && |r| <= count && AddFrom(chunk, 0, status, count) == AddFrom(chunk, k, r, count)
      {
        var v := Shr(chunk, 13 - k) % 2;
        r := r + [if v == 1 then SMALL else NOT_RECV];
        k := k + 1;
      }
    } else {
      while k < 7 && |r| < count
        invariant 0 <= k <= 7 && |r| <= count && AddFrom(chunk, 0, status, count) == AddFrom(chunk, k, r, count)
      {
        r := r + [Shr(chunk, 12 - 2 * k) % 4];
        k := k + 1;
      }
    }
  }

  /** The chunk loop. */
  method ReadStatuses(data: seq<int>, count: int) returns (ok: bool, status: seq<int>, p: int)
    requires AreBytes(data) && |data| >= 20 && 0 <= count
    ensures var r := ReadChunks(data, 20, count, []);
            (ok <==> r.Some?) && (ok ==> status == r.value.status && p == r.value.at)
  {
    status, p := [], 20;
    while |status| < count
      invariant |status| <= count && 20 <= p <= |data|
      invariant ReadChunks(data, 20, count, []) == ReadChunks(data, p, count, status)
      decreases |data| - p
    {
      if p + 2 > |data| {
        return false, status, p;
      }
      status := AddChunk(Read16(data, p), status, count);
      p := p + 2;
    }
    return true, status, p;
  }

  /** The delta loop. */
  method ReadDeltas(data: seq<int>, start: int, status: seq<int>, base: int, time: int)
    returns (ok: bool, items: seq<Item>)
    requires AreBytes(data) && 0 <= start
    ensures var r := ReadItems(data, start, status, 0, base, time);
            (ok <==> r.Some?) && (ok ==> items == r.value)
  {
    var i, p, cur := 0, start, time;
    items := [];
    ghost var all := ReadItems(data, start, status, 0, base, time);
    if all.Some? {
      assert [] + all.value == all.value;
    }
    while i < |status|
      invariant 0 <= i <= |status| && 0 <= p
      invariant all == AddTo(items, ReadItems(data, p, status, i, base, cur))
    {
      var number := (base + i) % 0x1_0000;
      var item := Item(number, false, 0);
      if status[i] == SMALL {
        if p + 1 > |data| {
          return false, items;
        }
        cur := cur + Signed(data[p], 256) * TICK;
        p := p + 1;
        item := Item(number, true, cur);
      } else if status[i] == LARGE {
        if p + 2 > |data| {
          return false, items;
        }
        cur := cur + Signed(Read16(data, p), 0x1_0000) * TICK;
        p := p + 2;
        item := Item(number, true, cur);
      } else if status[i] != NOT_RECV {
        return false, items;
      }
      AddOne(items, item, ReadItems(data, p, status, i + 1, base, cur));
      items := items + [item];
      i := i + 1;
    }
    return true, items;
  }

  method ParseBody(data: seq<int>, base: int, count: int, start: int) returns (ok: bool, items: seq<Item>)
    requires AreBytes(data) && |data| >= 20 && 0 <= count
    ensures var r := ReadBody(data, base, count, start);
            (ok <==> r.Some?) && (ok ==> items == r.value)
  {
    var p;
    var status;
    items := [];
    ok, status, p := ReadStatuses(data, count);
    if ok {
      ok, items := ReadDeltas(data, p, status, base, start);
    }
  }

  /** Reads exactly what `Parse` says, field by field. */
  method ParseFeedback(data: seq<int>) returns (ok: bool, parsed: Parsed)
    requires AreBytes(data)
    ensures (ok <==> Parse(data).Some?) && (ok ==> parsed == Parse(data).value)
  {
    parsed := Parsed(0, 0, 0, 0, []);
    if |data| < 20 {
      return false, parsed;
    }
    if data[0] / 64 % 4 != 2 {
      return false, parsed;
    }
    var base, count := Read16(data, 12), Read16(data, 14);
    var reference := data[16] * 0x1_0000 + data[17] * 256 + data[18];
    if count == 0 || count > WINDOW {
      return false, parsed;
    }
    var items;
    ok, items := ParseBody(data, base, count, reference * 64000);
    if !ok {
      return;
    }
    parsed := Parsed(Read32(data, 4), Read32(data, 8), base, data[19], items);
  }
}
