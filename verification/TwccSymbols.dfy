/** Status vectors of two-bit symbols: chunks that other senders write and the
    feedback parser reads. */
module TwccSymbols {
  import opened Bytes
  import opened Collections
  import opened TwccFormat
  import opened Words

  ghost predicate AreSymbols(st: seq<int>)
  {
    forall k | 0 <= k < |st| :: 0 <= st[k] < 4
  }

  function SymbolAt(st: seq<int>, k: int): (s: int)
    requires 0 <= k && AreSymbols(st)
    ensures 0 <= s < 4
  {
    if k < |st| then st[k] else NOT_RECV
  }

  /** The two bits that announce two-bit symbols, and the first n symbols from i on. */
  function Pairs(st: seq<int>, i: int, n: int): (v: int)
    requires 0 <= i && 0 <= n && AreSymbols(st)
    ensures v >= 0
  {
    if n == 0 then 3 else 4 * Pairs(st, i, n - 1) + SymbolAt(st, i + n - 1)
  }

  lemma {:induction false} PairsBound(st: seq<int>, i: int, n: int)
    requires 0 <= i && 0 <= n && AreSymbols(st)
    ensures 3 * Pow2(2 * n) <= Pairs(st, i, n) < 4 * Pow2(2 * n)
  {
    if n > 0 {
      PairsBound(st, i, n - 1);
      assert Pow2(2 * n) == 2 * Pow2(2 * n - 1) && Pow2(2 * n - 1) == 2 * Pow2(2 * n - 2);
    }
  }

  lemma IsSymbols(st: seq<int>, i: int, n: int)
    requires 0 <= i && n == 7 && AreSymbols(st)
    ensures 0xC000 <= Pairs(st, i, n) < 0x1_0000
  {
    PairsBound(st, i, n);
    Pow2Small();
  }

  lemma {:induction false} PairsShift(st: seq<int>, i: int, n: int, m: int)
    requires 0 <= i && 0 <= m <= n && AreSymbols(st)
    ensures Shr(Pairs(st, i, n), 2 * m) == Pairs(st, i, n - m)
    decreases m
  {
    if m > 0 {
      PairsShift(st, i, n, m - 1);
      var w := Pairs(st, i, n);
      assert Shr(w, 2 * m) == Shr(w, 2 * m - 1) / 2 && Shr(w, 2 * m - 1) == Shr(w, 2 * m - 2) / 2;
    }
  }

  lemma SymbolStatus(st: seq<int>, i: int, n: int, k: int)
    requires 0 <= i && n == 7 && 0 <= k < n && AreSymbols(st)
    ensures ChunkSize(Pairs(st, i, n)) == 7 && StatusAt(Pairs(st, i, n), k) == SymbolAt(st, i + k)
  {
    IsSymbols(st, i, n);
    PairsShift(st, i, n, 6 - k);
  }

  /** Such a chunk adds its symbols, as many as are still wanted. */
  lemma {:induction false} SymbolsAdd(st: seq<int>, i: int, n: int, k: int)
    requires 0 <= i && n == 7 && 0 <= k <= n && i + k <= |st| && AreSymbols(st)
    ensures ChunkSize(Pairs(st, i, n)) == 7
    ensures AddFrom(Pairs(st, i, n), k, st[..i + k], |st|) == st[..if i + n < |st| then i + n else |st|]
    decreases n - k
  {
    IsSymbols(st, i, n);
    if k < n && i + k < |st| {
      SymbolStatus(st, i, n, k);
      SymbolsAdd(st, i, n, k + 1);
      assert st[..i + k] + [st[i + k]] == st[..i + k + 1];
    }
  }

  /** All statuses from i on, seven to a chunk. */
  function SymbolBytes(st: seq<int>, i: int, n: int): seq<int>
    requires 0 <= i && n == 7 && AreSymbols(st)
    decreases |st| - i
  {
    if i >= |st| then []
    else
      IsSymbols(st, i, n);
      U16(Pairs(st, i, n)) + SymbolBytes(st, i + n, n)
  }

  /** The parser's walk returns every status written in this way, also the large
      deltas that a vector of one-bit symbols cannot show. */
  lemma {:induction false} SymbolsRead(data: seq<int>, p: int, st: seq<int>, i: int, n: int)
    requires 0 <= p && 0 <= i && n == 7 && AreSymbols(st) && Occurs(data, p, SymbolBytes(st, i, n))
    ensures ReadChunks(data, p, |st|, st[..if i < |st| then i else |st|])
         == Some(Walk(st, p + |SymbolBytes(st, i, n)|))
    decreases |st| - i
  {
    if i >= |st| {
      assert st[..|st|] == st;
    } else {
      var c := Pairs(st, i, n);
      IsSymbols(st, i, n);
      OccursSplit(data, p, U16(c), SymbolBytes(st, i + n, n));
      ReadOnce(data, p, |st|, st[..i], c);
      SymbolsAdd(st, i, n, 0);
      SymbolsRead(data, p + 2, st, i + n, n);
    }
  }
}
