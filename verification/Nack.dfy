/** Generic NACK feedback (section 6.2.1 of RFC 4585): lost sequence numbers
    coalesced into a packet id and a bitmask of the 16 numbers after it. */
module NackFormat {
  import opened Bytes
  import opened Collections
  import opened Words

  const MAX_FCIS: int := 64
  const MAX_SEQS: int := 1088

  predicate AreNumbers(s: seq<int>)
  {
    forall i | 0 <= i < |s| :: 0 <= s[i] < 0x1_0000
  }

  // ----- sorting -----

  ghost predicate Ordered(s: seq<int>)
  {
    forall i | 1 <= i < |s| :: s[i - 1] <= s[i]
  }

  ghost predicate Increasing(s: seq<int>)
  {
    forall i | 1 <= i < |s| :: s[i - 1] < s[i]
  }

  ghost predicate Distinct(s: seq<int>)
  {
    forall i, j | 0 <= i < j < |s| :: s[i] != s[j]
  }

  lemma {:induction false} IncreasingLess(s: seq<int>, i: int, j: int)
    requires Increasing(s) && 0 <= i < j < |s|
    ensures s[i] < s[j]
    decreases j
  {
    if i < j - 1 {
      IncreasingLess(s, i, j - 1);
    }
  }

  function Insert(x: int, s: seq<int>): (r: seq<int>)
    ensures r != [] && r[0] == if s == [] || x <= s[0] then x else s[0]
  {
    if s == [] || x <= s[0] then [x] + s else [s[0]] + Insert(x, s[1..])
  }

  /** What `qsort` leaves: the order of equal numbers cannot be seen. */
  function Sort(s: seq<int>): seq<int>
  {
    if s == [] then [] else Insert(s[0], Sort(s[1..]))
  }

  lemma {:induction false} InsertOrders(x: int, s: seq<int>)
    requires Ordered(s)
    ensures Ordered(Insert(x, s))
  {
    if s != [] && x > s[0] {
      InsertOrders(x, s[1..]);
    }
  }

  lemma {:induction false} InsertKeeps(x: int, s: seq<int>)
    ensures multiset(Insert(x, s)) == multiset(s) + multiset{x}
  {
    if s != [] && x > s[0] {
      InsertKeeps(x, s[1..]);
      assert s == [s[0]] + s[1..];
    }
  }

  /** Sorted, and the same numbers as often. */
  lemma {:induction false} SortSorts(s: seq<int>)
    ensures Ordered(Sort(s)) && multiset(Sort(s)) == multiset(s)
  {
    if s != [] {
      SortSorts(s[1..]);
      InsertOrders(s[0], Sort(s[1..]));
      InsertKeeps(s[0], Sort(s[1..]));
      assert s == [s[0]] + s[1..];
    }
  }

  lemma {:induction false} DistinctOnce(s: seq<int>, x: int)
    requires Distinct(s)
    ensures multiset(s)[x] <= 1
  {
    if s != [] {
      DistinctOnce(s[1..], x);
      assert s == [s[0]] + s[1..];
      assert s[0] !in s[1..];
    }
  }

  lemma TwiceIn(r: seq<int>, i: int)
    requires 1 <= i < |r| && r[i - 1] == r[i]
    ensures multiset(r)[r[i]] >= 2
  {
    var x := r[i];
    assert r == r[..i - 1] + [x] + [x] + r[i + 1..];
  }

  lemma SortDistinct(s: seq<int>)
    requires Distinct(s)
    ensures Increasing(Sort(s))
  {
    var r := Sort(s);
    SortSorts(s);
    forall i | 1 <= i < |r| ensures r[i - 1] < r[i] {
      DistinctOnce(s, r[i]);
      if r[i - 1] == r[i] {
        TwiceIn(r, i);
        assert false;
      }
    }
  }

  // ----- coalescing -----

  datatype Fci = Fci(pid: int, blp: nat)

  /** x is one of the 16 numbers after pid. */
  predicate After(pid: int, x: int)
  {
    1 <= x - pid <= 16
  }

  /** Where the numbers from j on stop fitting the bitmask after pid. */
  function End(s: seq<int>, pid: int, j: int): (e: int)
    requires 0 <= j <= |s|
    ensures j <= e <= |s|
    decreases |s| - j
  {
    if j == |s| || !After(pid, s[j]) then j else End(s, pid, j + 1)
  }

  /** The bitmask after pid of the numbers from i to j. */
  function Mask(s: seq<int>, pid: int, i: int, j: int): nat
    requires 0 <= i <= j <= |s|
    decreases j - i
  {
    if i == j then 0
    else Or(Mask(s, pid, i, j - 1), if After(pid, s[j - 1]) then Pow2(s[j - 1] - pid - 1) else 0)
  }

  /** Where the entry that starts at i ends. */
  function Stop(s: seq<int>, i: int): (j: int)
    requires 0 <= i < |s|
    ensures i < j <= |s|
  {
    End(s, s[i], i + 1)
  }

  function First(s: seq<int>, i: int): Fci
    requires 0 <= i < |s|
  {
    Fci(s[i], Mask(s, s[i], i + 1, Stop(s, i)))
  }

  /** The entries for sorted numbers from i on, as long as there is room. */
  function Coalesce(s: seq<int>, i: int, room: int): (r: seq<Fci>)
    requires 0 <= i <= |s|
    ensures room >= 0 ==> |r| <= room
    decreases |s| - i
  {
    if i == |s| || room <= 0 then [] else [First(s, i)] + Coalesce(s, Stop(s, i), room - 1)
  }

  /** How far the entries reach. */
  function Reach(s: seq<int>, i: int, room: int): (n: int)
    requires 0 <= i <= |s|
    ensures i <= n <= |s|
    decreases |s| - i
  {
    if i == |s| || room <= 0 then i else Reach(s, Stop(s, i), room - 1)
  }

  /** The number of entries without a limit. */
  function Entries(s: seq<int>, i: int): (n: int)
    requires 0 <= i <= |s|
    ensures 0 <= n && (n == 0 <==> i == |s|)
    decreases |s| - i
  {
    if i == |s| then 0 else 1 + Entries(s, Stop(s, i))
  }

  lemma {:induction false} ReachAll(s: seq<int>, i: int, room: int)
    requires 0 <= i <= |s| && room >= 0
    ensures Reach(s, i, room) == |s| <==> Entries(s, i) <= room
    decreases |s| - i
  {
    if i < |s| && room > 0 {
      ReachAll(s, Stop(s, i), room - 1);
    }
  }

  /** What is built are these entries, cut off at the limit. */
  lemma {:induction false} EntriesBuilt(s: seq<int>, i: int, room: int)
    requires 0 <= i <= |s| && room >= 0
    ensures |Coalesce(s, i, room)| == if Entries(s, i) <= room then Entries(s, i) else room
    decreases |s| - i
  {
    if i < |s| && room > 0 {
      EntriesBuilt(s, Stop(s, i), room - 1);
    }
  }

  lemma {:induction false} EndIs(s: seq<int>, pid: int, j: int)
    requires 0 <= j <= |s|
    ensures var e := End(s, pid, j);
            (forall k | j <= k < e :: After(pid, s[k])) && (e < |s| ==> !After(pid, s[e]))
    decreases |s| - j
  {
    if j < |s| && After(pid, s[j]) {
      EndIs(s, pid, j + 1);
    }
  }

  /** x is one of the numbers from i to j. */
  ghost predicate Among(s: seq<int>, i: int, j: int, x: int)
    requires 0 <= i <= j <= |s|
  {
    exists k :: i <= k < j && s[k] == x
  }

  lemma {:induction false} MaskBits(s: seq<int>, pid: int, i: int, j: int, b: nat)
    requires 0 <= i <= j <= |s| && b < 16
    ensures Bit(Mask(s, pid, i, j), b) <==> Among(s, i, j, pid + b + 1)
    decreases j - i
  {
    if i == j {
      BitOfZero(b);
    } else {
      MaskBits(s, pid, i, j - 1, b);
      var x := s[j - 1];
      BitOfOr(Mask(s, pid, i, j - 1), if After(pid, x) then Pow2(x - pid - 1) else 0, b);
      if After(pid, x) {
        BitOfMask(x - pid - 1, b);
      } else {
        BitOfZero(b);
      }
    }
  }

  lemma {:induction false} MaskBound(s: seq<int>, pid: int, i: int, j: int)
    requires 0 <= i <= j <= |s|
    ensures Mask(s, pid, i, j) < Pow2(16)
    decreases j - i
  {
    if i < j {
      MaskBound(s, pid, i, j - 1);
      if After(pid, s[j - 1]) {
        Pow2Less(s[j - 1] - pid - 1, 16);
        OrBound(Mask(s, pid, i, j - 1), Pow2(s[j - 1] - pid - 1), 16);
      } else {
        OrBound(Mask(s, pid, i, j - 1), 0, 16);
      }
    }
  }

  lemma MaskFits(s: seq<int>, pid: int, i: int, j: int)
    requires 0 <= i <= j <= |s|
    ensures Mask(s, pid, i, j) < 0x1_0000
  {
    MaskBound(s, pid, i, j);
    Pow2Constants();
  }

  // ----- listing -----

  /** The numbers a bitmask stands for, from bit b on. */
  function Masked(pid: int, blp: nat, b: nat): seq<int>
    requires b <= 16
    decreases 16 - b, pid
  {
    if b == 16 then []
    else (if Bit(blp, b) then [(pid + b + 1) % 0x1_0000] else []) + Masked(pid, blp, b + 1)
  }

  function Listed(f: Fci): seq<int>
  {
    [f.pid] + Masked(f.pid, f.blp, 0)
  }

  ghost predicate AreFcis(fs: seq<Fci>)
  {
    forall i | 0 <= i < |fs| :: 0 <= fs[i].pid < 0x1_0000 && fs[i].blp < 0x1_0000
  }

  function ListAll(fs: seq<Fci>): seq<int>
  {
    if fs == [] then [] else Listed(fs[0]) + ListAll(fs[1..])
  }

  /** From bit b on the mask stands for the numbers from i to j. */
  ghost predicate MaskIs(s: seq<int>, pid: int, blp: nat, b: nat, i: int, j: int)
    requires 0 <= i <= j <= |s|
  {
    forall c: nat | b <= c < 16 :: Bit(blp, c) <==> Among(s, i, j, pid + c + 1)
  }

  lemma MaskNext(s: seq<int>, pid: int, blp: nat, b: nat, i: int, j: int)
    requires 0 <= i < j <= |s| && MaskIs(s, pid, blp, b, i, j) && s[i] == pid + b + 1
    ensures MaskIs(s, pid, blp, b + 1, i + 1, j)
  {
  }

  /** Increasing numbers come back from their bitmask in order. */
  lemma {:induction false} MaskedBack(s: seq<int>, pid: int, blp: nat, b: nat, i: int, j: int)
    requires 0 <= i <= j <= |s| && b <= 16 && Increasing(s) && AreNumbers(s) && MaskIs(s, pid, blp, b, i, j)
    requires forall k | i <= k < j :: b + 1 <= s[k] - pid <= 16
    ensures Masked(pid, blp, b) == s[i..j]
    decreases 16 - b
  {
    var head := if i < j then s[i] else pid;
    if b < 16 {
      if Bit(blp, b) {
        NextIs(s, i, j, pid + b + 1);
        MaskNext(s, pid, blp, b, i, j);
        MaskedBack(s, pid, blp, b + 1, i + 1, j);
        SliceSum(s, i, i + 1, j);
      } else {
        forall k | i <= k < j ensures b + 2 <= s[k] - pid {
          assert s[k] != pid + b + 1;
        }
        MaskedBack(s, pid, blp, b + 1, i, j);
      }
    }
  }

  lemma NextIs(s: seq<int>, i: int, j: int, low: int)
    requires 0 <= i <= j <= |s| && Increasing(s) && Among(s, i, j, low) && forall k | i <= k < j :: low <= s[k]
    ensures i < j && s[i] == low && forall k | i < k < j :: low < s[k]
  {
    forall k | i < k < j ensures s[i] < s[k] {
      IncreasingLess(s, i, k);
    }
  }

  lemma FirstListed(s: seq<int>, i: int)
    requires 0 <= i < |s| && Increasing(s) && AreNumbers(s)
    ensures Listed(First(s, i)) == s[i..Stop(s, i)]
  {
    var pid, j := s[i], Stop(s, i);
    EndIs(s, pid, i + 1);
    var blp := Mask(s, pid, i + 1, j);
    assert MaskIs(s, pid, blp, 0, i + 1, j) by {
      forall c: nat | c < 16 ensures Bit(blp, c) <==> Among(s, i + 1, j, pid + c + 1) {
        MaskBits(s, pid, i + 1, j, c);
      }
    }
    MaskedBack(s, pid, blp, 0, i + 1, j);
    assert s[i..j] == [pid] + s[i + 1..j];
  }

  /** The entries list exactly the numbers they account for, in order. */
  lemma {:induction false} Coalesced(s: seq<int>, i: int, room: int)
    requires 0 <= i <= |s| && Increasing(s) && AreNumbers(s)
    ensures ListAll(Coalesce(s, i, room)) == s[i..Reach(s, i, room)]
    decreases |s| - i
  {
    if i < |s| && room > 0 {
      var j := Stop(s, i);
      FirstListed(s, i);
      Coalesced(s, j, room - 1);
      ListFront(First(s, i), Coalesce(s, j, room - 1));
      SliceSum(s, i, j, Reach(s, j, room - 1));
    }
  }

  lemma ListFront(f: Fci, fs: seq<Fci>)
    ensures ListAll([f] + fs) == Listed(f) + ListAll(fs)
  {
    assert ([f] + fs)[1..] == fs;
  }

  lemma SliceSum(s: seq<int>, i: int, j: int, k: int)
    requires 0 <= i <= j <= k <= |s|
    ensures s[i..k] == s[i..j] + s[j..k]
  {
  }

  lemma {:induction false} InRange(s: seq<int>, i: int, room: int)
    requires 0 <= i <= |s| && AreNumbers(s)
    ensures AreFcis(Coalesce(s, i, room))
    decreases |s| - i
  {
    if i < |s| && room > 0 {
      MaskFits(s, s[i], i + 1, Stop(s, i));
      InRange(s, Stop(s, i), room - 1);
    }
  }

  // ----- fewest entries -----

  /** x is the id p or one of the 16 numbers after it. */
  predicate Within(p: int, x: int)
  {
    p <= x <= p + 16
  }

  ghost predicate Covers(ids: set<int>, s: seq<int>, i: int)
    requires 0 <= i <= |s|
  {
    forall k | i <= k < |s| :: exists p :: p in ids && Within(p, s[k])
  }

  lemma CoversRest(s: seq<int>, i: int, ids: set<int>, p: int)
    requires 0 <= i < |s| && Increasing(s) && Covers(ids, s, i) && p in ids && Within(p, s[i])
    ensures Covers(ids - {p}, s, Stop(s, i))
  {
    var j := Stop(s, i);
    EndIs(s, s[i], i + 1);
    forall k | j <= k < |s| ensures exists q :: q in ids - {p} && Within(q, s[k]) {
      var q :| q in ids && Within(q, s[k]);
      IncreasingLess(s, i, j);
      if j < k {
        IncreasingLess(s, j, k);
      }
      assert q in ids - {p};
    }
  }

  lemma {:induction false} FewestEntries(s: seq<int>, i: int, ids: set<int>)
    requires 0 <= i <= |s| && Increasing(s) && Covers(ids, s, i)
    ensures Entries(s, i) <= |ids|
    decreases |s| - i
  {
    if i < |s| {
      var p :| p in ids && Within(p, s[i]);
      CoversRest(s, i, ids, p);
      FewestEntries(s, Stop(s, i), ids - {p});
    }
  }

  /** No encoding of the numbers that does not wrap around uses fewer entries than
      are built. */
  lemma Fewest(s: seq<int>, room: int, ids: set<int>)
    requires room >= 0 && Increasing(s) && Covers(ids, s, 0)
    ensures |Coalesce(s, 0, room)| <= |ids|
    ensures |ids| <= room ==> |Coalesce(s, 0, room)| == Entries(s, 0) && Reach(s, 0, room) == |s|
  {
    FewestEntries(s, 0, ids);
    EntriesBuilt(s, 0, room);
    ReachAll(s, 0, room);
  }

  // ----- repeated numbers -----

  /** Bit j of the mask stands for x. */
  predicate StandsFor(pid: int, blp: nat, j: nat, x: int)
  {
    Bit(blp, j) && x == (pid + j + 1) % 0x1_0000
  }

  lemma {:induction false} MaskedMember(pid: int, blp: nat, b: nat, x: int)
    requires b <= 16
    ensures x in Masked(pid, blp, b) <==> exists j: nat :: b <= j < 16 && StandsFor(pid, blp, j, x)
    decreases 16 - b
  {
    if b < 16 {
      MaskedMember(pid, blp, b + 1, x);
      var head := if Bit(blp, b) then [(pid + b + 1) % 0x1_0000] else [];
      assert Masked(pid, blp, b) == head + Masked(pid, blp, b + 1);
      assert x in head <==> StandsFor(pid, blp, b, x);
    }
  }

  lemma AmongMasked(s: seq<int>, pid: int, i: int, j: int, k: int)
    requires 0 <= i <= k < j <= |s| && AreNumbers(s) && After(pid, s[k])
    ensures s[k] in Masked(pid, Mask(s, pid, i, j), 0)
  {
    var blp, b := Mask(s, pid, i, j), s[k] - pid - 1;
    MaskedMember(pid, blp, 0, s[k]);
    MaskBits(s, pid, i, j, b);
    assert StandsFor(pid, blp, b, s[k]);
  }

  lemma MaskedAmong(s: seq<int>, pid: int, i: int, j: int, x: int)
    requires 0 <= i <= j <= |s| && AreNumbers(s) && x in Masked(pid, Mask(s, pid, i, j), 0)
    ensures Among(s, i, j, x)
  {
    MaskedMember(pid, Mask(s, pid, i, j), 0, x);
    var b: nat :| 0 <= b < 16 && StandsFor(pid, Mask(s, pid, i, j), b, x);
    StandsAmong(s, pid, i, j, b, x);
  }

  lemma StandsAmong(s: seq<int>, pid: int, i: int, j: int, b: nat, x: int)
    requires 0 <= i <= j <= |s| && AreNumbers(s) && b < 16 && StandsFor(pid, Mask(s, pid, i, j), b, x)
    ensures Among(s, i, j, x)
  {
    MaskBits(s, pid, i, j, b);
    Unwrapped(s, i, j, pid + b + 1, x);
  }

  lemma Unwrapped(s: seq<int>, i: int, j: int, y: int, x: int)
    requires 0 <= i <= j <= |s| && AreNumbers(s) && Among(s, i, j, y) && x == y % 0x1_0000
    ensures Among(s, i, j, x)
  {
    var k :| i <= k < j && s[k] == y;
    assert 0 <= s[k] < 0x1_0000;
  }

  lemma MaskMember(s: seq<int>, pid: int, i: int, j: int, x: int)
    requires 0 <= i <= j <= |s| && AreNumbers(s) && forall k | i <= k < j :: After(pid, s[k])
    ensures x in Masked(pid, Mask(s, pid, i, j), 0) <==> Among(s, i, j, x)
  {
    if Among(s, i, j, x) {
      var k :| i <= k < j && s[k] == x;
      AmongMasked(s, pid, i, j, k);
    }
    if x in Masked(pid, Mask(s, pid, i, j), 0) {
      MaskedAmong(s, pid, i, j, x);
    }
  }

  lemma FirstMember(s: seq<int>, i: int, x: int)
    requires 0 <= i < |s| && AreNumbers(s)
    ensures x in Listed(First(s, i)) <==> Among(s, i, Stop(s, i), x)
  {
    EndIs(s, s[i], i + 1);
    MaskMember(s, s[i], i + 1, Stop(s, i), x);
    AmongSum(s, i, i + 1, Stop(s, i), x);
    assert Among(s, i, i + 1, x) <==> s[i] == x;
  }

  /** Whatever the order and however often a number is lost, the entries list
      the numbers they account for and no others. */
  lemma {:induction false} CoalescedMembers(s: seq<int>, i: int, room: int, x: int)
    requires 0 <= i <= |s| && AreNumbers(s)
    ensures x in ListAll(Coalesce(s, i, room)) <==> Among(s, i, Reach(s, i, room), x)
    decreases |s| - i
  {
    if i < |s| && room > 0 {
      var j := Stop(s, i);
      FirstMember(s, i, x);
      CoalescedMembers(s, j, room - 1, x);
      ListFront(First(s, i), Coalesce(s, j, room - 1));
      AmongSum(s, i, j, Reach(s, j, room - 1), x);
    }
  }

  lemma AmongSum(s: seq<int>, i: int, j: int, k: int, x: int)
    requires 0 <= i <= j <= k <= |s|
    ensures Among(s, i, k, x) <==> Among(s, i, j, x) || Among(s, j, k, x)
  {
  }

  // ----- the packet -----

  function FciBytes(fs: seq<Fci>): (r: seq<int>)
    requires AreFcis(fs)
    ensures |r| == 4 * |fs|
  {
    if fs == [] then [] else U16(fs[0].pid) + U16(fs[0].blp) + FciBytes(fs[1..])
  }

  predicate IsSsrc(v: int)
  {
    0 <= v < 0x1_0000_0000
  }

  function Header(sender: int, media: int, count: int): (r: seq<int>)
    requires IsSsrc(sender) && IsSsrc(media) && 0 <= count <= MAX_FCIS
    ensures |r| == 12
  {
    [0x81, 205, 0, 2 + count] + U32(sender) + U32(media)
  }

  /** At most as many numbers as fit are taken, before sorting. */
  function Clip(lost: seq<int>): seq<int>
  {
    if |lost| > MAX_SEQS then lost[..MAX_SEQS] else lost
  }

  function Nack(sender: int, media: int, lost: seq<int>): seq<int>
    requires IsSsrc(sender) && IsSsrc(media) && AreNumbers(lost)
  {
    SortedNumbers(Clip(lost));
    InRange(Sort(Clip(lost)), 0, MAX_FCIS);
    var fs := Coalesce(Sort(Clip(lost)), 0, MAX_FCIS);
    Header(sender, media, |fs|) + FciBytes(fs)
  }

  lemma SortedNumbers(s: seq<int>)
    requires AreNumbers(s)
    ensures AreNumbers(Sort(s))
  {
    SortSorts(s);
    forall i | 0 <= i < |Sort(s)| ensures 0 <= Sort(s)[i] < 0x1_0000 {
      assert Sort(s)[i] in multiset(Sort(s));
      assert Sort(s)[i] in s;
    }
  }

  function Take(s: seq<int>, n: int): (r: seq<int>)
    requires n >= 0
    ensures |r| <= n
  {
    if |s| <= n then s else s[..n]
  }

  /** The entry loop of `rtc_rtcp_parse_nack`, from offset p on with the numbers
      listed so far. */
  function ReadFcis(data: seq<int>, p: int, lost: seq<int>): seq<int>
    requires AreBytes(data) && 0 <= p && |lost| <= MAX_SEQS
    decreases |data| - p
  {
    if p + 4 > |data| || |lost| == MAX_SEQS then lost
    else ReadFcis(data, p + 4, lost + Take(Listed(Fci(Read16(data, p), Read16(data, p + 2))), MAX_SEQS - |lost|))
  }

  datatype Parsed = Parsed(sender: int, media: int, lost: seq<int>)

  /** `rtc_rtcp_parse_nack` */
  function Parse(data: seq<int>): Option<Parsed>
    requires AreBytes(data)
  {
    if |data| < 12 || data[0] / 64 % 4 != 2 then None
    else Some(Parsed(Read32(data, 4), Read32(data, 8), ReadFcis(data, 12, [])))
  }

  lemma {:induction false} MaskedSize(pid: int, blp: nat, b: nat)
    requires b <= 16
    ensures |Masked(pid, blp, b)| <= 16 - b
    decreases 16 - b
  {
    if b < 16 {
      MaskedSize(pid, blp, b + 1);
    }
  }

  lemma {:induction false} ListedSize(fs: seq<Fci>)
    ensures |ListAll(fs)| <= 17 * |fs|
  {
    if fs != [] {
      MaskedSize(fs[0].pid, fs[0].blp, 0);
      ListedSize(fs[1..]);
    }
  }

  lemma {:induction false} FcisRead(data: seq<int>, p: int, fs: seq<Fci>, lost: seq<int>)
    requires AreBytes(data) && AreFcis(fs) && Occurs(data, p, FciBytes(fs)) && p + 4 * |fs| == |data|
    requires |lost| + |ListAll(fs)| <= MAX_SEQS
    ensures ReadFcis(data, p, lost) == lost + ListAll(fs)
    decreases |fs|
  {
    if fs == [] {
      assert lost + [] == lost;
    } else {
      var f, rest := fs[0], fs[1..];
      OccursSplit(data, p, U16(f.pid) + U16(f.blp), FciBytes(rest));
      OccursSplit(data, p, U16(f.pid), U16(f.blp));
      OccursRead16(data, p, f.pid);
      OccursRead16(data, p + 2, f.blp);
      FcisRead(data, p + 4, rest, lost + Listed(f));
      ConcatAssociates(lost, Listed(f), ListAll(rest));
    }
  }

  lemma HeaderRead(data: seq<int>, sender: int, media: int, count: int)
    requires IsSsrc(sender) && IsSsrc(media) && 0 <= count <= MAX_FCIS
    requires Occurs(data, 0, Header(sender, media, count))
    ensures data[0] / 64 % 4 == 2 && Read32(data, 4) == sender && Read32(data, 8) == media
  {
    var start := [0x81, 205, 0, 2 + count];
    assert data[0 + 0] == Header(sender, media, count)[0];
    OccursSplit(data, 0, start + U32(sender), U32(media));
    OccursSplit(data, 0, start, U32(sender));
    OccursRead32(data, 4, sender);
    OccursRead32(data, 8, media);
  }

  lemma PacketRead(data: seq<int>, sender: int, media: int, fs: seq<Fci>)
    requires AreBytes(data) && IsSsrc(sender) && IsSsrc(media) && AreFcis(fs) && |fs| <= MAX_FCIS
    requires data == Header(sender, media, |fs|) + FciBytes(fs)
    ensures var r := Parse(data);
            r.Some? && r.value.sender == sender && r.value.media == media && r.value.lost == ListAll(fs)
  {
    PacketParts(data, Header(sender, media, |fs|), FciBytes(fs));
    HeaderRead(data, sender, media, |fs|);
    ListedSize(fs);
    FcisRead(data, 12, fs, []);
    assert [] + ListAll(fs) == ListAll(fs);
  }

  lemma PacketParts(data: seq<int>, head: seq<int>, body: seq<int>)
    requires data == head + body
    ensures Occurs(data, 0, head) && Occurs(data, |head|, body)
  {
    assert Occurs(data, 0, head + body);
    OccursSplit(data, 0, head, body);
  }

  lemma {:induction false} FciBytesAre(fs: seq<Fci>)
    requires AreFcis(fs)
    ensures AreBytes(FciBytes(fs))
  {
    if fs != [] {
      FciBytesAre(fs[1..]);
    }
  }

  lemma NackBytes(sender: int, media: int, lost: seq<int>)
    requires IsSsrc(sender) && IsSsrc(media) && AreNumbers(lost)
    ensures AreBytes(Nack(sender, media, lost))
  {
    SortedNumbers(Clip(lost));
    InRange(Sort(Clip(lost)), 0, MAX_FCIS);
    FciBytesAre(Coalesce(Sort(Clip(lost)), 0, MAX_FCIS));
  }

  /** Distinct lost numbers come back sorted: all of them if 64 entries are
      enough, otherwise the smallest ones. */
  lemma RoundTrip(sender: int, media: int, lost: seq<int>, data: seq<int>, s: seq<int>)
    requires IsSsrc(sender) && IsSsrc(media) && AreNumbers(lost) && Distinct(Clip(lost))
    requires data == Nack(sender, media, lost) && s == Sort(Clip(lost))
    ensures AreBytes(data)
    ensures var r := Parse(data);
            && r.Some? && r.value.sender == sender && r.value.media == media
            && r.value.lost == s[..Reach(s, 0, MAX_FCIS)]
            && (r.value.lost == s <==> Entries(s, 0) <= MAX_FCIS)
  {
    NackBytes(sender, media, lost);
    SortedNumbers(Clip(lost));
    SortDistinct(Clip(lost));
    InRange(s, 0, MAX_FCIS);
    PacketRead(data, sender, media, Coalesce(s, 0, MAX_FCIS));
    Coalesced(s, 0, MAX_FCIS);
    ReachAll(s, 0, MAX_FCIS);
  }

  /** Any lost numbers come back as a set if 64 entries are enough. */
  lemma AnyRoundTrip(sender: int, media: int, lost: seq<int>, data: seq<int>, x: int)
    requires IsSsrc(sender) && IsSsrc(media) && AreNumbers(lost) && data == Nack(sender, media, lost)
    requires Entries(Sort(Clip(lost)), 0) <= MAX_FCIS
    ensures AreBytes(data) && Parse(data).Some?
    ensures x in Parse(data).value.lost <==> x in Clip(lost)
  {
    var s := Sort(Clip(lost));
    NackBytes(sender, media, lost);
    SortedNumbers(Clip(lost));
    SortSorts(Clip(lost));
    InRange(s, 0, MAX_FCIS);
    PacketRead(data, sender, media, Coalesce(s, 0, MAX_FCIS));
    CoalescedMembers(s, 0, MAX_FCIS, x);
    ReachAll(s, 0, MAX_FCIS);
    assert Among(s, 0, |s|, x) <==> x in s;
    assert x in s <==> x in multiset(s);
    assert x in Clip(lost) <==> x in multiset(Clip(lost));
  }
}
