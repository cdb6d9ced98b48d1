/** The ring of sent packets kept for retransmission. */
module RetransmitRing {
  import opened Words
  import opened Rounding

  const MAX_PACKET: int := 1500
  const MAX_AGAIN: int := 10
  const DEFAULT_SIZE: int := 512
  const NUMBERS: int := 0x1_0000

  datatype Slot = Slot(used: bool, number: int, data: seq<int>, hasTwcc: bool, twcc: int, again: int)

  /** `seq & mask` */
  function Place(number: int, capacity: int): (j: int)
    requires number >= 0 && capacity >= 1
    ensures 0 <= j < capacity
  {
    And(number, capacity - 1)
  }

  lemma PlaceIs(number: int, k: nat)
    requires number >= 0
    ensures Place(number, Pow2(k)) == number % Pow2(k)
  {
    AndMask(number, k);
  }

  /** The slot that holds a number. */
  predicate Present(slots: seq<Slot>, number: int)
    requires number >= 0 && slots != []
  {
    var slot := slots[Place(number, |slots|)];
    slot.used && slot.number == number
  }

  class Ring {
    const slots: array<Slot>

    /** `rtc_nack_buf_create` */
    constructor (wanted: int)
      requires wanted <= 0x4000_0000
      ensures slots.Length == NextPow2(if wanted <= 0 then DEFAULT_SIZE else wanted) && fresh(slots)
      ensures forall j | 0 <= j < slots.Length :: !slots[j].used
    {
      var n := if wanted <= 0 then DEFAULT_SIZE else wanted;
      ghost var k := NextPow2Least(n);
      slots := new Slot[NextPow2(n)](_ => Slot(false, 0, [], false, 0, 0));
    }

    /** `rtc_nack_buf_store` */
    method Store(data: seq<int>, number: int, hasTwcc: bool, twcc: int)
      requires 0 <= number < NUMBERS && slots.Length >= 1
      modifies slots
      ensures slots[..] == Stored(old(slots[..]), data, number, hasTwcc, twcc)
    {
      if |data| == 0 || |data| > MAX_PACKET {
        return;
      }
      var j := Place(number, slots.Length);
      slots[j] := Slot(true, number, data, hasTwcc, twcc, 0);
    }

    /** `rtc_nack_buf_get` */
    method Get(number: int) returns (found: bool, data: seq<int>)
      requires 0 <= number < NUMBERS && slots.Length >= 1
      ensures found <==> Present(slots[..], number)
      ensures data == if found then slots[Place(number, slots.Length)].data else []
    {
      var slot := slots[Place(number, slots.Length)];
      if !slot.used || slot.number != number {
        return false, [];
      }
      return true, slot.data;
    }

    /** `rtc_nack_buf_retransmit` */
    method Retransmit(number: int) returns (found: bool, data: seq<int>, twcc: int)
      requires 0 <= number < NUMBERS && slots.Length >= 1
      modifies slots
      ensures found <==> HandsOut(old(slots[..]), number)
      ensures slots[..] == Retransmitted(old(slots[..]), number)
      ensures var slot := old(slots[..])[Place(number, slots.Length)];
              if found then data == slot.data && twcc == (if slot.hasTwcc then slot.twcc else 0)
              else data == [] && twcc == 0
    {
      var j := Place(number, slots.Length);
      var slot := slots[j];
      if !slot.used || slot.number != number {
        return false, [], 0;
      }
      if slot.again >= MAX_AGAIN {
        return false, [], 0;
      }
      slots[j] := slot.(again := slot.again + 1);
      return true, slot.data, if slot.hasTwcc then slot.twcc else 0;
    }
  }

  function Stored(slots: seq<Slot>, data: seq<int>, number: int, hasTwcc: bool, twcc: int): (r: seq<Slot>)
    requires number >= 0 && slots != []
    ensures |r| == |slots|
  {
    if |data| == 0 || |data| > MAX_PACKET then slots
    else slots[Place(number, |slots|) := Slot(true, number, data, hasTwcc, twcc, 0)]
  }

  predicate HandsOut(slots: seq<Slot>, number: int)
    requires number >= 0 && slots != []
  {
    Present(slots, number) && slots[Place(number, |slots|)].again < MAX_AGAIN
  }

  function Retransmitted(slots: seq<Slot>, number: int): (r: seq<Slot>)
    requires number >= 0 && slots != []
    ensures |r| == |slots|
  {
    var j := Place(number, |slots|);
    if HandsOut(slots, number) then slots[j := slots[j].(again := slots[j].again + 1)] else slots
  }

  // ----- runs -----

  datatype Packet = Packet(data: seq<int>, hasTwcc: bool, twcc: int)

  /** How many numbers apart two packets of the ring can be. */
  function Period(capacity: int): int
  {
    if capacity < NUMBERS then capacity else NUMBERS
  }

  /** The last of n packets, numbered from start on, that lands in slot j. */
  function Latest(start: int, n: int, c: int, j: int): int
    requires c > 0
  {
    n - 1 - (start + n - 1 - j) % c
  }

  /** Slot j holds packet k of the run, handed out again that many times. */
  ghost predicate Keeps(slot: Slot, start: int, k: int, p: Packet, again: int)
  {
    && slot.used && slot.number == (start + k) % NUMBERS && slot.data == p.data
    && slot.hasTwcc == p.hasTwcc && slot.twcc == p.twcc && slot.again == again
  }

  /** Every slot holds the last packet that lands in it, and nothing else. */
  ghost predicate Holds(slots: seq<Slot>, start: int, packets: seq<Packet>, handed: seq<int>)
    requires slots != [] && |handed| == |packets|
  {
    forall j | 0 <= j < |slots| ::
      var k := Latest(start, |packets|, Period(|slots|), j);
      if j < Period(|slots|) && k >= 0 then k < |packets| && Keeps(slots[j], start, k, packets[k], handed[k])
      else !slots[j].used
  }

  lemma Regroup(c: int, q: int, a: int, b: int)
    ensures (c * q) * a + c * b == c * (q * a + b)
  {
    assert c * (q * a + b) == c * (q * a) + c * b;
    assert (c * q) * a == c * (q * a);
  }

  lemma ModMod(x: nat, c: nat, q: nat)
    requires c > 0 && q > 0
    ensures x % (c * q) % c == x % c
  {
    var a, r := x / (c * q), x % (c * q);
    var b, s := r / c, r % c;
    Regroup(c, q, a, b);
    ModIs(x, c, q * a + b, s);
  }

  /** Packet numbers land in slots one after the other, across the wrap of the
      16-bit number. */
  lemma PlaceOf(x: nat, m: nat)
    ensures Place(x % NUMBERS, Pow2(m)) == x % Period(Pow2(m))
  {
    PlaceIs(x % NUMBERS, m);
    Pow2Constants();
    if m <= 16 {
      Pow2Sum(m, 16 - m);
      ModMod(x, Pow2(m), Pow2(16 - m));
      if m < 16 {
        Pow2Less(m, 16);
      }
    } else {
      Pow2Less(16, m);
      ModUnique(x % NUMBERS, Pow2(m), 0, x % NUMBERS);
    }
  }

  lemma ModStep(x: int, c: int)
    requires c > 0
    ensures x % c != 0 ==> (x - 1) % c == x % c - 1
  {
    var q, r := x / c, x % c;
    if r != 0 {
      assert x - 1 == c * q + (r - 1);
      ModIs(x - 1, c, q, r - 1);
    }
  }

  lemma ModIs(x: int, c: int, q: int, r: int)
    requires c > 0 && x == c * q + r && 0 <= r < c
    ensures x % c == r
  {
    var d := x / c - q;
    assert c * d == r - x % c;
    assert d > 0 ==> c * d >= c;
    assert d < 0 ==> c * d <= -c;
  }

  lemma LatestNext(start: int, n: int, c: int, j: int)
    requires c > 0 && 0 <= j < c && 0 <= start && 0 <= n
    ensures Latest(start, n + 1, c, j) == if j == (start + n) % c then n else Latest(start, n, c, j)
  {
    var x := start + n - j;
    if j == (start + n) % c {
      ModIs(x, c, (start + n) / c, 0);
    } else {
      if x % c == 0 {
        ModIs(start + n, c, x / c, j);
        assert false;
      }
      ModStep(x, c);
    }
  }

  lemma StoreHolds(slots: seq<Slot>, m: nat, start: int, packets: seq<Packet>, handed: seq<int>, p: Packet)
    requires |slots| == Pow2(m) && 0 <= start && |handed| == |packets| && Holds(slots, start, packets, handed)
    requires 1 <= |p.data| <= MAX_PACKET
    ensures Holds(Stored(slots, p.data, (start + |packets|) % NUMBERS, p.hasTwcc, p.twcc),
                  start, packets + [p], handed + [0])
  {
    var n, c := |packets|, Period(|slots|);
    var slots' := Stored(slots, p.data, (start + n) % NUMBERS, p.hasTwcc, p.twcc);
    PlaceOf(start + n, m);
    forall j | 0 <= j < |slots'|
      ensures var k := Latest(start, n + 1, c, j);
              if j < c && k >= 0
              then k < n + 1 && Keeps(slots'[j], start, k, (packets + [p])[k], (handed + [0])[k])
              else !slots'[j].used
    {
      if j < c {
        LatestNext(start, n, c, j);
      }
    }
  }

  /** The packet that a number stands for, if it is in the ring. */
  lemma NumberIs(start: int, n: int, m: nat, j: int, number: int)
    requires 0 <= start && 0 <= n && 0 <= number < NUMBERS && j == Place(number, Pow2(m))
    ensures var c := Period(Pow2(m)); 0 <= j < c && j == number % c
  {
    PlaceOf(number, m);
    ModUnique(number, NUMBERS, 0, number);
  }

  lemma AgainHolds(slots: seq<Slot>, m: nat, start: int, packets: seq<Packet>, handed: seq<int>, number: int)
    returns (k: int)
    requires |slots| == Pow2(m) && 0 <= start && |handed| == |packets| && Holds(slots, start, packets, handed)
    requires 0 <= number < NUMBERS && HandsOut(slots, number)
    ensures k == Latest(start, |packets|, Period(|slots|), Place(number, |slots|))
    ensures 0 <= k < |packets| && handed[k] < MAX_AGAIN && (start + k) % NUMBERS == number
    ensures slots[Place(number, |slots|)].data == packets[k].data
    ensures Holds(Retransmitted(slots, number), start, packets, handed[k := handed[k] + 1])
  {
    var j, c := Place(number, |slots|), Period(|slots|);
    NumberIs(start, |packets|, m, j, number);
    k := Latest(start, |packets|, c, j);
    var slots', handed' := Retransmitted(slots, number), handed[k := handed[k] + 1];
    forall i | 0 <= i < |slots'|
      ensures var l := Latest(start, |packets|, c, i);
              if i < c && l >= 0
              then l < |packets| && Keeps(slots'[i], start, l, packets[l], handed'[l])
              else !slots'[i].used
    {
      var l := Latest(start, |packets|, c, i);
      if i < c && i != j {
        LatestApart(start, |packets|, c, i, j);
      }
    }
  }

  /** Different slots hold different packets. */
  lemma LatestApart(start: int, n: int, c: int, i: int, j: int)
    requires c > 0 && 0 <= i < c && 0 <= j < c && i != j
    ensures Latest(start, n, c, i) != Latest(start, n, c, j)
  {
    if (start + n - 1 - i) % c == (start + n - 1 - j) % c {
      SameRemainder(start + n - 1 - i, start + n - 1 - j, c);
    }
  }

  lemma SameRemainder(a: int, b: int, c: int)
    requires c > 0 && a % c == b % c && -c < a - b < c
    ensures a == b
  {
    var d := a / c - b / c;
    assert c * d == a - b;
    assert d > 0 ==> c * d >= c;
    assert d < 0 ==> c * d <= -c;
  }

  /** Packet k is one of the last n that fit. */
  predicate Recent(n: int, c: int, k: int)
  {
    0 <= k < n && n - c <= k
  }

  lemma LatestIs(start: int, n: int, m: nat, k: int)
    requires 0 <= start && Recent(n, Period(Pow2(m)), k)
    ensures Latest(start, n, Period(Pow2(m)), Place((start + k) % NUMBERS, Pow2(m))) == k
  {
    PlaceOf(start + k, m);
    LatestAt(start, n, Period(Pow2(m)), k);
  }

  lemma LatestAt(start: int, n: int, c: int, k: int)
    requires c > 0 && Recent(n, c, k)
    ensures Latest(start, n, c, (start + k) % c) == k
  {
    var q, j := (start + k) / c, (start + k) % c;
    assert start + k == c * q + j;
    ModIs(start + n - 1 - j, c, q, n - 1 - k);
  }

  /** A number is found exactly if it is the number of one of the last packets,
      and then that packet is returned. */
  lemma FoundExactly(slots: seq<Slot>, m: nat, start: int, packets: seq<Packet>, handed: seq<int>, number: int)
    requires |slots| == Pow2(m) && 0 <= start && |handed| == |packets| && Holds(slots, start, packets, handed)
    requires 0 <= number < NUMBERS
    ensures Present(slots, number) <==>
            exists k :: Recent(|packets|, Period(|slots|), k) && (start + k) % NUMBERS == number
    ensures forall k | Recent(|packets|, Period(|slots|), k) && (start + k) % NUMBERS == number ::
              slots[Place(number, |slots|)].data == packets[k].data
  {
    var n, j, c := |packets|, Place(number, |slots|), Period(|slots|);
    NumberIs(start, n, m, j, number);
    forall k | Recent(n, c, k) && (start + k) % NUMBERS == number
      ensures Present(slots, number) && slots[j].data == packets[k].data
    {
      LatestIs(start, n, m, k);
    }
    if Present(slots, number) {
      var k := Latest(start, n, c, j);
      assert Recent(n, c, k) && (start + k) % NUMBERS == number;
    }
  }

  datatype Event = Put(p: Packet) | Again(number: int)

  /** The ring, the packets stored so far and how often each was handed out. */
  datatype Run = Run(slots: seq<Slot>, packets: seq<Packet>, handed: seq<int>)

  predicate Possible(e: Event)
  {
    match e
    case Put(p) => 1 <= |p.data| <= MAX_PACKET
    case Again(number) => 0 <= number < NUMBERS
  }

  /** Packets are stored under consecutive numbers; any number is asked for again. */
  ghost function Next(s: Run, start: int, e: Event): Run
    requires s.slots != [] && 0 <= start && Possible(e) && |s.handed| == |s.packets|
  {
    match e
    case Put(p) =>
      Run(Stored(s.slots, p.data, (start + |s.packets|) % NUMBERS, p.hasTwcc, p.twcc), s.packets + [p], s.handed + [0])
    case Again(number) =>
      var k := Latest(start, |s.packets|, Period(|s.slots|), Place(number, |s.slots|));
      Run(Retransmitted(s.slots, number), s.packets,
          if HandsOut(s.slots, number) && 0 <= k < |s.handed| then s.handed[k := s.handed[k] + 1] else s.handed)
  }

  ghost predicate Inv(s: Run, m: nat, start: int)
  {
    && |s.slots| == Pow2(m) && |s.handed| == |s.packets| && Holds(s.slots, start, s.packets, s.handed)
    && forall k | 0 <= k < |s.handed| :: 0 <= s.handed[k] <= MAX_AGAIN
  }

  lemma FreshHolds(slots: seq<Slot>, m: nat, start: int)
    requires |slots| == Pow2(m) && forall j | 0 <= j < |slots| :: !slots[j].used
    ensures Inv(Run(slots, [], []), m, start)
  {
  }

  lemma StepHolds(s: Run, m: nat, start: int, e: Event)
    requires Inv(s, m, start) && 0 <= start && Possible(e)
    ensures Inv(Next(s, start, e), m, start)
  {
    match e
    case Put(p) => StoreHolds(s.slots, m, start, s.packets, s.handed, p);
    case Again(number) =>
      if HandsOut(s.slots, number) {
        var k := AgainHolds(s.slots, m, start, s.packets, s.handed, number);
      }
  }

  ghost function After(s: Run, start: int, es: seq<Event>): Run
    requires s.slots != [] && 0 <= start && |s.handed| == |s.packets| && forall i | 0 <= i < |es| :: Possible(es[i])
    decreases |es|
  {
    if es == [] then s else After(Next(s, start, es[0]), start, es[1..])
  }

  /** After any run of stores and requests the ring holds exactly the last
      packets, byte for byte, and none has been handed out more than 10 times. */
  lemma {:induction false} RunHolds(s: Run, m: nat, start: int, es: seq<Event>)
    requires Inv(s, m, start) && 0 <= start && forall i | 0 <= i < |es| :: Possible(es[i])
    ensures Inv(After(s, start, es), m, start)
    decreases |es|
  {
    if es != [] {
      StepHolds(s, m, start, es[0]);
      RunHolds(Next(s, start, es[0]), m, start, es[1..]);
    }
  }

  // ----- a new ring -----

  /** The packets that the first i events store. */
  function Puts(es: seq<Event>, i: int): seq<Packet>
    requires 0 <= i <= |es|
  {
    if i == 0 then [] else if es[i - 1].Put? then Puts(es, i - 1) + [es[i - 1].p] else Puts(es, i - 1)
  }

  function CapacityFor(wanted: int): int
    requires wanted <= 0x4000_0000
  {
    NextPow2(if wanted <= 0 then DEFAULT_SIZE else wanted)
  }

  /** One event on a ring, as a step of the run it stands for; the n-th packet gets
      the n-th number. */
  method Perform(ring: Ring, start: int, n: int, e: Event, ghost s: Run, ghost m: nat)
    requires Inv(s, m, start) && 0 <= start && Possible(e) && s.slots == ring.slots[..] && n == |s.packets|
    modifies ring.slots
    ensures var s' := Next(s, start, e);
            && Inv(s', m, start) && s'.slots == ring.slots[..]
            && s'.packets == if e.Put? then s.packets + [e.p] else s.packets
  {
    StepHolds(s, m, start, e);
    match e
    case Put(p) => ring.Store(p.data, (start + n) % NUMBERS, p.hasTwcc, p.twcc);
    case Again(number) => var _, _, _ := ring.Retransmit(number);
  }

  /** A number is found exactly if it is one of the last that fit, and what is found
      is the packet stored under it. */
  ghost predicate Finds(found: bool, data: seq<int>, packets: seq<Packet>, start: int, c: int, number: int)
  {
    && (found <==> exists k :: Recent(|packets|, c, k) && (start + k) % NUMBERS == number)
    && (found ==> forall k | Recent(|packets|, c, k) && (start + k) % NUMBERS == number :: data == packets[k].data)
  }

  /** A new ring takes any stores under consecutive numbers and any requests in
      between, and is then asked for a number. */
  method Replay(ring: Ring, start: int, es: seq<Event>, number: int, ghost m: nat) returns (found: bool, data: seq<int>)
    requires ring.slots.Length == Pow2(m) && forall j | 0 <= j < Pow2(m) :: !ring.slots[j].used
    requires 0 <= start && 0 <= number < NUMBERS && forall i | 0 <= i < |es| :: Possible(es[i])
    modifies ring.slots
    ensures Finds(found, data, Puts(es, |es|), start, Period(Pow2(m)), number)
  {
    ghost var s := Run(ring.slots[..], [], []);
    FreshHolds(s.slots, m, start);
    var i, n := 0, 0;
    while i < |es|
      invariant 0 <= i <= |es| && Inv(s, m, start) && s.slots == ring.slots[..]
      invariant s.packets == Puts(es, i) && n == |s.packets|
    {
      Perform(ring, start, n, es[i], s, m);
      s := Next(s, start, es[i]);
      n := if es[i].Put? then n + 1 else n;
      i := i + 1;
    }
    found, data := ring.Get(number);
    FoundExactly(s.slots, m, start, s.packets, s.handed, number);
  }

  /** From the creation of a ring on: a number is found exactly if it is among the
      last that the capacity, rounded up to a power of two, lets the ring keep. */
  method Play(wanted: int, start: int, es: seq<Event>, number: int) returns (found: bool, data: seq<int>)
    requires wanted <= 0x4000_0000 && 0 <= start && 0 <= number < NUMBERS
    requires forall i | 0 <= i < |es| :: Possible(es[i])
    ensures Finds(found, data, Puts(es, |es|), start, Period(CapacityFor(wanted)), number)
  {
    var ring := new Ring(wanted);
    ghost var m := NextPow2Least(if wanted <= 0 then DEFAULT_SIZE else wanted);
    found, data := Replay(ring, start, es, number, m);
  }
}
