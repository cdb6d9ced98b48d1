/** The open-addressing hash map from 32-bit keys to addresses: linear probing over
    a power-of-two table, tombstones for removed keys, growth at three quarters
    load and compaction when tombstones pile up.  Its meaning is a finite map. */
module U32Map {
  import opened Collections
  import opened Words

  const INITIAL_CAP: nat := 16
  const FIB_MUL: int := 2654435769
  const SIZE_MAX: int := 0xFFFF_FFFF_FFFF_FFFF

  /** An address; 0 is NULL. */
  type Address = int

  datatype Slot = Empty | Used(key: int, value: Address) | Tombstone

  const IsUsed: Slot -> bool := (s: Slot) => s.Used?
  const IsTombstone: Slot -> bool := (s: Slot) => s.Tombstone?

  /** `u32_probe`: the key times the multiplier in 32 bits, masked */
  function Home(key: int, cap: int): (h: int)
    requires cap > 0
    ensures 0 <= h < cap
  {
    And(key * FIB_MUL % 0x1_0000_0000, cap - 1)
  }

  /** `(slot + 1) & mask` */
  function Next(slot: int, cap: int): int
    requires 0 <= slot < cap
  {
    And(slot + 1, cap - 1)
  }

  ghost predicate PowerOfTwo(cap: int)
  {
    exists n: nat :: cap == Pow2(n)
  }

  lemma NextWraps(slot: int, cap: int)
    requires 0 <= slot < cap && PowerOfTwo(cap)
    ensures Next(slot, cap) == if slot + 1 == cap then 0 else slot + 1
  {
    var n: nat :| cap == Pow2(n);
    AndMask(slot + 1, n);
    ModUnique(slot + 1, cap, if slot + 1 == cap then 1 else 0, if slot + 1 == cap then 0 else slot + 1);
  }

  /** The slot d steps after slot h. */
  function At(h: int, d: int, cap: int): int
  {
    if h + d < cap then h + d else h + d - cap
  }

  /** How many steps lead from slot h to slot j. */
  function Steps(h: int, j: int, cap: int): int
  {
    if h <= j then j - h else j - h + cap
  }

  /** Every slot on the way from h, for n steps, is occupied or a tombstone. */
  ghost predicate Clear(s: seq<Slot>, h: int, n: int)
    requires 0 <= h < |s| && n <= |s|
  {
    forall d | 0 <= d < n :: !s[At(h, d, |s|)].Empty?
  }

  /** Each live key can be reached from its home slot over non-empty slots. */
  ghost predicate Reachable(s: seq<Slot>)
  {
    forall j | 0 <= j < |s| && s[j].Used? ::
      Clear(s, Home(s[j].key, |s|), Steps(Home(s[j].key, |s|), j, |s|))
  }

  /** `at` is where the keys are: each live key sits in exactly one slot. */
  ghost predicate Located(s: seq<Slot>, at: map<int, int>)
  {
    && (forall k | k in at :: 0 <= at[k] < |s| && s[at[k]].Used? && s[at[k]].key == k)
    && (forall j | 0 <= j < |s| && s[j].Used? :: s[j].key in at && at[s[j].key] == j)
  }

  ghost function ContentsOf(s: seq<Slot>, at: map<int, int>): map<int, Address>
    requires Located(s, at)
  {
    map k | k in at :: s[at[k]].value
  }

  /** The table can be searched: some slot is empty. */
  lemma SomeEmpty(s: seq<Slot>)
    requires Count(s, IsUsed) + Count(s, IsTombstone) < |s|
    ensures exists j :: 0 <= j < |s| && s[j].Empty?
  {
    if forall j | 0 <= j < |s| :: !s[j].Empty? {
      NoneEmpty(s);
    }
  }

  lemma {:induction false} NoneEmpty(s: seq<Slot>)
    requires forall j | 0 <= j < |s| :: !s[j].Empty?
    ensures Count(s, IsUsed) + Count(s, IsTombstone) == |s|
  {
    if s != [] {
      NoneEmpty(s[..|s| - 1]);
    }
  }

  /** What a search for a key establishes about the slot it stops at. */
  ghost predicate Stops(s: seq<Slot>, at: map<int, int>, key: int, slot: int, found: bool)
    requires |s| > 0
  {
    && 0 <= slot < |s|
    && (found <==> key in at)
    && (found ==> at[key] == slot)
    && (!found ==> !s[slot].Used? && Clear(s, Home(key, |s|), Steps(Home(key, |s|), slot, |s|)))
  }

  lemma OnItsPath(s: seq<Slot>, at: map<int, int>, key: int)
    requires Located(s, at) && Reachable(s) && key in at
    ensures var h := Home(key, |s|);
            At(h, Steps(h, at[key], |s|), |s|) == at[key] && Clear(s, h, Steps(h, at[key], |s|))
  {
  }

  /** A key is absent when it is not found before the first empty slot. */
  lemma AbsentKey(s: seq<Slot>, at: map<int, int>, key: int, d: int)
    requires |s| > 0 && 0 <= d < |s| && Located(s, at) && Reachable(s)
    requires forall i | 0 <= i < d :: !(s[At(Home(key, |s|), i, |s|)].Used? && s[At(Home(key, |s|), i, |s|)].key == key)
    requires s[At(Home(key, |s|), d, |s|)].Empty?
    ensures key !in at
  {
    if key in at {
      OnItsPath(s, at, key);
    }
  }

  lemma LocatedAfterInsert(s: seq<Slot>, at: map<int, int>, key: int, value: Address, slot: int)
    requires Located(s, at) && key !in at && 0 <= slot < |s| && !s[slot].Used?
    ensures Located(s[slot := Used(key, value)], at[key := slot])
    ensures ContentsOf(s[slot := Used(key, value)], at[key := slot]) == ContentsOf(s, at)[key := value]
  {
    var s', at' := s[slot := Used(key, value)], at[key := slot];
    forall k | k in at ensures s'[at[k]] == s[at[k]] {
      assert s[at[k]].Used?;
    }
  }

  /** A key put into the slot where its search stopped. */
  lemma Inserted(s: seq<Slot>, at: map<int, int>, key: int, value: Address, slot: int, s': seq<Slot>,
                 at': map<int, int>)
    requires |s| > 0 && Located(s, at) && Reachable(s) && Stops(s, at, key, slot, false)
    requires s' == s[slot := Used(key, value)] && at' == at[key := slot]
    ensures Located(s', at') && Reachable(s')
    ensures ContentsOf(s', at') == ContentsOf(s, at)[key := value]
    ensures Count(s', IsUsed) == Count(s, IsUsed) + 1
    ensures Count(s', IsTombstone) == Count(s, IsTombstone) - if s[slot].Tombstone? then 1 else 0
  {
    CountUpdate(s, IsUsed, slot, Used(key, value));
    CountUpdate(s, IsTombstone, slot, Used(key, value));
    StillReachable(s, slot, Used(key, value), s');
    LocatedAfterInsert(s, at, key, value, slot);
  }

  /** A value replaced, or a key turned into a tombstone, blocks no path. */
  lemma StillReachable(s: seq<Slot>, slot: int, x: Slot, s': seq<Slot>)
    requires Reachable(s) && 0 <= slot < |s| && !x.Empty? && s' == s[slot := x]
    requires x.Used? ==> Clear(s, Home(x.key, |s|), Steps(Home(x.key, |s|), slot, |s|))
    ensures Reachable(s')
  {
    forall j | 0 <= j < |s'| && s'[j].Used?
      ensures Clear(s', Home(s'[j].key, |s'|), Steps(Home(s'[j].key, |s'|), j, |s'|))
    {
      assert Clear(s, Home(s'[j].key, |s|), Steps(Home(s'[j].key, |s|), j, |s|));
    }
  }

  lemma Overwritten(s: seq<Slot>, at: map<int, int>, key: int, value: Address, s': seq<Slot>)
    requires |s| > 0 && Located(s, at) && Reachable(s) && key in at
    requires s' == s[at[key] := Used(key, value)]
    ensures Located(s', at) && Reachable(s')
    ensures ContentsOf(s', at) == ContentsOf(s, at)[key := value]
    ensures Count(s', IsUsed) == Count(s, IsUsed) && Count(s', IsTombstone) == Count(s, IsTombstone)
  {
    CountUpdate(s, IsUsed, at[key], Used(key, value));
    CountUpdate(s, IsTombstone, at[key], Used(key, value));
    StillReachable(s, at[key], Used(key, value), s');
    LocatedAfterWrite(s, at, key, value);
  }

  lemma LocatedAfterWrite(s: seq<Slot>, at: map<int, int>, key: int, value: Address)
    requires Located(s, at) && key in at
    ensures Located(s[at[key] := Used(key, value)], at)
    ensures ContentsOf(s[at[key] := Used(key, value)], at) == ContentsOf(s, at)[key := value]
  {
    forall k | k in at && k != key ensures s[at[key] := Used(key, value)][at[k]] == s[at[k]] {
      assert s[at[k]].key == k && s[at[key]].key == key;
    }
  }

  lemma LocatedAfterRemove(s: seq<Slot>, at: map<int, int>, key: int)
    requires Located(s, at) && key in at
    ensures Located(s[at[key] := Tombstone], at - {key})
    ensures ContentsOf(s[at[key] := Tombstone], at - {key}) == ContentsOf(s, at) - {key}
  {
    forall k | k in at && k != key ensures s[at[key] := Tombstone][at[k]] == s[at[k]] {
      assert s[at[k]].key == k && s[at[key]].key == key;
    }
  }

  lemma Removed(s: seq<Slot>, at: map<int, int>, key: int, s': seq<Slot>, at': map<int, int>)
    requires |s| > 0 && Located(s, at) && Reachable(s) && key in at
    requires s' == s[at[key] := Tombstone] && at' == at - {key}
    ensures Located(s', at') && Reachable(s')
    ensures ContentsOf(s', at') == ContentsOf(s, at) - {key}
    ensures Count(s', IsUsed) == Count(s, IsUsed) - 1 && Count(s', IsTombstone) == Count(s, IsTombstone) + 1
  {
    CountUpdate(s, IsUsed, at[key], Tombstone);
    CountUpdate(s, IsTombstone, at[key], Tombstone);
    StillReachable(s, at[key], Tombstone, s');
    LocatedAfterRemove(s, at, key);
  }

  /** Part of a table holds what the first i slots of another hold. */
  ghost predicate Copied(s: seq<Slot>, at: map<int, int>, i: int, t: seq<Slot>, at': map<int, int>)
    requires Located(s, at) && Located(t, at') && 0 <= i <= |s|
  {
    && (forall k | k in at' :: k in at && at[k] < i && t[at'[k]].value == s[at[k]].value)
    && (forall k | k in at && at[k] < i :: k in at')
  }

  lemma CopiedNext(s: seq<Slot>, at: map<int, int>, i: int, t: seq<Slot>, at0: map<int, int>,
                   slot: int, t': seq<Slot>, at': map<int, int>)
    requires Located(s, at) && Located(t, at0) && 0 <= i < |s| && Copied(s, at, i, t, at0)
    requires s[i].Used? && 0 <= slot < |t| && !t[slot].Used?
    requires t' == t[slot := s[i]] && at' == at0[s[i].key := slot] && Located(t', at')
    ensures Copied(s, at, i + 1, t', at')
  {
    forall k | k in at0 ensures t'[at0[k]] == t[at0[k]] {
      assert t[at0[k]].Used?;
    }
  }

  lemma CopiedSkip(s: seq<Slot>, at: map<int, int>, i: int, t: seq<Slot>, at': map<int, int>)
    requires Located(s, at) && Located(t, at') && 0 <= i < |s| && Copied(s, at, i, t, at') && !s[i].Used?
    ensures Copied(s, at, i + 1, t, at')
  {
    forall k | k in at ensures at[k] != i {
      assert s[at[k]].Used?;
    }
  }

  lemma CopiedAll(s: seq<Slot>, at: map<int, int>, t: seq<Slot>, at': map<int, int>)
    requires Located(s, at) && Located(t, at') && Copied(s, at, |s|, t, at')
    ensures ContentsOf(t, at') == ContentsOf(s, at)
  {
    var m, m' := ContentsOf(s, at), ContentsOf(t, at');
    forall k | k in m ensures k in m' && m'[k] == m[k] {
      assert at[k] < |s|;
    }
    forall k | k in m' ensures k in m {
      assert k in at';
    }
  }

  datatype Item = Item(key: int, value: Address)

  /** The entries an iteration from slot i on yields, in order. */
  function Items(s: seq<Slot>, i: int): seq<Item>
    requires 0 <= i
    decreases |s| - i
  {
    if i >= |s| then []
    else (if s[i].Used? then [Item(s[i].key, s[i].value)] else []) + Items(s, i + 1)
  }

  /** `items` are exactly the keys placed from slot i on, each once, with their values. */
  ghost predicate Exactly(items: seq<Item>, s: seq<Slot>, at: map<int, int>, i: int)
    requires Located(s, at)
  {
    && (forall p | 0 <= p < |items| ::
          items[p].key in at && at[items[p].key] >= i && items[p].value == s[at[items[p].key]].value)
    && (forall p, q | 0 <= p < q < |items| :: items[p].key != items[q].key)
    && (forall k | k in at && at[k] >= i :: exists p :: 0 <= p < |items| && items[p].key == k)
  }

  lemma {:induction false} ItemsExact(s: seq<Slot>, at: map<int, int>, i: int)
    requires Located(s, at) && 0 <= i <= |s|
    ensures Exactly(Items(s, i), s, at, i)
    decreases |s| - i
  {
    if i < |s| {
      var items, rest := Items(s, i), Items(s, i + 1);
      ItemsExact(s, at, i + 1);
      if s[i].Used? {
        assert items == [Item(s[i].key, s[i].value)] + rest;
        ExactlyNext(rest, s, at, i);
      } else {
        assert items == rest;
        forall k | k in at ensures at[k] != i {
          assert s[at[k]].Used?;
        }
      }
    }
  }

  lemma ExactlyNext(rest: seq<Item>, s: seq<Slot>, at: map<int, int>, i: int)
    requires Located(s, at) && 0 <= i < |s| && s[i].Used? && Exactly(rest, s, at, i + 1)
    ensures Exactly([Item(s[i].key, s[i].value)] + rest, s, at, i)
  {
    var items := [Item(s[i].key, s[i].value)] + rest;
    forall k | k in at && at[k] >= i ensures exists p :: 0 <= p < |items| && items[p].key == k {
      if at[k] == i {
        assert items[0].key == k;
      } else {
        var p :| 0 <= p < |rest| && rest[p].key == k;
        assert items[p + 1].key == k;
      }
    }
  }

  /** The first d slots on a key's path are not empty and do not hold it; tombstone
      is one of them, or -1. */
  ghost predicate Probed(s: seq<Slot>, key: int, d: int, tombstone: int)
    requires |s| > 0 && 0 <= d < |s|
  {
    var h := Home(key, |s|);
    && Clear(s, h, d)
    && (forall i | 0 <= i < d :: !(s[At(h, i, |s|)].Used? && s[At(h, i, |s|)].key == key))
    && -1 <= tombstone < |s|
    && (tombstone >= 0 ==> s[tombstone].Tombstone? && Steps(h, tombstone, |s|) < d)
  }

  lemma ProbedNext(s: seq<Slot>, key: int, d: int, tombstone: int)
    requires |s| > 0 && 0 <= d < |s| - 1 && Probed(s, key, d, tombstone)
    requires var slot := s[At(Home(key, |s|), d, |s|)]; !slot.Empty? && !(slot.Used? && slot.key == key)
    ensures var j := At(Home(key, |s|), d, |s|);
            Probed(s, key, d + 1, if s[j].Tombstone? && tombstone == -1 then j else tombstone)
  {
  }

  lemma StopsAtEmpty(s: seq<Slot>, at: map<int, int>, key: int, d: int, tombstone: int)
    requires |s| > 0 && 0 <= d < |s| && Located(s, at) && Reachable(s) && Probed(s, key, d, tombstone)
    requires s[At(Home(key, |s|), d, |s|)].Empty?
    ensures Stops(s, at, key, if tombstone != -1 then tombstone else At(Home(key, |s|), d, |s|), false)
  {
    AbsentKey(s, at, key, d);
  }

  class Map {
    var entries: array<Slot>
    var len: int
    var tombstones: int
    ghost var at: map<int, int>

    ghost predicate Valid()
      reads this, entries
    {
      && Located(entries[..], at) && Reachable(entries[..])
      && len == Count(entries[..], IsUsed) && tombstones == Count(entries[..], IsTombstone)
      && (entries.Length == 0 ||
          (INITIAL_CAP <= entries.Length && PowerOfTwo(entries.Length) && len + tombstones < entries.Length))
    }

    ghost function Contents(): map<int, Address>
      requires Valid()
      reads this, entries
    {
      ContentsOf(entries[..], at)
    }

    /** `rtc_u32_map_init` */
    constructor ()
      ensures Valid() && Contents() == map[]
    {
      entries := new Slot[0];
      len, tombstones, at := 0, 0, map[];
    }

    /** `u32_find_slot`; the load rule keeps an empty slot, so the loop ends. */
    method FindSlot(key: int) returns (slot: int, found: bool)
      requires Valid() && entries.Length > 0
      ensures Stops(entries[..], at, key, slot, found)
    {
      ghost var s, h := entries[..], Home(key, entries.Length);
      SomeEmpty(s);
      ghost var e :| 0 <= e < |s| && s[e].Empty?;
      ghost var d, limit := 0, Steps(h, e, |s|);
      assert At(h, limit, |s|) == e;
      slot := Home(key, entries.Length);
      var firstTombstone := -1;
      while true
        invariant 0 <= d <= limit < |s| && slot == At(h, d, |s|) && Probed(s, key, d, firstTombstone)
        decreases limit - d
      {
        if entries[slot].Empty? {
          StopsAtEmpty(s, at, key, d, firstTombstone);
          return if firstTombstone != -1 then firstTombstone else slot, false;
        }
        if entries[slot].Used? && entries[slot].key == key {
          return slot, true;
        }
        ProbedNext(s, key, d, firstTombstone);
        if entries[slot].Tombstone? && firstTombstone == -1 {
          firstTombstone := slot;
        }
        NextWraps(slot, entries.Length);
        slot := Next(slot, entries.Length);
        d := d + 1;
      }
    }

    /** `rtc_u32_map_get` */
    method Get(key: int) returns (value: Address)
      requires Valid()
      ensures value == if key in Contents() then Contents()[key] else 0
    {
      if entries.Length == 0 {
        return 0;
      }
      var slot, found := FindSlot(key);
      return if found then entries[slot].value else 0;
    }

    /** `rtc_u32_map_has` */
    method Has(key: int) returns (found: bool)
      requires Valid()
      ensures found <==> key in Contents()
    {
      if entries.Length == 0 {
        return false;
      }
      var slot;
      slot, found := FindSlot(key);
    }

    /** The probe loop of `u32_rehash`, which meets no tombstones. */
    static method FreeSlot(t: array<Slot>, key: int, ghost at: map<int, int>) returns (slot: int)
      requires PowerOfTwo(t.Length) && t.Length > 0 && Located(t[..], at) && Reachable(t[..]) && key !in at
      requires Count(t[..], IsTombstone) == 0 && Count(t[..], IsUsed) < t.Length
      ensures Stops(t[..], at, key, slot, false) && t[slot].Empty?
    {
      ghost var s, h := t[..], Home(key, t.Length);
      SomeEmpty(s);
      ghost var e :| 0 <= e < |s| && s[e].Empty?;
      ghost var d, limit := 0, Steps(h, e, |s|);
      assert At(h, limit, |s|) == e;
      slot := Home(key, t.Length);
      while t[slot].Used?
        invariant 0 <= d <= limit < |s| && slot == At(h, d, |s|) && Clear(s, h, d)
        decreases limit - d
      {
        NextWraps(slot, t.Length);
        slot := Next(slot, t.Length);
        d := d + 1;
      }
      NoTombstone(s, slot);
    }

    /** The copy loop of `u32_rehash`. */
    method CopyInto(t: array<Slot>) returns (ghost at': map<int, int>)
      requires Valid() && t != entries && t.Length > len && t.Length > 0 && PowerOfTwo(t.Length)
      requires forall j | 0 <= j < t.Length :: t[j].Empty?
      modifies t
      ensures Located(t[..], at') && Reachable(t[..])
      ensures ContentsOf(t[..], at') == Contents()
      ensures Count(t[..], IsUsed) == len && Count(t[..], IsTombstone) == 0
    {
      ghost var s := entries[..];
      at' := map[];
      CountNone(t[..], IsUsed);
      CountNone(t[..], IsTombstone);
      var i := 0;
      while i < entries.Length
        invariant 0 <= i <= entries.Length && entries[..] == s
        invariant Located(t[..], at') && Reachable(t[..]) && Copied(s, at, i, t[..], at')
        invariant Count(t[..], IsUsed) == Count(s[..i], IsUsed) && Count(t[..], IsTombstone) == 0
      {
        CountPrefix(s, i);
        if entries[i].Used? {
          var key, value := entries[i].key, entries[i].value;
          var slot := FreeSlot(t, key, at');
          ghost var t0, at0 := t[..], at';
          t[slot] := Used(key, value);
          at' := at'[key := slot];
          Inserted(t0, at0, key, value, slot, t[..], at');
          CopiedNext(s, at, i, t0, at0, slot, t[..], at');
        } else {
          CopiedSkip(s, at, i, t[..], at');
        }
        i := i + 1;
      }
      assert s[..|s|] == s;
      CopiedAll(s, at, t[..], at');
    }

    /** `u32_rehash`; `memory` says whether calloc succeeds. */
    method Rehash(newCap: int, memory: bool) returns (ok: bool)
      requires Valid() && newCap >= INITIAL_CAP && newCap > len && PowerOfTwo(newCap)
      modifies this
      ensures Valid() && Contents() == old(Contents())
      ensures ok == memory && len == old(len)
      ensures !ok ==> entries == old(entries) && tombstones == old(tombstones)
      ensures ok ==> fresh(entries) && entries.Length == newCap && tombstones == 0
    {
      if !memory {
        return false;
      }
      var t := new Slot[newCap](_ => Empty);
      ghost var at' := CopyInto(t);
      entries, tombstones, at := t, 0, at';
      return true;
    }

    /** The load rule: used slots and tombstones fill three quarters of the table. */
    predicate Grows()
      reads this
    {
      entries.Length == 0 || (len + tombstones) * 4 >= entries.Length * 3
    }

    /** `rtc_u32_map_set` */
    method Set(key: int, value: Address, memory: bool) returns (ok: bool)
      requires Valid()
      modifies this, entries
      ensures Valid()
      ensures ok ==> Contents() == old(Contents())[key := value]
      ensures !ok ==> Contents() == old(Contents()) && entries == old(entries)
      ensures ok <==> !old(Grows()) || (memory && old(entries.Length) <= SIZE_MAX / 2)
    {
      if entries.Length == 0 {
        assert INITIAL_CAP == Pow2(4);
        ok := Rehash(INITIAL_CAP, memory);
        if !ok {
          return;
        }
      } else if (len + tombstones) * 4 >= entries.Length * 3 {
        if entries.Length > SIZE_MAX / 2 {
          return false;
        }
        ghost var n: nat :| entries.Length == Pow2(n);
        assert entries.Length * 2 == Pow2(n + 1);
        ok := Rehash(entries.Length * 2, memory);
        if !ok {
          return;
        }
      }
      Write(key, value);
      return true;
    }

    /** The part of set that follows the load check. */
    method Write(key: int, value: Address)
      requires Valid() && entries.Length >= INITIAL_CAP && len + tombstones + 1 < entries.Length
      modifies this, entries
      ensures Valid() && Contents() == old(Contents())[key := value]
    {
      var slot, found := FindSlot(key);
      ghost var s, at0 := entries[..], at;
      if found {
        entries[slot] := Used(key, value);
        Overwritten(s, at0, key, value, entries[..]);
        return;
      }
      if entries[slot].Tombstone? {
        tombstones := tombstones - 1;
      }
      entries[slot] := Used(key, value);
      len := len + 1;
      at := at[key := slot];
      Inserted(s, at0, key, value, slot, entries[..], at);
    }

    /** `rtc_u32_map_remove`; a failed compaction is harmless. */
    method Remove(key: int, memory: bool) returns (present: bool)
      requires Valid()
      modifies this, entries
      ensures Valid() && Contents() == old(Contents()) - {key}
      ensures present <==> key in old(Contents())
    {
      if entries.Length == 0 {
        return false;
      }
      var slot, found := FindSlot(key);
      if !found {
        return false;
      }
      ghost var s, at0 := entries[..], at;
      entries[slot] := Tombstone;
      len := len - 1;
      tombstones := tombstones + 1;
      at := at - {key};
      Removed(s, at0, key, entries[..], at);
      if tombstones * 8 >= entries.Length && len * 2 < entries.Length && entries.Length > INITIAL_CAP {
        var _ := Rehash(entries.Length, memory);
      }
      return true;
    }

    /** `rtc_u32_map_next`: the next entry at or after the cursor. */
    method NextEntry(idx: int) returns (found: bool, idx': int, key: int, value: Address)
      requires Valid() && 0 <= idx
      ensures found ==> idx < idx' <= entries.Length
      ensures found ==> Items(entries[..], idx) == [Item(key, value)] + Items(entries[..], idx')
      ensures !found ==> Items(entries[..], idx) == []
    {
      idx', key, value := idx, 0, 0;
      while idx' < entries.Length
        invariant idx <= idx'
        invariant Items(entries[..], idx) == Items(entries[..], idx')
        decreases entries.Length - idx'
      {
        var e := entries[idx'];
        idx' := idx' + 1;
        if e.Used? {
          return true, idx', e.key, e.value;
        }
      }
      return false, idx', 0, 0;
    }
  }

  lemma {:induction false} NoTombstone(s: seq<Slot>, j: int)
    requires Count(s, IsTombstone) == 0 && 0 <= j < |s|
    ensures !s[j].Tombstone?
  {
    if j < |s| - 1 {
      NoTombstone(s[..|s| - 1], j);
    }
  }

  lemma CountPrefix(s: seq<Slot>, i: int)
    requires 0 <= i < |s|
    ensures Count(s[..i + 1], IsUsed) == Count(s[..i], IsUsed) + if s[i].Used? then 1 else 0
    ensures Count(s[..i + 1], IsUsed) <= Count(s, IsUsed)
  {
    assert s[..i + 1][..i] == s[..i];
    CountMonotone(s, i + 1);
  }

  lemma {:induction false} CountMonotone(s: seq<Slot>, i: int)
    requires 0 <= i <= |s|
    ensures Count(s[..i], IsUsed) <= Count(s, IsUsed)
  {
    if i < |s| {
      assert s[..|s| - 1][..i] == s[..i];
      CountMonotone(s[..|s| - 1], i);
    } else {
      assert s[..i] == s;
    }
  }
}
