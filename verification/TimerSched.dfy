/** The worker's timer scheduler: a binary min-heap of deadlines, cancellation by
    clearing a flag, and handles made of a slot and its generation.  Its meaning
    is the set of pending timers. */
module TimerSched {
  import opened Collections

  const GENERATIONS: int := 0x1_0000_0000
  const INT_MAX: int := 0x7FFF_FFFF

  /** `rtc_timer_sched_node_t` */
  datatype Node = Node(deadline: int, fn: int, user: int, generation: int, slot: int)

  /** `timer_make_handle` */
  function MakeHandle(slot: int, generation: int): int
  {
    generation * GENERATIONS + slot
  }

  function HandleOf(n: Node): int
  {
    MakeHandle(n.slot, n.generation)
  }

  predicate SameTimer(x: Node, y: Node)
  {
    x.slot == y.slot && x.generation == y.generation
  }

  // ----- the heap -----

  function Parent(i: int): int
  {
    (i - 1) / 2
  }

  ghost predicate HeapOrdered(h: seq<Node>)
  {
    forall i | 1 <= i < |h| :: h[Parent(i)].deadline <= h[i].deadline
  }

  lemma {:induction false} RootIsMinimum(h: seq<Node>, i: int)
    requires HeapOrdered(h) && 0 <= i < |h|
    ensures h[0].deadline <= h[i].deadline
    decreases i
  {
    if i > 0 {
      RootIsMinimum(h, Parent(i));
    }
  }

  /** Every pair is in order except that k may be smaller than its parent. */
  ghost predicate OrderedAbove(h: seq<Node>, k: int)
  {
    && (forall i | 1 <= i < |h| && i != k :: h[Parent(i)].deadline <= h[i].deadline)
    && (forall i | 1 <= i < |h| && Parent(i) == k && k > 0 :: h[Parent(k)].deadline <= h[i].deadline)
  }

  /** Every pair is in order except that k may be larger than its children. */
  ghost predicate OrderedBelow(h: seq<Node>, k: int)
  {
    && (forall i | 1 <= i < |h| && Parent(i) != k :: h[Parent(i)].deadline <= h[i].deadline)
    && (forall i | 1 <= i < |h| && Parent(i) == k && k > 0 :: h[Parent(k)].deadline <= h[i].deadline)
  }

  function Swap(h: seq<Node>, i: int, j: int): (r: seq<Node>)
    requires 0 <= i < |h| && 0 <= j < |h|
    ensures |r| == |h| && multiset(r) == multiset(h)
  {
    h[i := h[j]][j := h[i]]
  }

  lemma SwappedUp(h: seq<Node>, k: int)
    requires 0 < k < |h| && OrderedAbove(h, k) && h[k].deadline < h[Parent(k)].deadline
    ensures OrderedAbove(Swap(h, Parent(k), k), Parent(k))
  {
    var p := Parent(k);
    var r := Swap(h, p, k);
    forall i | 1 <= i < |r| && i != p ensures r[Parent(i)].deadline <= r[i].deadline {
      assert h[Parent(i)].deadline <= h[i].deadline || i == k;
      if i != k && Parent(i) == k {
        assert h[p].deadline <= h[i].deadline;
      }
    }
    forall i | 1 <= i < |r| && Parent(i) == p && p > 0 ensures r[Parent(p)].deadline <= r[i].deadline {
      assert h[Parent(p)].deadline <= h[p].deadline;
      assert i != k ==> h[p].deadline <= h[i].deadline;
    }
  }

  /** The child swapped up is no larger than its sibling. */
  lemma SwappedDown(h: seq<Node>, k: int, c: int)
    requires 0 <= k < c < |h| && OrderedBelow(h, k) && Parent(c) == k && h[c].deadline < h[k].deadline
    requires forall i | 1 <= i < |h| && Parent(i) == k :: h[c].deadline <= h[i].deadline
    ensures OrderedBelow(Swap(h, k, c), c)
  {
    var r := Swap(h, k, c);
    forall i | 1 <= i < |r| && Parent(i) != c ensures r[Parent(i)].deadline <= r[i].deadline {
      if i == k {
        assert h[Parent(k)].deadline <= h[c].deadline;
      } else if Parent(i) == k {
        assert h[c].deadline <= h[i].deadline;
      } else {
        assert h[Parent(i)].deadline <= h[i].deadline;
      }
    }
    forall i | 1 <= i < |r| && Parent(i) == c ensures r[Parent(c)].deadline <= r[i].deadline {
      assert h[Parent(i)].deadline <= h[i].deadline;
    }
  }

  /** `heap_sift_up` */
  method SiftUp(h: seq<Node>, at: int) returns (r: seq<Node>)
    requires 0 <= at < |h| && OrderedAbove(h, at)
    ensures HeapOrdered(r) && |r| == |h| && multiset(r) == multiset(h)
  {
    r := h;
    var idx := at;
    while idx > 0
      invariant 0 <= idx < |r| == |h| && multiset(r) == multiset(h) && OrderedAbove(r, idx)
    {
      var parent := (idx - 1) / 2;
      if r[parent].deadline <= r[idx].deadline {
        break;
      }
      SwappedUp(r, idx);
      r := Swap(r, parent, idx);
      idx := parent;
    }
  }

  /** `heap_sift_down` */
  method SiftDown(h: seq<Node>, at: int) returns (r: seq<Node>)
    requires 0 <= at < |h| && OrderedBelow(h, at)
    ensures HeapOrdered(r) && |r| == |h| && multiset(r) == multiset(h)
  {
    r := h;
    var idx := at;
    while true
      invariant 0 <= idx < |r| == |h| && multiset(r) == multiset(h) && OrderedBelow(r, idx)
      decreases |h| - idx
    {
      var left := idx * 2 + 1;
      var right := left + 1;
      var smallest := idx;
      if left < |r| && r[left].deadline < r[smallest].deadline {
        smallest := left;
      }
      if right < |r| && r[right].deadline < r[smallest].deadline {
        smallest := right;
      }
      if smallest == idx {
        assert forall i | 1 <= i < |r| && Parent(i) == idx :: i == left || i == right;
        return;
      }
      assert forall i | 1 <= i < |r| && Parent(i) == idx :: i == left || i == right;
      SwappedDown(r, idx, smallest);
      r := Swap(r, idx, smallest);
      idx := smallest;
    }
  }

  /** `heap_pop` */
  method Pop(h: seq<Node>) returns (node: Node, r: seq<Node>)
    requires h != [] && HeapOrdered(h)
    ensures node == h[0] && HeapOrdered(r) && |r| == |h| - 1 && multiset(r) == multiset(h) - multiset{node}
  {
    node := h[0];
    var n := |h| - 1;
    r := h[..n];
    assert h == h[..n] + [h[n]];
    if n > 0 {
      assert multiset(r[0 := h[n]]) == multiset(h) - multiset{node};
      r := SiftDown(r[0 := h[n]], 0);
    }
  }

  // ----- pending timers -----

  const Set: bool -> bool := (b: bool) => b

  /** `timer_node_active` */
  predicate IsActive(n: Node, active: seq<bool>, gens: seq<int>)
    requires |active| == |gens|
  {
    0 <= n.slot < |active| && active[n.slot] && gens[n.slot] == n.generation
  }

  ghost function PendingOf(h: seq<Node>, active: seq<bool>, gens: seq<int>): set<Node>
    requires |active| == |gens|
  {
    set n | n in h && IsActive(n, active, gens)
  }

  /** No two nodes of the heap, stale ones included, belong to the same timer. */
  ghost predicate Distinct(h: seq<Node>)
  {
    && (forall x, y | x in h && y in h && SameTimer(x, y) :: x == y)
    && (forall x | x in h :: multiset(h)[x] == 1)
  }

  ghost predicate InRange(h: seq<Node>, active: seq<bool>, gens: seq<int>)
  {
    && |active| == |gens| <= INT_MAX
    && (forall n | n in h :: 0 <= n.slot < |active| && 1 <= n.generation < GENERATIONS)
    && (forall s | 0 <= s < |gens| :: 0 <= gens[s] < GENERATIONS)
  }

  /** Every active slot has its node, so a timer cannot get lost. */
  ghost predicate Backed(h: seq<Node>, active: seq<bool>, gens: seq<int>)
    requires |active| == |gens|
  {
    forall s | 0 <= s < |active| && active[s] :: exists n :: n in h && n.slot == s && n.generation == gens[s]
  }

  ghost predicate Consistent(h: seq<Node>, active: seq<bool>, gens: seq<int>)
  {
    && HeapOrdered(h) && Distinct(h) && InRange(h, active, gens) && Backed(h, active, gens)
    && Count(active, Set) == |PendingOf(h, active, gens)|
  }

  /** Generation numbers have not wrapped: no node is newer than its slot. */
  ghost predicate Unwrapped(h: seq<Node>, gens: seq<int>)
  {
    forall n | n in h :: 0 <= n.slot < |gens| && n.generation <= gens[n.slot]
  }

  /** Every handle given out so far is no newer than its slot. */
  ghost predicate Past(issued: set<int>, gens: seq<int>)
  {
    forall h | h in issued :: h % GENERATIONS < |gens| && h / GENERATIONS <= gens[h % GENERATIONS]
  }

  /** While the slot's generation has not run out, a new node is stale to nobody
      and its handle has never been given out before. */
  lemma NewHandle(h: seq<Node>, issued: set<int>, gens: seq<int>, node: Node, h': seq<Node>)
    requires Unwrapped(h, gens) && Past(issued, gens) && 0 <= node.slot < |gens| <= INT_MAX
    requires gens[node.slot] < GENERATIONS - 1 && node.generation == gens[node.slot] + 1
    requires multiset(h') == multiset(h) + multiset{node}
    ensures NotStale(h, node.slot, node.generation) && HandleOf(node) !in issued
    ensures Unwrapped(h', gens[node.slot := node.generation])
    ensures Past(issued + {HandleOf(node)}, gens[node.slot := node.generation])
  {
    SameElements(h, h', multiset{node});
    HandleParts(node.slot, node.generation);
  }

  /** No node left in the heap carries the identity of the new one. */
  ghost predicate NotStale(h: seq<Node>, slot: int, generation: int)
  {
    forall n | n in h :: !(n.slot == slot && n.generation == generation)
  }

  ghost predicate IsFree(active: seq<bool>, slot: int)
  {
    0 <= slot && (slot < |active| ==> !active[slot])
  }

  /** The generation a slot has reached; a slot not allocated yet is at 0. */
  function Current(gens: seq<int>, slot: int): int
    requires 0 <= slot
  {
    if slot < |gens| then gens[slot] else 0
  }

  function NextGeneration(g: int): (r: int)
    ensures 1 <= r < GENERATIONS
    ensures 0 <= g < GENERATIONS - 1 ==> r == g + 1
  {
    if (g + 1) % GENERATIONS == 0 then 1 else (g + 1) % GENERATIONS
  }

  lemma SameElements(a: seq<Node>, b: seq<Node>, m: multiset<Node>)
    requires multiset(b) == multiset(a) + m
    ensures forall n :: n in b <==> n in a || n in m
  {
    assert forall n :: n in b <==> n in multiset(b);
    assert forall n :: n in a <==> n in multiset(a);
  }

  /** A node put on the heap for an inactive slot. */
  lemma AddedPending(h: seq<Node>, active: seq<bool>, gens: seq<int>, node: Node, h': seq<Node>)
    requires |active| == |gens| && 0 <= node.slot < |active| && !active[node.slot]
    requires multiset(h') == multiset(h) + multiset{node} && NotStale(h, node.slot, node.generation)
    ensures var active', gens' := active[node.slot := true], gens[node.slot := node.generation];
            && PendingOf(h', active', gens') == PendingOf(h, active, gens) + {node}
            && node !in PendingOf(h, active, gens)
            && (Backed(h, active, gens) ==> Backed(h', active', gens'))
            && Count(active', Set) == Count(active, Set) + 1
  {
    SameElements(h, h', multiset{node});
    CountUpdate(active, Set, node.slot, true);
    var active', gens' := active[node.slot := true], gens[node.slot := node.generation];
    if Backed(h, active, gens) {
      forall s | 0 <= s < |active'| && active'[s]
        ensures exists n :: n in h' && n.slot == s && n.generation == gens'[s]
      {
        if s == node.slot {
          assert node in h';
        } else {
          var n :| n in h && n.slot == s && n.generation == gens[s];
          assert n in h';
        }
      }
    }
  }

  lemma AddedDistinct(h: seq<Node>, node: Node, h': seq<Node>)
    requires multiset(h') == multiset(h) + multiset{node} && Distinct(h)
    ensures Distinct(h') <==> NotStale(h, node.slot, node.generation)
  {
    SameElements(h, h', multiset{node});
    if NotStale(h, node.slot, node.generation) {
      assert node !in multiset(h);
      forall x | x in h' ensures multiset(h')[x] == 1 {
        assert x in h || x == node;
      }
    } else {
      var n :| n in h && n.slot == node.slot && n.generation == node.generation;
      assert n in h' && node in h' && SameTimer(n, node);
      assert n == node ==> multiset(h')[node] == 2;
    }
  }

  /** Adding a node keeps everything consistent exactly when no stale node of the
      same slot and generation is still on the heap. */
  lemma AddedConsistent(h: seq<Node>, active: seq<bool>, gens: seq<int>, node: Node,
                        h': seq<Node>, active': seq<bool>, gens': seq<int>)
    requires Consistent(h, active, gens) && 0 <= node.slot < |active| && !active[node.slot]
    requires 1 <= node.generation < GENERATIONS
    requires HeapOrdered(h') && multiset(h') == multiset(h) + multiset{node}
    requires active' == active[node.slot := true] && gens' == gens[node.slot := node.generation]
    ensures Consistent(h', active', gens') <==> NotStale(h, node.slot, node.generation)
    ensures Consistent(h', active', gens') ==>
              PendingOf(h', active', gens') == PendingOf(h, active, gens) + {node}
                && node !in PendingOf(h, active, gens)
  {
    AddedDistinct(h, node, h');
    SameElements(h, h', multiset{node});
    if NotStale(h, node.slot, node.generation) {
      AddedPending(h, active, gens, node, h');
    }
  }

  /** One more slot, not yet used. */
  lemma GrownConsistent(h: seq<Node>, active: seq<bool>, gens: seq<int>)
    requires Consistent(h, active, gens) && |active| < INT_MAX
    ensures Consistent(h, active + [false], gens + [0])
    ensures PendingOf(h, active + [false], gens + [0]) == PendingOf(h, active, gens)
  {
    assert (active + [false])[..|active|] == active;
    assert PendingOf(h, active + [false], gens + [0]) == PendingOf(h, active, gens);
  }

  lemma RemovedDistinct(h: seq<Node>, node: Node, h': seq<Node>)
    requires Distinct(h) && node in h && multiset(h') == multiset(h) - multiset{node}
    ensures Distinct(h') && forall n :: n in h' <==> n in h && n != node
  {
    assert multiset(h) == multiset(h') + multiset{node};
    SameElements(h', h, multiset{node});
    assert multiset(h)[node] == 1;
    forall x | x in h' ensures multiset(h')[x] == 1 && x != node {
      assert x in h && multiset(h)[x] == 1;
    }
  }

  /** A node taken off the heap that is not, or no longer, pending. */
  lemma Discarded(h: seq<Node>, active: seq<bool>, gens: seq<int>, node: Node, h': seq<Node>)
    requires Consistent(h, active, gens) && node in h && !IsActive(node, active, gens)
    requires HeapOrdered(h') && multiset(h') == multiset(h) - multiset{node}
    ensures Consistent(h', active, gens) && PendingOf(h', active, gens) == PendingOf(h, active, gens)
    ensures forall n :: n in h' ==> n in h
  {
    RemovedDistinct(h, node, h');
    assert PendingOf(h', active, gens) == PendingOf(h, active, gens);
    forall s | 0 <= s < |active| && active[s] ensures exists n :: n in h' && n.slot == s && n.generation == gens[s] {
      var n :| n in h && n.slot == s && n.generation == gens[s];
      assert n in h';
    }
  }

  ghost function OtherSlots(p: set<Node>, slot: int): set<Node>
  {
    set n | n in p && n.slot != slot
  }

  lemma OneOfSlot(h: seq<Node>, active: seq<bool>, gens: seq<int>, slot: int)
    requires Distinct(h) && InRange(h, active, gens) && Backed(h, active, gens) && 0 <= slot < |active|
    ensures var pending := PendingOf(h, active, gens);
            if active[slot]
            then exists n :: n in pending && n.slot == slot && pending == OtherSlots(pending, slot) + {n}
            else pending == OtherSlots(pending, slot)
  {
    var pending := PendingOf(h, active, gens);
    if active[slot] {
      var n :| n in h && n.slot == slot && n.generation == gens[slot];
      assert n in pending;
      forall x | x in pending && x.slot == slot ensures x == n {
        assert SameTimer(x, n);
      }
      assert pending == OtherSlots(pending, slot) + {n};
    }
  }

  /** A slot's flag cleared: the timer it stood for, if any, is no longer pending. */
  lemma Cleared(h: seq<Node>, active: seq<bool>, gens: seq<int>, slot: int, active': seq<bool>)
    requires Consistent(h, active, gens) && 0 <= slot < |active| && active' == active[slot := false]
    ensures Consistent(h, active', gens)
    ensures PendingOf(h, active', gens) == OtherSlots(PendingOf(h, active, gens), slot)
  {
    ClearedCount(h, active, gens, slot, active');
  }

  lemma ClearedCount(h: seq<Node>, active: seq<bool>, gens: seq<int>, slot: int, active': seq<bool>)
    requires Distinct(h) && InRange(h, active, gens) && Backed(h, active, gens) && 0 <= slot < |active|
    requires active' == active[slot := false]
    ensures PendingOf(h, active', gens) == OtherSlots(PendingOf(h, active, gens), slot)
    ensures |PendingOf(h, active', gens)| - |PendingOf(h, active, gens)| == Count(active', Set) - Count(active, Set)
  {
    var pending, rest := PendingOf(h, active, gens), OtherSlots(PendingOf(h, active, gens), slot);
    CountUpdate(active, Set, slot, false);
    OneOfSlot(h, active, gens, slot);
    ClearedPending(h, active, gens, slot, active');
    if active[slot] {
      var n :| n in pending && n.slot == slot && pending == rest + {n};
      assert n !in rest;
    }
  }

  lemma ClearedPending(h: seq<Node>, active: seq<bool>, gens: seq<int>, slot: int, active': seq<bool>)
    requires InRange(h, active, gens) && 0 <= slot < |active| && active' == active[slot := false]
    ensures PendingOf(h, active', gens) == OtherSlots(PendingOf(h, active, gens), slot)
  {
  }

  /** An active node taken off the heap and its slot released. */
  lemma Taken(h: seq<Node>, active: seq<bool>, gens: seq<int>, node: Node, h': seq<Node>, active': seq<bool>)
    requires Consistent(h, active, gens) && node in h && IsActive(node, active, gens)
    requires HeapOrdered(h') && multiset(h') == multiset(h) - multiset{node} && active' == active[node.slot := false]
    ensures Consistent(h', active', gens)
    ensures PendingOf(h', active', gens) == PendingOf(h, active, gens) - {node}
    ensures forall n :: n in h' ==> n in h
  {
    Cleared(h, active, gens, node.slot, active');
    Discarded(h, active', gens, node, h');
    OneOfSlot(h, active, gens, node.slot);
    var pending := PendingOf(h, active, gens);
    assert node in pending && node !in OtherSlots(pending, node.slot);
    assert OtherSlots(pending, node.slot) == pending - {node};
  }

  ghost function Except(p: set<Node>, handle: int): set<Node>
  {
    set n | n in p && HandleOf(n) != handle
  }

  /** A handle names its slot and generation. */
  lemma HandleParts(slot: int, generation: int)
    requires 0 <= slot <= INT_MAX
    ensures MakeHandle(slot, generation) % GENERATIONS == slot
            && MakeHandle(slot, generation) / GENERATIONS == generation
  {
  }

  /** A slot's generation grows by at most one. */
  ghost predicate Aged(gens: seq<int>, gens': seq<int>)
  {
    |gens| <= |gens'| && forall j | 0 <= j < |gens'| :: gens'[j] <= Current(gens, j) + 1
  }

  class Sched {
    var heap: seq<Node>
    var generations: seq<int>
    var active: seq<bool>
    ghost var issued: set<int>

    ghost predicate Valid()
      reads this
    {
      Consistent(heap, active, generations)
    }

    /** The timers that are scheduled and neither fired nor cancelled. */
    ghost function Pending(): set<Node>
      requires |active| == |generations|
      reads this
    {
      PendingOf(heap, active, generations)
    }

    /** Nothing has wrapped so far: handles are unique for good. */
    ghost predicate Unique()
      reads this
    {
      Unwrapped(heap, generations) && Past(issued, generations)
    }

    constructor ()
      ensures Valid() && Unique() && Pending() == {} && issued == {} && generations == []
    {
      heap, generations, active, issued := [], [], [], {};
    }

    /** `alloc_slot`: the first inactive slot, or a new one if memory allows. */
    method AllocSlot(memory: bool) returns (slot: int)
      requires Valid()
      modifies this`active, this`generations
      ensures Valid() && Pending() == old(Pending())
      ensures -1 <= slot < |active| && (slot >= 0 ==> !active[slot])
      ensures old(active) <= active && old(generations) <= generations
      ensures slot == -1 ==> !memory || |active| >= INT_MAX
      ensures forall j | |old(generations)| <= j < |generations| :: generations[j] == 0
    {
      slot := 0;
      while slot < |active|
        invariant 0 <= slot <= |active|
        invariant forall i | 0 <= i < slot :: active[i]
      {
        if !active[slot] {
          return;
        }
        slot := slot + 1;
      }
      if !memory || |active| >= INT_MAX {
        return -1;
      }
      GrownConsistent(heap, active, generations);
      active, generations := active + [false], generations + [0];
    }

    /** `rtc_timer_sched_add`; the two flags are the two growing allocations. */
    method Add(deadline: int, fn: int, user: int, heapMemory: bool, slotMemory: bool)
      returns (handle: int, ghost node: Node)
      requires Valid()
      modifies this
      ensures handle == 0 ==> Valid() && Pending() == old(Pending()) && issued == old(issued)
      ensures handle == 0 ==> !heapMemory || !slotMemory || |active| >= INT_MAX
      ensures handle != 0 ==>
                && node == Node(deadline, fn, user, node.generation, node.slot) && handle == HandleOf(node)
                && IsFree(old(active), node.slot)
                && node.generation == NextGeneration(Current(old(generations), node.slot))
      ensures handle != 0 ==> (Valid() <==> NotStale(old(heap), node.slot, node.generation))
      ensures handle != 0 && Valid() ==> Pending() == old(Pending()) + {node} && node !in old(Pending())
      ensures handle != 0 ==> issued == old(issued) + {handle}
      ensures handle != 0 && old(Unique()) && Current(old(generations), node.slot) < GENERATIONS - 1
              ==> Valid() && Unique() && handle !in old(issued)
      ensures handle == 0 && old(Unique()) ==> Unique()
      ensures Aged(old(generations), generations)
    {
      node := Node(deadline, fn, user, 0, 0);
      if !heapMemory {
        return 0, node;
      }
      var slot := AllocSlot(slotMemory);
      if slot < 0 {
        return 0, node;
      }
      assert old(Unique()) ==> Unique();
      handle, node := Insert(slot, deadline, fn, user);
    }

    /** The part of add that follows the allocations. */
    method Insert(slot: int, deadline: int, fn: int, user: int) returns (handle: int, ghost node: Node)
      requires Valid() && 0 <= slot < |active| && !active[slot]
      modifies this
      ensures node == Node(deadline, fn, user, NextGeneration(old(generations)[slot]), slot)
      ensures handle == HandleOf(node) && handle != 0 && issued == old(issued) + {handle}
      ensures generations == old(generations)[slot := node.generation]
      ensures Valid() <==> NotStale(old(heap), slot, node.generation)
      ensures Valid() ==> Pending() == old(Pending()) + {node} && node !in old(Pending())
      ensures old(Unique()) && old(generations)[slot] < GENERATIONS - 1 ==>
                Valid() && Unique() && handle !in old(issued)
    {
      ghost var h, a, g := heap, active, generations;
      var next := NextGeneration(generations[slot]);
      generations := generations[slot := next];
      active := active[slot := true];
      var n := Node(deadline, fn, user, next, slot);
      heap := SiftUp(heap + [n], |heap|);
      handle := MakeHandle(slot, next);
      issued := issued + {handle};
      node := n;
      AddedConsistent(h, a, g, n, heap, active, generations);
      if old(Unique()) && g[slot] < GENERATIONS - 1 {
        NewHandle(h, old(issued), g, n, heap);
      }
    }

    /** `rtc_timer_sched_cancel`, of any 64-bit number */
    method Cancel(handle: int)
      requires Valid() && 0 <= handle
      modifies this`active
      ensures Valid() && Pending() == Except(old(Pending()), handle)
    {
      if handle == 0 {
        CancelNothing(handle);
        return;
      }
      var slot := handle % GENERATIONS;
      slot := if slot > INT_MAX then slot - GENERATIONS else slot;
      var generation := handle / GENERATIONS;
      if slot < 0 || slot >= |active| || generations[slot] != generation {
        CancelNothing(handle);
        return;
      }
      ghost var a := active;
      active := active[slot := false];
      Cleared(heap, a, generations, slot, active);
      assert OtherSlots(old(Pending()), slot) == Except(old(Pending()), handle);
    }

    lemma CancelNothing(handle: int)
      requires Valid() && 0 <= handle
      requires handle / GENERATIONS == 0 || handle % GENERATIONS >= |active|
               || generations[handle % GENERATIONS] != handle / GENERATIONS
      ensures Pending() == Except(Pending(), handle)
    {
      forall n | n in Pending() ensures HandleOf(n) != handle {
        HandleParts(n.slot, n.generation);
      }
    }

    /** `prune_stale_roots` */
    method PruneStaleRoots()
      requires Valid()
      modifies this`heap
      ensures Valid() && Pending() == old(Pending())
      ensures heap != [] ==> IsActive(heap[0], active, generations)
      ensures |heap| <= |old(heap)|
      ensures old(Unique()) ==> Unique()
    {
      while heap != [] && !IsActive(heap[0], active, generations)
        invariant Valid() && Pending() == old(Pending()) && |heap| <= |old(heap)|
        invariant old(Unique()) ==> Unique()
        decreases |heap|
      {
        var node, rest := Pop(heap);
        Discarded(heap, active, generations, node, rest);
        heap := rest;
      }
    }

    /** The root of a pruned heap is a pending timer of minimal deadline. */
    lemma PrunedRoot()
      requires Valid() && (heap != [] ==> IsActive(heap[0], active, generations))
      ensures heap == [] <==> Pending() == {}
      ensures heap != [] ==> heap[0] in Pending() && forall n | n in Pending() :: heap[0].deadline <= n.deadline
    {
      if heap != [] {
        forall n | n in Pending() ensures heap[0].deadline <= n.deadline {
          var i :| 0 <= i < |heap| && heap[i] == n;
          RootIsMinimum(heap, i);
        }
      }
    }

    /** `rtc_timer_sched_next_timeout_ms` */
    method NextTimeout(now: int, default: int) returns (timeout: int)
      requires Valid()
      modifies this`heap
      ensures Valid() && Pending() == old(Pending())
      ensures old(Unique()) ==> Unique()
      ensures Pending() == {} ==> timeout == default
      ensures forall n | n in Pending() :: timeout <= if now >= n.deadline then 0 else n.deadline - now
      ensures Pending() != {} ==> 0 <= timeout <= INT_MAX
      ensures Pending() != {} && timeout < INT_MAX ==>
                exists n :: n in Pending() && timeout == if now >= n.deadline then 0 else n.deadline - now
    {
      PruneStaleRoots();
      PrunedRoot();
      if heap == [] {
        return default;
      }
      var deadline := heap[0].deadline;
      if now >= deadline {
        return 0;
      }
      var diff := deadline - now;
      return if diff > INT_MAX then INT_MAX else diff;
    }

    /** `rtc_timer_sched_pop_due`: one due timer, earliest deadline first. */
    method PopDue(now: int) returns (due: bool, node: Node)
      requires Valid()
      modifies this
      ensures Valid() && issued == old(issued) && generations == old(generations)
      ensures old(Unique()) ==> Unique()
      ensures due <==> exists n :: n in old(Pending()) && n.deadline <= now
      ensures due ==> node in old(Pending()) && node.deadline <= now
      ensures due ==> forall n | n in old(Pending()) :: node.deadline <= n.deadline
      ensures Pending() == old(Pending()) - if due then {node} else {}
    {
      // The source repeats this until an active root turns up; pruning leaves only those.
      node := Node(0, 0, 0, 0, 0);
      PruneStaleRoots();
      PrunedRoot();
      if heap == [] || heap[0].deadline > now {
        return false, node;
      }
      node := heap[0];
      TakeRoot();
      return true, node;
    }

    /** The pruned root is popped and its slot released. */
    method TakeRoot()
      requires Valid() && heap != [] && IsActive(heap[0], active, generations)
      modifies this`heap, this`active
      ensures Valid() && Pending() == old(Pending()) - {old(heap[0])}
      ensures old(Unique()) ==> Unique()
    {
      var node, rest := Pop(heap);
      ghost var h, a := heap, active;
      heap, active := rest, active[node.slot := false];
      Taken(h, a, generations, node, heap, active);
    }

    /** `rtc_timer_sched_pending_count` */
    method PendingCount() returns (count: int)
      requires Valid()
      ensures count == |Pending()|
    {
      count := 0;
      var i := 0;
      while i < |active|
        invariant 0 <= i <= |active| && count == Count(active[..i], Set)
      {
        assert active[..i + 1][..i] == active[..i];
        if active[i] {
          count := count + 1;
        }
        i := i + 1;
      }
      assert active[..|active|] == active;
    }
  }
}
