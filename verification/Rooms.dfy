/** The rooms of the signaling server: who is where, and what each peer is told. */
module Rooms {
  import opened Collections

  const MAX_ROOMS: int := 32
  const MAX_PEERS: int := 8
  const MAX_NAME: int := 64

  datatype Room = Room(name: string, active: bool, peers: seq<int>)

  datatype Notice =
    | Joined(others: seq<int>)
    | PeerJoined(peer: int)
    | PeerLeft(peer: int)
    | Full

  /** What a room's name buffer keeps of a name. */
  function Clip(name: string): (r: string)
    ensures r <= name && |r| < MAX_NAME && (r == name || |r| == MAX_NAME - 1)
  {
    if |name| >= MAX_NAME then name[..MAX_NAME - 1] else name
  }

  // ----- what a peer knows -----

  function Elements(peers: seq<int>): set<int>
  {
    set q | q in peers
  }

  function Applied(view: set<int>, n: Notice): set<int>
  {
    match n
    case Joined(others) => Elements(others)
    case PeerJoined(p) => view + {p}
    case PeerLeft(p) => view - {p}
    case Full => view
  }

  /** The set a peer rebuilds from the notices it was sent. */
  function View(log: seq<Notice>): set<int>
  {
    if log == [] then {} else Applied(View(log[..|log| - 1]), log[|log| - 1])
  }

  lemma ViewNext(log: seq<Notice>, n: Notice)
    ensures View(log + [n]) == Applied(View(log), n)
  {
    assert (log + [n])[..|log|] == log;
  }

  ghost function Others(peers: seq<int>, p: int): set<int>
  {
    Elements(peers) - {p}
  }

  // ----- members -----

  ghost predicate Distinct(peers: seq<int>)
  {
    forall i, j | 0 <= i < j < |peers| :: peers[i] != peers[j]
  }

  /** The room without the peer at i, whose place the last one takes. */
  function Without(peers: seq<int>, i: int): seq<int>
    requires 0 <= i < |peers|
  {
    peers[i := peers[|peers| - 1]][..|peers| - 1]
  }

  lemma WithoutMembers(peers: seq<int>, i: int)
    requires 0 <= i < |peers| && Distinct(peers)
    ensures Distinct(Without(peers, i))
    ensures forall q :: q in Without(peers, i) <==> q in peers && q != peers[i]
  {
    var r, n := Without(peers, i), |peers| - 1;
    assert forall k | 0 <= k < n :: r[k] == if k == i then peers[n] else peers[k];
    forall q | q in peers && q != peers[i] ensures q in r {
      var k :| 0 <= k < |peers| && peers[k] == q;
      assert r[if k == n then i else k] == q;
    }
  }

  /** Rooms and the peers' own record of their room agree. */
  ghost predicate Agree(rooms: seq<Room>, idx: map<int, int>)
  {
    && (forall i, p | 0 <= i < |rooms| && p in rooms[i].peers :: p in idx && idx[p] == i)
    && (forall p | p in idx && idx[p] >= 0 :: idx[p] < |rooms| && p in rooms[idx[p]].peers)
  }

  ghost predicate RoomOk(r: Room)
  {
    |r.name| < MAX_NAME && |r.peers| <= MAX_PEERS && Distinct(r.peers) && (r.active <==> r.peers != [])
  }

  /** Names lead to active rooms of that name. */
  ghost predicate Named(rooms: seq<Room>, index: map<string, int>)
  {
    forall n | n in index :: 0 <= index[n] < |rooms| && rooms[index[n]].active && rooms[index[n]].name == n
  }

  /** Every active room is found under its name. */
  ghost predicate Indexed(rooms: seq<Room>, index: map<string, int>)
  {
    forall i | 0 <= i < |rooms| && rooms[i].active :: rooms[i].name in index && index[rooms[i].name] == i
  }

  ghost predicate ViewsAgree(rooms: seq<Room>, log: map<int, seq<Notice>>)
  {
    forall i, p | 0 <= i < |rooms| && p in rooms[i].peers :: p in log && View(log[p]) == Others(rooms[i].peers, p)
  }

  /** A notice reaches each of the peers but one. */
  ghost predicate Told(log: map<int, seq<Notice>>, log': map<int, seq<Notice>>, peers: seq<int>, exclude: Option<int>,
                       n: Notice)
  {
    && log'.Keys == log.Keys
    && forall q | q in log :: log'[q] == if q in peers && exclude != Some(q) then log[q] + [n] else log[q]
  }

  /** One more of the peers is told. */
  lemma ToldNext(log: map<int, seq<Notice>>, told: map<int, seq<Notice>>, log': map<int, seq<Notice>>,
                 peers: seq<int>, k: int, exclude: Option<int>, n: Notice)
    requires Distinct(peers) && 0 <= k < |peers| && Told(log, told, peers[..k], exclude, n) && peers[k] in told
    requires log' == if exclude == Some(peers[k]) then told else told[peers[k] := told[peers[k]] + [n]]
    ensures Told(log, log', peers[..k + 1], exclude, n)
  {
    assert peers[..k + 1] == peers[..k] + [peers[k]];
    assert peers[k] !in peers[..k];
  }

  // ----- leaving and joining -----

  lemma LeaveAgrees(rooms: seq<Room>, idx: map<int, int>, i: int, k: int, r: Room)
    requires 0 <= i < |rooms| && 0 <= k < |rooms[i].peers| && Agree(rooms, idx) && Distinct(rooms[i].peers)
    requires r.peers == Without(rooms[i].peers, k)
    ensures Agree(rooms[i := r], idx[rooms[i].peers[k] := -1])
  {
    var gone, rooms' := rooms[i].peers[k], rooms[i := r];
    var idx' := idx[gone := -1];
    WithoutMembers(rooms[i].peers, k);
    forall j, q | 0 <= j < |rooms'| && q in rooms'[j].peers ensures q in idx' && idx'[q] == j {
      assert q in rooms[j].peers && idx[q] == j;
      assert gone in rooms[i].peers && idx[gone] == i;
    }
    forall q | q in idx' && idx'[q] >= 0 ensures idx'[q] < |rooms'| && q in rooms'[idx'[q]].peers {
      assert q in rooms[idx[q]].peers;
    }
  }

  lemma JoinAgrees(rooms: seq<Room>, idx: map<int, int>, i: int, p: int, r: Room)
    requires 0 <= i < |rooms| && Agree(rooms, idx) && p in idx && idx[p] < 0
    requires r.peers == rooms[i].peers + [p]
    ensures Agree(rooms[i := r], idx[p := i]) && p !in rooms[i].peers
  {
    var rooms', idx' := rooms[i := r], idx[p := i];
    forall j, q | 0 <= j < |rooms'| && q in rooms'[j].peers ensures q in idx' && idx'[q] == j {
      assert q == p || q in rooms[j].peers;
    }
    forall q | q in idx' && idx'[q] >= 0 ensures idx'[q] < |rooms'| && q in rooms'[idx'[q]].peers {
      assert q == p || q in rooms[idx[q]].peers;
    }
    assert r.peers[|r.peers| - 1] == p;
  }

  lemma LeaveViews(rooms: seq<Room>, idx: map<int, int>, i: int, k: int, r: Room,
                   log: map<int, seq<Notice>>, log': map<int, seq<Notice>>)
    requires 0 <= i < |rooms| && 0 <= k < |rooms[i].peers| && Distinct(rooms[i].peers) && Agree(rooms, idx)
    requires r.peers == Without(rooms[i].peers, k) && ViewsAgree(rooms, log)
    requires Told(log, log', r.peers, None, PeerLeft(rooms[i].peers[k]))
    ensures ViewsAgree(rooms[i := r], log')
  {
    var gone, rooms' := rooms[i].peers[k], rooms[i := r];
    WithoutMembers(rooms[i].peers, k);
    forall j, p | 0 <= j < |rooms'| && p in rooms'[j].peers
      ensures p in log' && View(log'[p]) == Others(rooms'[j].peers, p)
    {
      assert p in rooms[j].peers && p in idx && idx[p] == j;
      if j == i {
        ViewNext(log[p], PeerLeft(gone));
        assert Others(r.peers, p) == Others(rooms[i].peers, p) - {gone};
      }
    }
  }

  lemma JoinViews(rooms: seq<Room>, idx: map<int, int>, i: int, p: int, r: Room,
                  log: map<int, seq<Notice>>, log1: map<int, seq<Notice>>, log': map<int, seq<Notice>>)
    requires 0 <= i < |rooms| && Agree(rooms, idx) && p in idx && idx[p] < 0 && p in log
    requires r.peers == rooms[i].peers + [p] && ViewsAgree(rooms, log)
    requires log1 == log[p := log[p] + [Joined(rooms[i].peers)]]
    requires Told(log1, log', r.peers, Some(p), PeerJoined(p))
    ensures ViewsAgree(rooms[i := r], log')
  {
    var rooms' := rooms[i := r];
    forall j, q | 0 <= j < |rooms'| && q in rooms'[j].peers
      ensures q in log' && View(log'[q]) == Others(rooms'[j].peers, q)
    {
      if q == p {
        assert j == i && log'[p] == log[p] + [Joined(rooms[i].peers)];
        ViewNext(log[p], Joined(rooms[i].peers));
        assert Others(r.peers, p) == Elements(rooms[i].peers);
      } else {
        assert q in rooms[j].peers && q in idx && idx[q] == j;
        if j == i {
          ViewNext(log[q], PeerJoined(p));
          assert Others(r.peers, q) == Others(rooms[i].peers, q) + {p};
        }
      }
    }
  }

  // ----- the index of names -----

  predicate Active(r: Room)
  {
    r.active
  }

  /** Creating a room keeps every active room listed under its stored name exactly
      when no listed room has that name: names over 63 bytes are stored short. */
  lemma CreateIndexed(rooms: seq<Room>, index: map<string, int>, i: int, name: string)
    requires 0 <= i < |rooms| && !rooms[i].active && Named(rooms, index) && Indexed(rooms, index)
    ensures Indexed(rooms[i := Room(Clip(name), true, [])], index[Clip(name) := i]) <==> Clip(name) !in index
  {
    var rooms' := rooms[i := Room(Clip(name), true, [])];
    if Clip(name) in index {
      var j := index[Clip(name)];
      assert rooms'[j].active && j != i;
    }
  }

  lemma DestroyNamed(rooms: seq<Room>, index: map<string, int>, i: int, r: Room)
    requires 0 <= i < |rooms| && Named(rooms, index) && !r.active
    ensures Named(rooms[i := r], index - {rooms[i].name})
    ensures Indexed(rooms, index) && rooms[i].active ==> Indexed(rooms[i := r], index - {rooms[i].name})
  {
  }

  /** Every room is in order, rooms and peers agree both ways, names lead to
      active rooms, and each member's view is the other members. */
  ghost predicate Consistent(rooms: seq<Room>, count: int, index: map<string, int>, idx: map<int, int>,
                             log: map<int, seq<Notice>>)
  {
    && (forall i | 0 <= i < |rooms| :: RoomOk(rooms[i]))
    && Agree(rooms, idx) && Named(rooms, index) && ViewsAgree(rooms, log) && idx.Keys == log.Keys
    && count == Count(rooms, Active)
  }

  /** Consistency of the changed room i alone is enough. */
  lemma RoomsOk(rooms: seq<Room>, i: int, r: Room, rooms': seq<Room>)
    requires 0 <= i < |rooms| && RoomOk(r) && rooms' == rooms[i := r]
    requires forall j | 0 <= j < |rooms| :: RoomOk(rooms[j])
    ensures forall j | 0 <= j < |rooms'| :: RoomOk(rooms'[j])
  {
  }

  lemma LeaveKeeps(rooms: seq<Room>, count: int, index: map<string, int>, idx: map<int, int>,
                   log: map<int, seq<Notice>>, i: int, k: int, log': map<int, seq<Notice>>, r: Room)
    requires 0 <= i < |rooms| && 0 <= k < |rooms[i].peers| && Consistent(rooms, count, index, idx, log)
    requires r == rooms[i].(peers := Without(rooms[i].peers, k), active := |rooms[i].peers| > 1)
    requires Told(log, log', r.peers, None, PeerLeft(rooms[i].peers[k]))
    ensures Consistent(rooms[i := r], if r.active then count else count - 1,
                       if r.active then index else index - {r.name}, idx[rooms[i].peers[k] := -1], log')
  {
    assert RoomOk(rooms[i]);
    WithoutMembers(rooms[i].peers, k);
    LeaveAgrees(rooms, idx, i, k, r);
    LeaveViews(rooms, idx, i, k, r, log, log');
    CountUpdate(rooms, Active, i, r);
    RoomsOk(rooms, i, r, rooms[i := r]);
    LeaveNamed(rooms, index, i, r);
    LeaveKeys(rooms, idx, log, log', i, k);
  }

  lemma LeaveKeys(rooms: seq<Room>, idx: map<int, int>, log: map<int, seq<Notice>>, log': map<int, seq<Notice>>,
                  i: int, k: int)
    requires 0 <= i < |rooms| && 0 <= k < |rooms[i].peers| && Agree(rooms, idx) && idx.Keys == log.Keys
    requires log'.Keys == log.Keys
    ensures idx[rooms[i].peers[k] := -1].Keys == log'.Keys
  {
    var p := rooms[i].peers[k];
    assert p in rooms[i].peers;
  }

  lemma LeaveNamed(rooms: seq<Room>, index: map<string, int>, i: int, r: Room)
    requires 0 <= i < |rooms| && Named(rooms, index) && rooms[i].active && r.name == rooms[i].name
    ensures Named(rooms[i := r], if r.active then index else index - {r.name})
  {
    if !r.active {
      DestroyNamed(rooms, index, i, r);
    }
  }

  lemma LeaveIndexed(rooms: seq<Room>, index: map<string, int>, i: int, r: Room)
    requires 0 <= i < |rooms| && Named(rooms, index) && rooms[i].active && r.name == rooms[i].name && r.active
    ensures Indexed(rooms, index) ==> Indexed(rooms[i := r], index)
    ensures Indexed(rooms, index) ==> Indexed(rooms[i := r.(active := false)], index - {r.name})
  {
    DestroyNamed(rooms, index, i, r.(active := false));
  }

  /** At most an inactive room has been given a name. */
  ghost predicate Touched(rooms: seq<Room>, rooms': seq<Room>, i: int, name: string)
  {
    if 0 <= i < |rooms| then !rooms[i].active && rooms' == rooms[i := Room(name, false, [])] else rooms' == rooms
  }

  lemma TouchedKeeps(rooms: seq<Room>, count: int, index: map<string, int>, idx: map<int, int>,
                     log: map<int, seq<Notice>>, rooms': seq<Room>, i: int, name: string)
    requires Consistent(rooms, count, index, idx, log) && Touched(rooms, rooms', i, name) && |name| < MAX_NAME
    ensures Consistent(rooms', count, index, idx, log)
    ensures Indexed(rooms, index) ==> Indexed(rooms', index)
  {
    if 0 <= i < |rooms| {
      CountUpdate(rooms, Active, i, rooms'[i]);
      assert RoomOk(rooms[i]);
    }
  }

  /** Joining a room that is there, or one just created. */
  lemma JoinKeeps(rooms: seq<Room>, count: int, index: map<string, int>, idx: map<int, int>,
                  log: map<int, seq<Notice>>, i: int, p: int, r: Room, count': int, index': map<string, int>,
                  log1: map<int, seq<Notice>>, log': map<int, seq<Notice>>)
    requires 0 <= i < |rooms| && Consistent(rooms, count, index, idx, log) && p in idx && idx[p] < 0
    requires r.active && r.peers == rooms[i].peers + [p] && |r.peers| <= MAX_PEERS && |r.name| < MAX_NAME
    requires if rooms[i].active then r.name == rooms[i].name && count' == count && index' == index
             else count' == count + 1 && index' == index[r.name := i]
    requires log1 == log[p := log[p] + [Joined(rooms[i].peers)]] && Told(log1, log', r.peers, Some(p), PeerJoined(p))
    ensures Consistent(rooms[i := r], count', index', idx[p := i], log')
  {
    assert RoomOk(rooms[i]);
    JoinAgrees(rooms, idx, i, p, r);
    JoinViews(rooms, idx, i, p, r, log, log1, log');
    CountUpdate(rooms, Active, i, r);
    JoinNamed(rooms, index, i, r, index');
    assert RoomOk(r);
  }

  lemma JoinNamed(rooms: seq<Room>, index: map<string, int>, i: int, r: Room, index': map<string, int>)
    requires 0 <= i < |rooms| && Named(rooms, index) && r.active
    requires if rooms[i].active then r.name == rooms[i].name && index' == index else index' == index[r.name := i]
    ensures Named(rooms[i := r], index')
  {
  }

  lemma JoinIndexed(rooms: seq<Room>, index: map<string, int>, i: int, r: Room, index': map<string, int>)
    requires 0 <= i < |rooms| && Named(rooms, index) && Indexed(rooms, index) && r.active
    requires if rooms[i].active then r.name == rooms[i].name && index' == index
             else r.name !in index && index' == index[r.name := i]
    ensures Indexed(rooms[i := r], index')
  {
  }

  /** A notice to a peer outside every room changes no member's view. */
  lemma FullKeeps(rooms: seq<Room>, count: int, index: map<string, int>, idx: map<int, int>,
                  log: map<int, seq<Notice>>, p: int, log': map<int, seq<Notice>>)
    requires Consistent(rooms, count, index, idx, log) && p in idx && idx[p] < 0 && log' == log[p := log[p] + [Full]]
    ensures Consistent(rooms, count, index, idx, log')
  {
  }

  lemma GoneKeeps(rooms: seq<Room>, count: int, index: map<string, int>, idx: map<int, int>,
                  log: map<int, seq<Notice>>, p: int)
    requires Consistent(rooms, count, index, idx, log) && p in idx && idx[p] < 0
    ensures Consistent(rooms, count, index, idx - {p}, log - {p})
  {
  }

  /** Where a peer p ends up that enters a room by name: in the room listed under
      it, otherwise alone in a new one. It is found under that name exactly when
      the name is stored in full. */
  ghost predicate Placed(rooms: seq<Room>, index: map<string, int>, rooms': seq<Room>, index': map<string, int>,
                         i: int, p: int, name: string)
  {
    && 0 <= i < |rooms| == |rooms'| && rooms'[i].active && rooms'[i].name == Clip(name)
    && (if name in index then i == index[name] else !rooms[i].active && rooms'[i].peers == [p])
    && (name in index' && index'[name] == i <==> |name| < MAX_NAME)
    && OpenKeepNames(rooms, rooms')
    && (Indexed(rooms, index) && |name| < MAX_NAME ==> Indexed(rooms', index'))
  }

  lemma EnterPlaced(rooms: seq<Room>, count: int, index: map<string, int>, idx: map<int, int>,
                    log: map<int, seq<Notice>>, i: int, r: Room, p: int, name: string, index': map<string, int>)
    requires Consistent(rooms, count, index, idx, log) && 0 <= i < |rooms|
    requires r.active && r.peers == rooms[i].peers + [p]
    requires if name in index then i == index[name] && r.name == rooms[i].name && index' == index
             else !rooms[i].active && r.name == Clip(name) && index' == index[r.name := i]
    ensures Placed(rooms, index, rooms[i := r], index', i, p, name)
  {
    assert RoomOk(rooms[i]);
    if Indexed(rooms, index) && |name| < MAX_NAME {
      JoinIndexed(rooms, index, i, r, index');
    }
    if name in index' && name !in index {
      assert |r.name| < MAX_NAME && index'.Keys == index.Keys + {r.name};
    }
  }

  // ----- finding a room by its name -----

  /** The index once a peer has left: a room it was alone in is no longer listed. */
  ghost function IndexWithout(rooms: seq<Room>, index: map<string, int>, i: int): map<string, int>
  {
    if 0 <= i < |rooms| && |rooms[i].peers| == 1 then index - {rooms[i].name} else index
  }

  /** A name of 64 bytes or more leads nowhere. */
  lemma LongUnlisted(rooms: seq<Room>, count: int, index: map<string, int>, idx: map<int, int>,
                     log: map<int, seq<Notice>>, name: string)
    requires Consistent(rooms, count, index, idx, log)
    ensures name in index ==> |name| < MAX_NAME
  {
    assert name in index ==> RoomOk(rooms[index[name]]);
  }

  /** Where every room is found under its name, no two have the same. */
  lemma OneRoomPerName(rooms: seq<Room>, index: map<string, int>, i: int, j: int)
    requires Indexed(rooms, index) && 0 <= i < |rooms| && 0 <= j < |rooms|
    requires rooms[i].active && rooms[j].active
    ensures rooms[i].name == rooms[j].name <==> i == j
  {
  }

  /** A peer that leaves takes no other peer's room off the index. */
  lemma StillListed(rooms: seq<Room>, count: int, index: map<string, int>, idx: map<int, int>,
                    log: map<int, seq<Notice>>, p: int, q: int)
    requires Consistent(rooms, count, index, idx, log) && Indexed(rooms, index)
    requires p in idx && q in idx && p != q && idx[p] >= 0
    ensures var left, name := IndexWithout(rooms, index, idx[q]), rooms[idx[p]].name;
            name in left && left[name] == idx[p]
  {
    assert RoomOk(rooms[idx[p]]) && p in rooms[idx[p]].peers;
    if idx[q] >= 0 {
      assert RoomOk(rooms[idx[q]]) && q in rooms[idx[q]].peers;
      OneRoomPerName(rooms, index, idx[p], idx[q]);
    }
  }

  /** Where a peer p ends up that leaves room i0 and then enters one by name. */
  ghost predicate Came(rooms: seq<Room>, index: map<string, int>, i0: int, rooms': seq<Room>,
                       index': map<string, int>, i: int, p: int, name: string)
  {
    var listed := IndexWithout(rooms, index, i0);
    && 0 <= i < |rooms'| && rooms'[i].active && rooms'[i].name == Clip(name)
    && (if name in listed then i == listed[name] else rooms'[i].peers == [p])
    && (name in index' && index'[name] == i <==> |name| < MAX_NAME)
  }

  ghost predicate SameNames(rooms: seq<Room>, rooms': seq<Room>)
  {
    |rooms'| == |rooms| && forall j | 0 <= j < |rooms| :: rooms'[j].name == rooms[j].name
  }

  /** The rooms of the peers other than p have kept their names. */
  ghost predicate NamesStay(rooms: seq<Room>, rooms': seq<Room>, idx: map<int, int>, p: int)
  {
    forall q | q in idx && q != p && 0 <= idx[q] < |rooms| ::
      idx[q] < |rooms'| && rooms'[idx[q]].name == rooms[idx[q]].name
  }

  /** A peer q that comes under the name p came under finds p exactly if the name
      is stored in full. */
  lemma Met(rooms: seq<Room>, count: int, index: map<string, int>, idx: map<int, int>, log: map<int, seq<Notice>>,
            p: int, q: int, name: string, rooms': seq<Room>, index': map<string, int>, idx': map<int, int>)
    requires Consistent(rooms, count, index, idx, log) && p in idx && q in idx && p != q && q in idx'
    requires 0 <= idx[p] < |rooms| && rooms[idx[p]].name == Clip(name) && Agree(rooms', idx')
             && idx' == idx[q := idx'[q]]
    requires Came(rooms, index, idx[q], rooms', index', idx'[q], q, name)
    ensures |name| >= MAX_NAME ==> idx[p] != idx'[q] && rooms'[idx'[q]].peers == [q]
    ensures |name| < MAX_NAME && Indexed(rooms, index) ==> idx[p] == idx'[q]
  {
    if |name| >= MAX_NAME {
      LongUnlisted(rooms, count, index, idx, log, name);
      assert p in rooms'[idx'[p]].peers;
    } else if Indexed(rooms, index) {
      StillListed(rooms, count, index, idx, log, p, q);
    }
  }

  lemma MemberOf(rooms: seq<Room>, count: int, index: map<string, int>, idx: map<int, int>,
                 log: map<int, seq<Notice>>, p: int)
    requires Consistent(rooms, count, index, idx, log) && p in idx && idx[p] >= 0
    ensures idx[p] < |rooms| && p in rooms[idx[p]].peers && Distinct(rooms[idx[p]].peers)
    ensures forall q | q in rooms[idx[p]].peers :: q in log
  {
    var peers := rooms[idx[p]].peers;
    assert RoomOk(rooms[idx[p]]);
    forall q | q in peers ensures q in log {
      assert q in rooms[idx[p]].peers;
    }
  }

  /** The k-th peer of room i is gone, the others have been told, and an empty room
      is closed. */
  ghost predicate Left(rooms: seq<Room>, count: int, index: map<string, int>, log: map<int, seq<Notice>>,
                       i: int, k: int, rooms': seq<Room>, count': int, index': map<string, int>,
                       log': map<int, seq<Notice>>)
  {
    && 0 <= i < |rooms| && 0 <= k < |rooms[i].peers|
    && var r := rooms[i].(peers := Without(rooms[i].peers, k));
       && Told(log, log', r.peers, None, PeerLeft(rooms[i].peers[k]))
       && if r.peers == []
          then rooms' == rooms[i := r.(active := false)] && count' == count - 1 && index' == index - {r.name}
          else rooms' == rooms[i := r] && count' == count && index' == index
  }

  lemma LeftKeeps(rooms: seq<Room>, count: int, index: map<string, int>, idx: map<int, int>,
                  log: map<int, seq<Notice>>, i: int, k: int, rooms': seq<Room>, count': int,
                  index': map<string, int>, idx': map<int, int>, log': map<int, seq<Notice>>)
    requires Consistent(rooms, count, index, idx, log)
    requires Left(rooms, count, index, log, i, k, rooms', count', index', log')
    requires idx' == idx[rooms[i].peers[k] := -1]
    ensures Consistent(rooms', count', index', idx', log')
    ensures index' == IndexWithout(rooms, index, i) && SameNames(rooms, rooms')
    ensures Indexed(rooms, index) ==> Indexed(rooms', index')
  {
    var r := rooms[i].(peers := Without(rooms[i].peers, k));
    assert RoomOk(rooms[i]);
    LeaveKeeps(rooms, count, index, idx, log, i, k, log', r.(active := |rooms[i].peers| > 1));
    LeaveIndexed(rooms, index, i, r);
  }

  lemma NamesKept(rooms: seq<Room>, rooms1: seq<Room>, count: int, index: map<string, int>, idx: map<int, int>,
                  log: map<int, seq<Notice>>, rooms': seq<Room>, idx': map<int, int>, p: int)
    requires |rooms| == |rooms'| && SameNames(rooms, rooms1) && Consistent(rooms1, count, index, idx, log)
    requires p in idx && p in idx' && idx' == idx[p := idx'[p]] && OpenKeepNames(rooms1, rooms')
    ensures NamesStay(rooms, rooms', idx', p)
  {
    forall q | q in idx && 0 <= idx[q] < |rooms| ensures rooms'[idx[q]].name == rooms[idx[q]].name {
      assert q in rooms1[idx[q]].peers && RoomOk(rooms1[idx[q]]);
    }
  }

  /** Why a peer is not let in: the room is full, or there is none and none can be
      made. */
  ghost predicate Refused(rooms: seq<Room>, index: map<string, int>, name: string, memory: bool)
  {
    if name in index then 0 <= index[name] < |rooms| && |rooms[index[name]].peers| == MAX_PEERS
    else !memory || forall j | 0 <= j < |rooms| :: rooms[j].active
  }

  /** Open rooms keep their names. */
  ghost predicate OpenKeepNames(rooms: seq<Room>, rooms': seq<Room>)
  {
    |rooms'| == |rooms| && forall j | 0 <= j < |rooms| && rooms[j].active :: rooms'[j].name == rooms[j].name
  }

  lemma PlacedCame(rooms: seq<Room>, index: map<string, int>, i0: int, rooms1: seq<Room>, index1: map<string, int>,
                   rooms': seq<Room>, index': map<string, int>, i: int, p: int, name: string)
    requires index1 == IndexWithout(rooms, index, i0) && Placed(rooms1, index1, rooms', index', i, p, name)
    ensures Came(rooms, index, i0, rooms', index', i, p, name)
  {
  }

  // ----- what peers ask for -----

  datatype Command =
    | Arrive(peer: int)
    | Enter(peer: int, name: string, memory: bool)
    | Exit(peer: int)
    | Vanish(peer: int)

  /** The name a peer last asked to join; the empty one is refused at once. */
  ghost function LastName(cmds: seq<Command>, p: int): string
  {
    if cmds == [] then ""
    else
      var c := cmds[|cmds| - 1];
      if c.Enter? && c.peer == p && c.name != "" then c.name else LastName(cmds[..|cmds| - 1], p)
  }

  /** Every member's room has the name it asked for, as far as it is stored. */
  ghost predicate AsAsked(rooms: seq<Room>, idx: map<int, int>, cmds: seq<Command>)
  {
    forall p | p in idx && idx[p] >= 0 :: idx[p] < |rooms| && rooms[idx[p]].name == Clip(LastName(cmds, p))
  }

  ghost predicate ShortNames(cmds: seq<Command>)
  {
    forall k | 0 <= k < |cmds| && cmds[k].Enter? :: |cmds[k].name| < MAX_NAME
  }

  lemma {:induction false} LastNameShort(cmds: seq<Command>, p: int)
    requires ShortNames(cmds)
    ensures |LastName(cmds, p)| < MAX_NAME
  {
    if cmds != [] {
      LastNameShort(cmds[..|cmds| - 1], p);
    }
  }

  lemma ShortNamesNext(cmds: seq<Command>, c: Command)
    requires ShortNames(cmds + [c])
    ensures ShortNames(cmds) && (c.Enter? ==> |c.name| < MAX_NAME)
  {
    assert (cmds + [c])[|cmds|] == c;
    assert forall k | 0 <= k < |cmds| :: (cmds + [c])[k] == cmds[k];
  }

  lemma LastNameNext(cmds: seq<Command>, c: Command, p: int)
    ensures LastName(cmds + [c], p) == if c.Enter? && c.peer == p && c.name != "" then c.name else LastName(cmds, p)
  {
    assert (cmds + [c])[..|cmds|] == cmds;
  }

  /** What a command leaves: its peer in the room it asked for, where it was or
      in none, and every other peer where it was. */
  ghost predicate Obeyed(rooms: seq<Room>, idx: map<int, int>, c: Command, rooms': seq<Room>, idx': map<int, int>)
  {
    && NamesStay(rooms, rooms', idx', c.peer) && |rooms'| == |rooms|
    && (forall q | q in idx' && q != c.peer :: q in idx && idx'[q] == idx[q])
    && (c.peer in idx' && idx'[c.peer] >= 0 ==>
        if c.Enter? && c.name != "" then idx'[c.peer] < |rooms| && rooms'[idx'[c.peer]].name == Clip(c.name)
        else c.peer in idx && idx'[c.peer] == idx[c.peer] && rooms' == rooms)
  }

  lemma AsAskedNext(rooms: seq<Room>, idx: map<int, int>, cmds: seq<Command>, c: Command, rooms': seq<Room>,
                    idx': map<int, int>)
    requires AsAsked(rooms, idx, cmds) && Obeyed(rooms, idx, c, rooms', idx')
    ensures AsAsked(rooms', idx', cmds + [c])
  {
    forall q | q in idx' && idx'[q] >= 0
      ensures idx'[q] < |rooms'| && rooms'[idx'[q]].name == Clip(LastName(cmds + [c], q))
    {
      LastNameNext(cmds, c, q);
    }
  }

  /** Members are together exactly if they asked for the same name. */
  ghost predicate TogetherAsAsked(idx: map<int, int>, cmds: seq<Command>)
  {
    forall p, q | p in idx && q in idx && idx[p] >= 0 && idx[q] >= 0 ::
      idx[p] == idx[q] <==> LastName(cmds, p) == LastName(cmds, q)
  }

  lemma TogetherExactly(rooms: seq<Room>, count: int, index: map<string, int>, idx: map<int, int>,
                        log: map<int, seq<Notice>>, cmds: seq<Command>)
    requires Consistent(rooms, count, index, idx, log) && Indexed(rooms, index)
    requires AsAsked(rooms, idx, cmds) && ShortNames(cmds)
    ensures TogetherAsAsked(idx, cmds)
  {
    forall p, q | p in idx && q in idx && idx[p] >= 0 && idx[q] >= 0
      ensures idx[p] == idx[q] <==> LastName(cmds, p) == LastName(cmds, q)
    {
      LastNameShort(cmds, p);
      LastNameShort(cmds, q);
      assert p in rooms[idx[p]].peers && RoomOk(rooms[idx[p]]);
      assert q in rooms[idx[q]].peers && RoomOk(rooms[idx[q]]);
      OneRoomPerName(rooms, index, idx[p], idx[q]);
    }
  }

  class Server {
    const rooms: array<Room>
    var count: int
    var index: map<string, int>
    var idx: map<int, int>
    var log: map<int, seq<Notice>>

    ghost predicate Valid()
      reads this, rooms
    {
      rooms.Length == MAX_ROOMS && Consistent(rooms[..], count, index, idx, log)
    }

    constructor ()
      ensures Valid() && Indexed(rooms[..], index) && idx == map[] && fresh(rooms)
    {
      rooms := new Room[MAX_ROOMS](_ => Room("", false, []));
      count, index, idx, log := 0, map[], map[], map[];
      new;
      CountNone(rooms[..], Active);
    }

    /** A new peer, with an id no other peer has. */
    method AddPeer(p: int)
      requires Valid() && p !in idx
      modifies this
      ensures Valid() && idx == old(idx)[p := -1] && index == old(index)
    {
      idx := idx[p := -1];
      log := log[p := []];
    }

    /** `broadcast_to_meeting` */
    method Broadcast(i: int, n: Notice, exclude: Option<int>)
      requires 0 <= i < rooms.Length && Distinct(rooms[i].peers)
      requires forall q | q in rooms[i].peers :: q in log
      modifies this`log
      ensures Told(old(log), log, rooms[i].peers, exclude, n)
    {
      var peers := rooms[i].peers;
      ghost var known := log.Keys;
      forall k | 0 <= k < |peers| ensures peers[k] in known {
        assert peers[k] in rooms[i].peers;
      }
      var k := 0;
      while k < |peers|
        invariant 0 <= k <= |peers| && log.Keys == known && Told(old(log), log, peers[..k], exclude, n)
      {
        assert peers[k] in known;
        ghost var told := log;
        if exclude != Some(peers[k]) {
          log := log[peers[k] := log[peers[k]] + [n]];
        }
        ToldNext(old(log), told, log, peers, k, exclude, n);
        k := k + 1;
      }
      assert peers[..k] == peers;
    }

    /** `remove_peer_from_meeting` */
    method RemovePeer(i: int, p: int) returns (k: int)
      requires 0 <= i < rooms.Length && p in rooms[i].peers
      modifies this`idx, rooms
      ensures 0 <= k < |old(rooms[i].peers)| && old(rooms[i].peers)[k] == p
      ensures idx == old(idx)[p := -1]
      ensures rooms[..] == old(rooms[..])[i := old(rooms[i]).(peers := Without(old(rooms[i].peers), k))]
    {
      k := 0;
      while rooms[i].peers[k] != p
        invariant 0 <= k < |rooms[i].peers| && p !in rooms[i].peers[..k]
        decreases |rooms[i].peers| - k
      {
        k := k + 1;
      }
      rooms[i] := rooms[i].(peers := Without(rooms[i].peers, k));
      idx := idx[p := -1];
    }

    /** `maybe_destroy_meeting` */
    method MaybeDestroy(i: int)
      requires 0 <= i < rooms.Length
      modifies this`index, this`count, rooms
      ensures if old(rooms[i].peers) == []
              then rooms[..] == old(rooms[..])[i := old(rooms[i]).(active := false)]
                   && index == old(index) - {old(rooms[i].name)} && count == old(count) - 1
              else rooms[..] == old(rooms[..]) && index == old(index) && count == old(count)
    {
      if |rooms[i].peers| == 0 {
        index := index - {rooms[i].name};
        rooms[i] := rooms[i].(active := false);
        count := count - 1;
      }
    }

    /** `meeting_leave` */
    method Leave(p: int)
      requires Valid() && p in idx
      modifies this, rooms
      ensures Valid() && idx == old(idx)[p := if old(idx[p]) < 0 then old(idx[p]) else -1]
      ensures index == IndexWithout(old(rooms[..]), old(index), old(idx[p]))
      ensures SameNames(old(rooms[..]), rooms[..]) && (old(idx[p]) < 0 ==> rooms[..] == old(rooms[..]))
      ensures old(Indexed(rooms[..], index)) ==> Indexed(rooms[..], index)
    {
      if idx[p] < 0 {
        return;
      }
      ghost var rooms0, count0, index0, idx0, log0 := rooms[..], count, index, idx, log;
      MemberOf(rooms0, count0, index0, idx0, log0, p);
      ghost var k := LeaveRoom(idx[p], p);
      LeftKeeps(rooms0, count0, index0, idx0, log0, idx0[p], k, rooms[..], count, index, idx, log);
    }

    /** What a leave does to a room that the peer is in. */
    method LeaveRoom(i: int, p: int) returns (ghost k: int)
      requires 0 <= i < rooms.Length && p in rooms[i].peers && Distinct(rooms[i].peers)
      requires forall q | q in rooms[i].peers :: q in log
      modifies this, rooms
      ensures 0 <= k < |old(rooms[i].peers)| && old(rooms[i].peers)[k] == p && idx == old(idx)[p := -1]
      ensures Left(old(rooms[..]), old(count), old(index), old(log), i, k, rooms[..], count, index, log)
    {
      ghost var rooms0 := rooms[..];
      k := RemovePeer(i, p);
      WithoutMembers(rooms0[i].peers, k);
      Broadcast(i, PeerLeft(p), None);
      MaybeDestroy(i);
      assert rooms[..] == rooms0[i := rooms[i]];
    }

    /** `find_meeting`, then `create_meeting` if there is none; -1 if neither works. */
    method FindOrCreate(name: string, memory: bool) returns (i: int)
      requires Valid()
      modifies this`index, this`count, rooms
      ensures -1 <= i < MAX_ROOMS
      ensures i >= 0 && name in old(index) ==>
        i == old(index)[name] && rooms[..] == old(rooms[..]) && index == old(index) && count == old(count)
      ensures i >= 0 && name !in old(index) ==>
        !old(rooms[..])[i].active && rooms[..] == old(rooms[..])[i := Room(Clip(name), true, [])]
        && index == old(index)[Clip(name) := i] && count == old(count) + 1
      ensures i < 0 ==> index == old(index) && count == old(count) && name !in index
                        && (!memory || forall j | 0 <= j < MAX_ROOMS :: old(rooms[j].active))
      ensures i < 0 ==> exists j :: 0 <= j <= MAX_ROOMS && Touched(old(rooms[..]), rooms[..], j, Clip(name))
    {
      if name in index {
        return index[name];
      }
      i := 0;
      while i < MAX_ROOMS
        invariant 0 <= i <= MAX_ROOMS && rooms[..] == old(rooms[..]) && index == old(index) && count == old(count)
        invariant forall j | 0 <= j < i :: rooms[j].active
      {
        if !rooms[i].active {
          rooms[i] := Room(Clip(name), true, []);
          if !memory {
            rooms[i] := rooms[i].(active := false);
            assert Touched(old(rooms[..]), rooms[..], i, Clip(name));
            return -1;
          }
          index := index[Clip(name) := i];
          count := count + 1;
          return;
        }
        i := i + 1;
      }
      assert Touched(old(rooms[..]), rooms[..], MAX_ROOMS, Clip(name));
      return -1;
    }

    /** The part of `meeting_join` after the peer has left its old room. */
    method Enter(p: int, name: string, memory: bool) returns (ok: bool)
      requires Valid() && p in idx && idx[p] < 0
      modifies this, rooms
      ensures Valid() && p in idx && idx == old(idx)[p := idx[p]] && (ok <==> idx[p] >= 0)
      ensures ok ==> Placed(old(rooms[..]), old(index), rooms[..], index, idx[p], p, name)
      ensures !ok ==> Refused(rooms[..], index, name, memory)
      ensures OpenKeepNames(old(rooms[..]), rooms[..])
      ensures !ok && old(Indexed(rooms[..], index)) ==> Indexed(rooms[..], index)
    {
      ghost var rooms0, count0, index0, idx0, log0 := rooms[..], count, index, idx, log;
      var i := FindOrCreate(name, memory);
      if i < 0 {
        ghost var j :| 0 <= j <= MAX_ROOMS && Touched(rooms0, rooms[..], j, Clip(name));
        TouchedKeeps(rooms0, count, index, idx, log, rooms[..], j, Clip(name));
        return false;
      }
      assert RoomOk(rooms0[i]);
      if |rooms[i].peers| >= MAX_PEERS {
        log := log[p := log[p] + [Full]];
        FullKeeps(rooms0, count, index, idx0, log0, p, log);
        return false;
      }
      Add(i, p);
      JoinKeeps(rooms0, count0, index0, idx0, log0, i, p, rooms[i], count, index,
                log0[p := log0[p] + [Joined(rooms0[i].peers)]], log);
      EnterPlaced(rooms0, count0, index0, idx0, log0, i, rooms[i], p, name, index);
      assert rooms[..] == rooms0[i := rooms[i]];
      return true;
    }

    /** The peer takes its place, is told who is there and announced to them. */
    method Add(i: int, p: int)
      requires 0 <= i < rooms.Length && Distinct(rooms[i].peers) && p !in rooms[i].peers && p in log
      requires forall q | q in rooms[i].peers :: q in log
      modifies this`idx, this`log, rooms
      ensures rooms[..] == old(rooms[..])[i := old(rooms[i]).(peers := old(rooms[i].peers) + [p])]
      ensures idx == old(idx)[p := i]
      ensures Told(old(log)[p := old(log)[p] + [Joined(old(rooms[i].peers))]], log,
                   old(rooms[i].peers) + [p], Some(p), PeerJoined(p))
    {
      var others := rooms[i].peers;
      rooms[i] := rooms[i].(peers := others + [p]);
      idx := idx[p := i];
      log := log[p := log[p] + [Joined(others)]];
      Broadcast(i, PeerJoined(p), Some(p));
    }

    /** `meeting_join`: the peer leaves its old room first, even if it then
        cannot enter the new one. */
    method Join(p: int, name: string, memory: bool) returns (ok: bool)
      requires Valid() && p in idx
      modifies this, rooms
      ensures Valid() && p in idx && idx == old(idx)[p := idx[p]]
      ensures name == "" ==> !ok && idx == old(idx) && rooms[..] == old(rooms[..]) && log == old(log)
      ensures name != "" ==> (ok <==> idx[p] >= 0)
      ensures ok ==> Came(old(rooms[..]), old(index), old(idx[p]), rooms[..], index, idx[p], p, name)
      ensures NamesStay(old(rooms[..]), rooms[..], idx, p)
      ensures !ok && name != "" ==> Refused(rooms[..], index, name, memory)
      ensures old(Indexed(rooms[..], index)) && |name| < MAX_NAME ==> Indexed(rooms[..], index)
    {
      if name == "" {
        return false;
      }
      ok := Move(p, name, memory);
    }

    /** The rest of it; a peer in no room leaves nothing. */
    method Move(p: int, name: string, memory: bool) returns (ok: bool)
      requires Valid() && p in idx
      modifies this, rooms
      ensures Valid() && p in idx && idx == old(idx)[p := idx[p]] && (ok <==> idx[p] >= 0)
      ensures ok ==> Came(old(rooms[..]), old(index), old(idx[p]), rooms[..], index, idx[p], p, name)
      ensures NamesStay(old(rooms[..]), rooms[..], idx, p)
      ensures !ok ==> Refused(rooms[..], index, name, memory)
      ensures old(Indexed(rooms[..], index)) && |name| < MAX_NAME ==> Indexed(rooms[..], index)
    {
      ghost var rooms0, index0, i0 := rooms[..], index, idx[p];
      Leave(p);
      ghost var rooms1, count1, index1, idx1, log1 := rooms[..], count, index, idx, log;
      ok := Enter(p, name, memory);
      NamesKept(rooms0, rooms1, count1, index1, idx1, log1, rooms[..], idx, p);
      if ok {
        PlacedCame(rooms0, index0, i0, rooms1, index1, rooms[..], index, idx[p], p, name);
      }
    }

    /** Two peers that join under one name meet exactly if the name is stored in
        full; with a longer one the second is alone. */
    method JoinBoth(p: int, q: int, name: string, memory: bool) returns (ok: bool)
      requires Valid() && p in idx && q in idx && p != q
      modifies this, rooms
      ensures Valid() && p in idx && q in idx && (ok ==> 0 <= idx[p] < MAX_ROOMS && 0 <= idx[q] < MAX_ROOMS)
      ensures ok && |name| >= MAX_NAME ==> idx[p] != idx[q] && rooms[idx[q]].peers == [q]
      ensures ok && old(Indexed(rooms[..], index)) ==> (idx[p] == idx[q] <==> |name| < MAX_NAME)
      ensures memory && name != "" && (forall r | r in old(idx) :: old(idx)[r] < 0) ==> ok
    {
      ok := Join(p, name, memory);
      if !ok {
        if memory && name != "" && forall r | r in idx :: idx[r] < 0 {
          RoomLeft(rooms[..], count, index, idx, log, p);
        }
        return;
      }
      ghost var rooms1, count1, index1, idx1, log1 := rooms[..], count, index, idx, log;
      ok := Join(q, name, memory);
      if ok {
        Met(rooms1, count1, index1, idx1, log1, p, q, name, rooms[..], index, idx);
      } else if memory && name != "" && forall r | r in idx && idx[r] >= 0 :: r == p {
        RoomLeft(rooms[..], count, index, idx, log, p);
      }
    }

    method ServeOne(ghost cmds: seq<Command>, c: Command)
      requires Valid() && AsAsked(rooms[..], idx, cmds) && (ShortNames(cmds) ==> Indexed(rooms[..], index))
      modifies this, rooms
      ensures Valid() && AsAsked(rooms[..], idx, cmds + [c])
      ensures ShortNames(cmds + [c]) ==> Indexed(rooms[..], index)
    {
      ghost var rooms0, idx0 := rooms[..], idx;
      Obey(c);
      AsAskedNext(rooms0, idx0, cmds, c, rooms[..], idx);
      if ShortNames(cmds + [c]) {
        ShortNamesNext(cmds, c);
      }
    }

    /** Any run of a new server keeps it consistent and every member in a room of
        the name it asked for. If all names are stored in full, members are
        together exactly if they asked for the same name. */
    method Serve(cmds: seq<Command>)
      requires Valid() && idx == map[] && Indexed(rooms[..], index)
      modifies this, rooms
      ensures Valid() && AsAsked(rooms[..], idx, cmds)
      ensures ShortNames(cmds) ==> TogetherAsAsked(idx, cmds)
    {
      var k := 0;
      while k < |cmds|
        invariant 0 <= k <= |cmds| && Valid() && AsAsked(rooms[..], idx, cmds[..k])
        invariant ShortNames(cmds[..k]) ==> Indexed(rooms[..], index)
      {
        assert cmds[..k + 1] == cmds[..k] + [cmds[k]];
        ServeOne(cmds[..k], cmds[k]);
        k := k + 1;
      }
      assert cmds[..k] == cmds;
      if ShortNames(cmds) {
        TogetherExactly(rooms[..], count, index, idx, log, cmds);
      }
    }

    /** One command; ids of arriving peers are new, other commands come from peers
        that are there. */
    method Obey(c: Command)
      requires Valid()
      modifies this, rooms
      ensures Valid()
      ensures Obeyed(old(rooms[..]), old(idx), c, rooms[..], idx)
      ensures old(Indexed(rooms[..], index)) && (c.Enter? ==> |c.name| < MAX_NAME) ==> Indexed(rooms[..], index)
    {
      match c
      case Arrive(p) => if p !in idx { AddPeer(p); }
      case Enter(p, name, memory) => if p in idx { var _ := Join(p, name, memory); }
      case Exit(p) => if p in idx { Leave(p); }
      case Vanish(p) => if p in idx { Destroy(p); }
    }

    /** `meeting_peer_destroy` */
    method Destroy(p: int)
      requires Valid() && p in idx
      modifies this, rooms
      ensures Valid() && idx == old(idx) - {p} && SameNames(old(rooms[..]), rooms[..])
      ensures old(Indexed(rooms[..], index)) ==> Indexed(rooms[..], index)
    {
      Leave(p);
      GoneKeeps(rooms[..], count, index, idx, log, p);
      idx := idx - {p};
      log := log - {p};
    }
  }

  /** With one member at most no room is full and one is free. */
  lemma RoomLeft(rooms: seq<Room>, count: int, index: map<string, int>, idx: map<int, int>,
                 log: map<int, seq<Notice>>, p: int)
    requires Consistent(rooms, count, index, idx, log) && |rooms| == MAX_ROOMS
    requires forall q | q in idx && idx[q] >= 0 :: q == p
    ensures forall i | 0 <= i < MAX_ROOMS :: |rooms[i].peers| <= 1
    ensures !rooms[0].active || !rooms[1].active
  {
    forall i | 0 <= i < MAX_ROOMS ensures |rooms[i].peers| <= 1 {
      assert RoomOk(rooms[i]);
      if |rooms[i].peers| > 1 {
        Member(rooms, idx, i, 0);
        Member(rooms, idx, i, 1);
      }
    }
    assert RoomOk(rooms[0]) && RoomOk(rooms[1]);
    if rooms[0].active {
      OnlyRoom(rooms, idx, 0, p);
    }
    if rooms[1].active {
      OnlyRoom(rooms, idx, 1, p);
    }
  }

  lemma OnlyRoom(rooms: seq<Room>, idx: map<int, int>, i: int, p: int)
    requires 0 <= i < |rooms| && rooms[i].peers != [] && Agree(rooms, idx)
    requires forall q | q in idx && idx[q] >= 0 :: q == p
    ensures p in idx && idx[p] == i
  {
    var q := rooms[i].peers[0];
    assert q in rooms[i].peers && idx[q] == i;
  }

  lemma Member(rooms: seq<Room>, idx: map<int, int>, i: int, k: int)
    requires 0 <= i < |rooms| && 0 <= k < |rooms[i].peers| && Agree(rooms, idx)
    ensures rooms[i].peers[k] in idx && idx[rooms[i].peers[k]] == i
  {
    var p := rooms[i].peers[k];
    assert p in rooms[i].peers;
  }

  /** The first two peers of a new server, joining under one name, are let in and
      meet exactly if the name has fewer than 64 bytes. */
  method FirstTwo(name: string) returns (first: int, second: int)
    requires name != ""
    ensures 0 <= first < MAX_ROOMS && 0 <= second < MAX_ROOMS
    ensures first == second <==> |name| < MAX_NAME
  {
    var s := new Server();
    s.AddPeer(1);
    s.AddPeer(2);
    var ok := s.JoinBoth(1, 2, name, true);
    first, second := s.idx[1], s.idx[2];
  }
}
