/** Transports, the listener's three route tables and the worker's timers, as a
    system of the steps that run one at a time on the worker thread. */
module Transports {
  import opened Collections

  /** Two addresses share a route when their printed form, if it can be
      printed, is the same. */
  datatype Address = Address(key: Option<int>)

  datatype Kind = Ice | Dtls | Twcc

  datatype Handshake = Idle | Connecting | Connected | Failed | Shut

  /** Handles of the pending timers, 0 for none. */
  datatype Handles = Handles(ice: int, dtls: int, twcc: int)

  /** Settings and progress that no route and no timer depends on. */
  datatype Setup = Setup(
    full: bool, mayTwcc: bool, twccOn: bool, remoteIce: bool, remoteCandidate: bool,
    checks: int, handshake: Handshake, ready: bool)

  /** `done` records that the teardown has run. */
  datatype Transport = Transport(
    ufrag: int, txn: int, txnRegistered: bool, selected: Option<Address>, handles: Handles,
    setup: Setup, closed: bool, done: bool)

  datatype Timer = Timer(owner: int, kind: Kind)

  datatype State = State(
    transports: map<int, Transport>,
    ufrags: map<int, int>, txns: map<int, int>, tuples: map<int, int>,
    timers: map<int, Timer>)

  const Init := State(map[], map[], map[], map[], map[])

  // ----- the listener and the timers -----

  function Put(s: State, t: int, tr: Transport): State
  {
    s.(transports := s.transports[t := tr])
  }

  /** `listener_register_route`: replaces a route under the same key; leaves the
      table alone when memory runs out. */
  function Register(table: map<int, int>, key: int, t: int, memory: bool): map<int, int>
  {
    if memory then table[key := t] else table
  }

  /** `listener_unregister_route`: whoever the route belongs to. */
  function Unregister(table: map<int, int>, key: int): map<int, int>
  {
    table - {key}
  }

  function Handle(tr: Transport, kind: Kind): int
  {
    match kind case Ice => tr.handles.ice case Dtls => tr.handles.dtls case Twcc => tr.handles.twcc
  }

  function SetHandle(tr: Transport, kind: Kind, h: int): Transport
  {
    var hs := tr.handles;
    tr.(handles := match kind
                   case Ice => hs.(ice := h)
                   case Dtls => hs.(dtls := h)
                   case Twcc => hs.(twcc := h))
  }

  /** `transport_cancel_ice_timer` and its like */
  function Cancel(s: State, t: int, kind: Kind): State
    requires t in s.transports
  {
    var tr := s.transports[t];
    if Handle(tr, kind) == 0 then s
    else Put(s, t, SetHandle(tr, kind, 0)).(timers := s.timers - {Handle(tr, kind)})
  }

  /** `rtc_worker_add_timer`, which returned h */
  function Arm(s: State, t: int, kind: Kind, h: int): State
    requires t in s.transports
  {
    var s' := Put(s, t, SetHandle(s.transports[t], kind, h));
    if h == 0 then s' else s'.(timers := s.timers[h := Timer(t, kind)])
  }

  // ----- the transport -----

  function UnregisterTxn(s: State, t: int): State
    requires t in s.transports
  {
    var tr := s.transports[t];
    if !tr.txnRegistered then s
    else Put(s, t, tr.(txnRegistered := false)).(txns := Unregister(s.txns, tr.txn))
  }

  /** What happens to an ICE check: the new transaction id, whether the request
      could be built, its route registered and the packet sent. */
  datatype Check = Check(txn: int, built: bool, memory: bool, sent: bool)

  predicate CheckFails(tr: Transport, c: Check)
  {
    !tr.setup.remoteIce || !tr.setup.remoteCandidate || !c.built || !c.memory || !c.sent
  }

  /** `transport_send_ice_check` */
  function SendCheck(s: State, t: int, c: Check): State
    requires t in s.transports
  {
    var tr := s.transports[t];
    if !tr.setup.remoteIce || !tr.setup.remoteCandidate || !c.built then s
    else
      var s1 := UnregisterTxn(s, t);
      var checks := if c.memory && c.sent then tr.setup.checks + 1 else tr.setup.checks;
      Put(s1, t, tr.(txn := c.txn, txnRegistered := c.memory, setup := tr.setup.(checks := checks)))
      .(txns := Register(s1.txns, c.txn, t, c.memory))
  }

  /** `transport_arm_ice_timer` */
  function ArmIce(s: State, t: int, h: int): State
    requires t in s.transports
  {
    var tr := s.transports[t];
    if tr.selected.Some? || tr.closed || tr.handles.ice != 0 then s else Arm(s, t, Ice, h)
  }

  /** `transport_arm_dtls_timer` */
  function ArmDtls(s: State, t: int, h: int): State
    requires t in s.transports
  {
    var tr := s.transports[t];
    if tr.setup.handshake != Connecting || tr.closed || tr.handles.dtls != 0 then s else Arm(s, t, Dtls, h)
  }

  /** `transport_try_export_srtp`; keys tells whether the export worked. */
  function TryExport(s: State, t: int, keys: bool): State
    requires t in s.transports
  {
    var tr := s.transports[t];
    if tr.setup.ready || tr.setup.handshake != Connected then s
    else
      var s1 := Cancel(s, t, Dtls);
      Put(s1, t, s1.transports[t].(setup := if keys then tr.setup.(ready := true) else tr.setup.(handshake := Failed)))
  }

  /** A handshake step that worked and left the connection in state hs. */
  function Progress(s: State, t: int, hs: Handshake, h: int, keys: bool): State
    requires t in s.transports
  {
    TryExport(ArmDtls(Put(s, t, s.transports[t].(setup := s.transports[t].setup.(handshake := hs))), t, h), t, keys)
  }

  /** The first remote address that answers or asks is selected for good. */
  function Select(s: State, t: int, from: Address, memory: bool): State
    requires t in s.transports
  {
    var tr := s.transports[t];
    if tr.selected.Some? then s
    else
      var s' := Put(s, t, tr.(selected := Some(from)));
      if from.key.None? then s' else s'.(tuples := Register(s.tuples, from.key.value, t, memory))
  }

  datatype Message =
    | Request(from: Address)
    | Response(txn: int, from: Address)
    | Record(ok: bool, hs: Handshake, keys: bool)
    | Media

  /** `transport_on_packet` */
  function OnPacket(s: State, t: int, m: Message, memory: bool, h: int): State
    requires t in s.transports
  {
    var tr := s.transports[t];
    if tr.closed then s
    else
      match m
      case Request(from) => Select(s, t, from, memory)
      case Response(txn, from) =>
        if !tr.txnRegistered || txn != tr.txn then s
        else Select(Cancel(UnregisterTxn(s, t), t, Ice), t, from, memory)
      case Record(ok, hs, keys) => if ok then Progress(s, t, hs, h, keys) else s
      case Media => s
  }

  /** A timer has been popped and its callback runs: `transport_ice_timer`,
      `transport_dtls_timer`, `transport_twcc_fb_timer`. */
  function OnTimer(s: State, t: int, kind: Kind, c: Check, h: int): State
    requires t in s.transports
  {
    var s1 := Put(s, t, SetHandle(s.transports[t], kind, 0));
    var tr := s1.transports[t];
    if tr.closed then s1
    else
      match kind
      case Ice =>
        if tr.selected.Some? || tr.setup.checks >= 120 then s1
        else if CheckFails(tr, c) then SendCheck(s1, t, c)
        else ArmIce(SendCheck(s1, t, c), t, h)
      case Dtls => if tr.setup.handshake != Connecting then s1 else ArmDtls(s1, t, h)
      case Twcc => Arm(s1, t, Twcc, h)
  }

  function Unrouted(s: State, t: int): (r: State)
    requires t in s.transports
    ensures t in r.transports
  {
    UnregisterTxn(s.(ufrags := Unregister(s.ufrags, s.transports[t].ufrag)), t)
  }

  function Untupled(s: State, t: int): (r: State)
    requires t in s.transports
    ensures t in r.transports
  {
    var selected := s.transports[t].selected;
    if selected.None? || selected.value.key.None? then s
    else s.(tuples := Unregister(s.tuples, selected.value.key.value))
  }

  function Disarmed(s: State, t: int): (r: State)
    requires t in s.transports
    ensures t in r.transports
  {
    Cancel(Cancel(Cancel(s, t, Ice), t, Dtls), t, Twcc)
  }

  function Finished(s: State, t: int): (r: State)
    requires t in s.transports
    ensures t in r.transports
  {
    var tr := s.transports[t];
    Put(s, t, tr.(setup := tr.setup.(ready := false, handshake := Shut), done := true))
  }

  /** `tx_close_impl` */
  function Teardown(s: State, t: int): State
    requires t in s.transports
  {
    Finished(Disarmed(Untupled(Unrouted(s, t), t), t), t)
  }

  // ----- control operations -----

  datatype Control =
    | RestartIce(ufrag: Option<int>, memory: bool)
    | SetRemoteIce
    | AddCandidate(ok: bool)
    | StartIce(check: Check, h: int)
    | StartDtls(ok: bool, hs: Handshake, keys: bool, h: int)
    | EnableTwcc(memory: bool, h: int)

  /** `tx_restart_ice_impl`; without randomness the old fragment stays, unrouted. */
  function Restart(s: State, t: int, ufrag: Option<int>, memory: bool): State
    requires t in s.transports
  {
    var tr := s.transports[t];
    var s1 := s.(ufrags := Unregister(s.ufrags, tr.ufrag));
    if tr.selected.Some? then s
    else if ufrag.None? then s1
    else Put(s1, t, tr.(ufrag := ufrag.value)).(ufrags := Register(s1.ufrags, ufrag.value, t, memory))
  }

  function Operate(s: State, t: int, op: Control): State
    requires t in s.transports
  {
    var tr := s.transports[t];
    match op
    case RestartIce(ufrag, memory) => Restart(s, t, ufrag, memory)
    case SetRemoteIce => Put(s, t, tr.(setup := tr.setup.(remoteIce := true)))
    case AddCandidate(ok) => if ok then Put(s, t, tr.(setup := tr.setup.(remoteCandidate := true))) else s
    case StartIce(c, h) =>
      if !tr.setup.full || tr.selected.Some? then s
      else if CheckFails(tr, c) then SendCheck(s, t, c)
      else ArmIce(SendCheck(s, t, c), t, h)
    case StartDtls(ok, hs, keys, h) =>
      if tr.selected.None? || tr.setup.handshake == Connected || !ok then s else Progress(s, t, hs, h, keys)
    case EnableTwcc(memory, h) =>
      if !tr.setup.mayTwcc || tr.setup.twccOn || !memory then s
      else
        var on := Put(s, t, tr.(setup := tr.setup.(twccOn := true)));
        if tr.handles.twcc != 0 then on else Arm(on, t, Twcc, h)
  }

  // ----- runs -----

  datatype Via = ByUfrag(key: int) | ByTxn(key: int) | ByTuple(key: int)

  datatype Event =
    | Create(t: int, ufrag: int, full: bool, mayTwcc: bool, memory: bool)
    | Packet(via: Via, m: Message, memory: bool, h: int)
    | Fire(fired: int, check: Check, h: int)
    | Op(t: int, op: Control)
    | Flag(t: int)
    | Close(t: int)
    | Destroy(t: int)

  function Table(s: State, via: Via): map<int, int>
  {
    match via case ByUfrag(_) => s.ufrags case ByTxn(_) => s.txns case ByTuple(_) => s.tuples
  }

  function Created(e: Event): Transport
    requires e.Create?
  {
    Transport(e.ufrag, 0, false, None, Handles(0, 0, 0),
              Setup(e.full, e.mayTwcc, false, false, false, 0, Idle, false), false, false)
  }

  /** The timer handle an event would be given, 0 if none. */
  function Given(e: Event): int
  {
    match e
    case Packet(_, _, _, h) => h
    case Fire(_, _, h) => h
    case Op(_, StartIce(_, h)) => h
    case Op(_, StartDtls(_, _, _, h)) => h
    case Op(_, EnableTwcc(_, h)) => h
    case _ => 0
  }

  /** What the worker, the listener and the allocator can do: a packet is
      dispatched through a route, only a pending timer fires, a new handle is
      not pending, new memory is not in use. The teardown follows the flag. A
      destroy that finds the flag raised frees the transport at once, even while
      the teardown of whoever raised it is still to come. */
  ghost predicate Possible(s: State, e: Event)
  {
    && (Given(e) != 0 ==> Given(e) !in s.timers)
    && match e
       case Create(t, _, _, _, _) => t !in s.transports
       case Packet(via, _, _, _) => via.key in Table(s, via)
       case Fire(fired, _, _) => fired in s.timers
       case Op(t, _) => t in s.transports
       case Flag(t) => t in s.transports && !s.transports[t].closed
       case Close(t) => t in s.transports && s.transports[t].closed && !s.transports[t].done
       case Destroy(t) => t in s.transports && s.transports[t].closed
  }

  /** No control operation gives a torn-down transport a route or a timer again,
      and a transport is destroyed when nothing names it any more. */
  ghost predicate Disciplined(s: State, e: Event)
  {
    && (e.Op? && e.t in s.transports && s.transports[e.t].done ==> !Reopens(s, e, e.t))
    && (e.Destroy? ==> Clean(s, e.t))
  }

  /** The transport that a packet or a timer runs on. */
  function Target(s: State, e: Event): Option<int>
  {
    match e
    case Packet(via, _, _, _) => if via.key in Table(s, via) then Some(Table(s, via)[via.key]) else None
    case Fire(fired, _, _) => if fired in s.timers then Some(s.timers[fired].owner) else None
    case _ => None
  }

  /** A step on a transport that is no longer there has no defined effect. */
  ghost predicate Live(s: State, e: Event)
  {
    Target(s, e).Some? ==> Target(s, e).value in s.transports
  }

  ghost function Next(s: State, e: Event): State
    requires Possible(s, e)
  {
    match e
    case Create(t, ufrag, _, _, memory) =>
      if memory then Put(s, t, Created(e)).(ufrags := s.ufrags[ufrag := t]) else s
    case Packet(via, m, memory, h) => if Live(s, e) then OnPacket(s, Table(s, via)[via.key], m, memory, h) else s
    case Fire(fired, c, h) =>
      var timer := s.timers[fired];
      if Live(s, e) then OnTimer(s.(timers := s.timers - {fired}), timer.owner, timer.kind, c, h) else s
    case Op(t, op) => Operate(s, t, op)
    case Flag(t) => Put(s, t, s.transports[t].(closed := true))
    case Close(t) => Teardown(s, t)
    case Destroy(t) => s.(transports := s.transports - {t})
  }

  ghost predicate Runs(s: State, es: seq<Event>)
    decreases |es|
  {
    es == [] || (Possible(s, es[0]) && Disciplined(s, es[0]) && Runs(Next(s, es[0]), es[1..]))
  }

  ghost function After(s: State, es: seq<Event>): State
    requires Runs(s, es)
    decreases |es|
  {
    if es == [] then s else After(Next(s, es[0]), es[1..])
  }

  // ----- what every step keeps -----

  ghost predicate UfragsMatch(table: map<int, int>, transports: map<int, Transport>)
  {
    forall k | k in table :: table[k] in transports && transports[table[k]].ufrag == k
  }

  ghost predicate TxnsMatch(table: map<int, int>, transports: map<int, Transport>)
  {
    forall k | k in table ::
      table[k] in transports && transports[table[k]].txnRegistered && transports[table[k]].txn == k
  }

  ghost predicate TuplesMatch(table: map<int, int>, transports: map<int, Transport>)
  {
    forall k | k in table :: table[k] in transports && transports[table[k]].selected == Some(Address(Some(k)))
  }

  ghost predicate TimersMatch(timers: map<int, Timer>, transports: map<int, Transport>)
  {
    forall h | h in timers ::
      h != 0 && timers[h].owner in transports && Handle(transports[timers[h].owner], timers[h].kind) == h
  }

  /** Every route and every pending timer names a live transport whose current
      fields say the same. */
  ghost predicate Matches(s: State)
  {
    && UfragsMatch(s.ufrags, s.transports)
    && TxnsMatch(s.txns, s.transports)
    && TuplesMatch(s.tuples, s.transports)
    && TimersMatch(s.timers, s.transports)
  }

  /** Nothing names t. */
  ghost predicate Clean(s: State, t: int)
  {
    && (forall k | k in s.ufrags :: s.ufrags[k] != t)
    && (forall k | k in s.txns :: s.txns[k] != t)
    && (forall k | k in s.tuples :: s.tuples[k] != t)
    && (forall h | h in s.timers :: s.timers[h].owner != t)
  }

  ghost predicate Inv(s: State)
  {
    && Matches(s)
    && forall t | t in s.transports && s.transports[t].done :: s.transports[t].closed && Clean(s, t)
  }

  /** Routes and timers are gone, unchanged or now t's. */
  ghost predicate OnlyAdds(s: State, s': State, t: int)
  {
    && (forall k | k in s'.ufrags :: s'.ufrags[k] == t || (k in s.ufrags && s.ufrags[k] == s'.ufrags[k]))
    && (forall k | k in s'.txns :: s'.txns[k] == t || (k in s.txns && s.txns[k] == s'.txns[k]))
    && (forall k | k in s'.tuples :: s'.tuples[k] == t || (k in s.tuples && s.tuples[k] == s'.tuples[k]))
    && (forall h | h in s'.timers :: s'.timers[h].owner == t || (h in s.timers && s.timers[h] == s'.timers[h]))
  }

  /** A step on t that keeps the matching, leaves the other transports alone
      and routes nothing new to them. */
  ghost predicate Keeps(s: State, s': State, t: int)
  {
    && Matches(s') && OnlyAdds(s, s', t) && t in s.transports && t in s'.transports
    && s'.transports == s.transports[t := s'.transports[t]]
    && s'.transports[t].closed == s.transports[t].closed && s'.transports[t].done == s.transports[t].done
  }

  lemma StaysClean(s: State, s': State, t: int, u: int)
    requires OnlyAdds(s, s', t) && u != t && Clean(s, u)
    ensures Clean(s', u)
  {
  }

  lemma KeepsTwice(s: State, s1: State, s2: State, t: int)
    requires Keeps(s, s1, t) && Keeps(s1, s2, t)
    ensures Keeps(s, s2, t)
  {
  }

  /** Fields that no route and no timer refers to can change freely. */
  lemma PutKeeps(s: State, t: int, tr: Transport)
    requires Matches(s) && t in s.transports
    requires tr.ufrag == s.transports[t].ufrag && tr.selected == s.transports[t].selected
    requires tr.txn == s.transports[t].txn && tr.txnRegistered == s.transports[t].txnRegistered
    requires tr.handles == s.transports[t].handles
    requires tr.closed == s.transports[t].closed && tr.done == s.transports[t].done
    ensures Keeps(s, Put(s, t, tr), t)
  {
  }

  lemma HandleSet(tr: Transport, kind: Kind, h: int)
    ensures var r := SetHandle(tr, kind, h);
            && r.ufrag == tr.ufrag && r.txn == tr.txn && r.txnRegistered == tr.txnRegistered
            && r.selected == tr.selected && r.closed == tr.closed && r.done == tr.done
            && forall k :: Handle(r, k) == if k == kind then h else Handle(tr, k)
  {
  }

  lemma DropTimerKeeps(s: State, t: int, kind: Kind, h: int)
    requires Matches(s) && t in s.transports && h == Handle(s.transports[t], kind)
    ensures Keeps(s, Put(s, t, SetHandle(s.transports[t], kind, 0)).(timers := s.timers - {h}), t)
  {
    HandleSet(s.transports[t], kind, 0);
  }

  lemma CancelKeeps(s: State, t: int, kind: Kind)
    requires Matches(s) && t in s.transports
    ensures Keeps(s, Cancel(s, t, kind), t)
    ensures Cancel(s, t, kind).transports[t] == SetHandle(s.transports[t], kind, 0)
    ensures Cancel(s, t, kind).ufrags == s.ufrags && Cancel(s, t, kind).tuples == s.tuples
  {
    HandleSet(s.transports[t], kind, 0);
    if Handle(s.transports[t], kind) != 0 {
      DropTimerKeeps(s, t, kind, Handle(s.transports[t], kind));
    }
  }

  lemma ArmKeeps(s: State, t: int, kind: Kind, h: int)
    requires Matches(s) && t in s.transports && Handle(s.transports[t], kind) == 0
    requires h != 0 ==> h !in s.timers
    ensures Keeps(s, Arm(s, t, kind, h), t)
  {
    HandleSet(s.transports[t], kind, h);
  }

  lemma UnregisterTxnKeeps(s: State, t: int)
    requires Matches(s) && t in s.transports
    ensures var s' := UnregisterTxn(s, t); Keeps(s, s', t) && !s'.transports[t].txnRegistered
    ensures s.transports[t].txnRegistered
            ==> UnregisterTxn(s, t).transports[t] == s.transports[t].(txnRegistered := false)
  {
  }

  /** A transport without a registered transaction takes a new one. */
  lemma TakeTxnKeeps(s: State, t: int, tr: Transport, memory: bool)
    requires Matches(s) && t in s.transports && !s.transports[t].txnRegistered
    requires tr.txnRegistered == memory
    requires tr.ufrag == s.transports[t].ufrag && tr.selected == s.transports[t].selected
    requires tr.handles == s.transports[t].handles
    requires tr.closed == s.transports[t].closed && tr.done == s.transports[t].done
    ensures Keeps(s, Put(s, t, tr).(txns := Register(s.txns, tr.txn, t, memory)), t)
  {
  }

  lemma SendCheckKeeps(s: State, t: int, c: Check)
    requires Matches(s) && t in s.transports
    ensures var s' := SendCheck(s, t, c);
            Keeps(s, s', t) && s'.timers == s.timers && s'.transports[t].handles == s.transports[t].handles
  {
    var tr := s.transports[t];
    if tr.setup.remoteIce && tr.setup.remoteCandidate && c.built {
      var s1 := UnregisterTxn(s, t);
      UnregisterTxnKeeps(s, t);
      TakeTxnKeeps(s1, t, SendCheck(s, t, c).transports[t], c.memory);
      KeepsTwice(s, s1, SendCheck(s, t, c), t);
    }
  }

  lemma ArmIceKeeps(s: State, t: int, h: int)
    requires Matches(s) && t in s.transports && (h != 0 ==> h !in s.timers)
    ensures Keeps(s, ArmIce(s, t, h), t)
  {
    if s.transports[t].handles.ice == 0 {
      ArmKeeps(s, t, Ice, h);
    }
  }

  lemma ProgressKeeps(s: State, t: int, hs: Handshake, h: int, keys: bool)
    requires Matches(s) && t in s.transports && (h != 0 ==> h !in s.timers)
    ensures Keeps(s, Progress(s, t, hs, h, keys), t)
  {
    var s1 := Put(s, t, s.transports[t].(setup := s.transports[t].setup.(handshake := hs)));
    PutKeeps(s, t, s1.transports[t]);
    var s2 := ArmDtls(s1, t, h);
    if s1.transports[t].handles.dtls == 0 {
      ArmKeeps(s1, t, Dtls, h);
    }
    KeepsTwice(s, s1, s2, t);
    TryExportKeeps(s2, t, keys);
    KeepsTwice(s, s2, TryExport(s2, t, keys), t);
  }

  lemma TryExportKeeps(s: State, t: int, keys: bool)
    requires Matches(s) && t in s.transports
    ensures Keeps(s, TryExport(s, t, keys), t)
  {
    if !s.transports[t].setup.ready && s.transports[t].setup.handshake == Connected {
      var s1 := Cancel(s, t, Dtls);
      CancelKeeps(s, t, Dtls);
      PutKeeps(s1, t, TryExport(s, t, keys).transports[t]);
      KeepsTwice(s, s1, TryExport(s, t, keys), t);
    }
  }

  lemma SelectedKeeps(s: State, t: int, from: Address)
    requires Matches(s) && t in s.transports && s.transports[t].selected.None?
    ensures Keeps(s, Put(s, t, s.transports[t].(selected := Some(from))), t)
  {
  }

  lemma TupleKeeps(s: State, t: int, key: int)
    requires Matches(s) && t in s.transports && s.transports[t].selected == Some(Address(Some(key)))
    ensures Keeps(s, s.(tuples := s.tuples[key := t]), t)
  {
  }

  lemma SelectKeeps(s: State, t: int, from: Address, memory: bool)
    requires Matches(s) && t in s.transports
    ensures Keeps(s, Select(s, t, from, memory), t)
  {
    if s.transports[t].selected.None? {
      var s1 := Put(s, t, s.transports[t].(selected := Some(from)));
      SelectedKeeps(s, t, from);
      if from.key.Some? && memory {
        TupleKeeps(s1, t, from.key.value);
        KeepsTwice(s, s1, s1.(tuples := s1.tuples[from.key.value := t]), t);
      }
    }
  }

  lemma OnPacketKeeps(s: State, t: int, m: Message, memory: bool, h: int)
    requires Matches(s) && t in s.transports && (h != 0 ==> h !in s.timers)
    ensures Keeps(s, OnPacket(s, t, m, memory, h), t)
  {
    match m
    case Request(from) => SelectKeeps(s, t, from, memory);
    case Response(txn, from) =>
      var s1 := UnregisterTxn(s, t);
      UnregisterTxnKeeps(s, t);
      var s2 := Cancel(s1, t, Ice);
      CancelKeeps(s1, t, Ice);
      KeepsTwice(s, s1, s2, t);
      SelectKeeps(s2, t, from, memory);
      KeepsTwice(s, s2, Select(s2, t, from, memory), t);
    case Record(ok, hs, keys) => ProgressKeeps(s, t, hs, h, keys);
    case Media =>
  }

  lemma OnTimerKeeps(s: State, fired: int, c: Check, h: int)
    requires Matches(s) && fired in s.timers && s.timers[fired].owner in s.transports && (h != 0 ==> h !in s.timers)
    ensures var timer := s.timers[fired];
            Keeps(s, OnTimer(s.(timers := s.timers - {fired}), timer.owner, timer.kind, c, h), timer.owner)
  {
    var t, kind := s.timers[fired].owner, s.timers[fired].kind;
    var s1 := Put(s, t, SetHandle(s.transports[t], kind, 0)).(timers := s.timers - {fired});
    DropTimerKeeps(s, t, kind, fired);
    HandleSet(s.transports[t], kind, 0);
    var s' := OnTimer(s.(timers := s.timers - {fired}), t, kind, c, h);
    if s' != s1 {
      match kind {
        case Ice =>
          StartIceKeeps(s1, t, c, h);
        case Dtls => ArmKeeps(s1, t, Dtls, h);
        case Twcc => ArmKeeps(s1, t, Twcc, h);
      }
      KeepsTwice(s, s1, s', t);
    }
  }

  lemma NewUfragKeeps(s: State, t: int, ufrag: int)
    requires Matches(s) && t in s.transports && s.transports[t].ufrag !in s.ufrags
    ensures Keeps(s, Put(s, t, s.transports[t].(ufrag := ufrag)), t)
  {
  }

  lemma RouteUfragKeeps(s: State, t: int, ufrag: int)
    requires Matches(s) && t in s.transports && s.transports[t].ufrag == ufrag
    ensures Keeps(s, s.(ufrags := s.ufrags[ufrag := t]), t)
  {
  }

  lemma RestartKeeps(s: State, t: int, ufrag: Option<int>, memory: bool)
    requires Matches(s) && t in s.transports
    ensures Keeps(s, Restart(s, t, ufrag, memory), t)
  {
    var s1 := s.(ufrags := Unregister(s.ufrags, s.transports[t].ufrag));
    assert Keeps(s, s1, t);
    if s.transports[t].selected.None? && ufrag.Some? {
      var s2 := Put(s1, t, s.transports[t].(ufrag := ufrag.value));
      NewUfragKeeps(s1, t, ufrag.value);
      KeepsTwice(s, s1, s2, t);
      if memory {
        RouteUfragKeeps(s2, t, ufrag.value);
        KeepsTwice(s, s2, Restart(s, t, ufrag, memory), t);
      }
    }
  }

  lemma StartIceKeeps(s: State, t: int, c: Check, h: int)
    requires Matches(s) && t in s.transports && (h != 0 ==> h !in s.timers)
    ensures Keeps(s, SendCheck(s, t, c), t) && Keeps(s, ArmIce(SendCheck(s, t, c), t, h), t)
  {
    var s1 := SendCheck(s, t, c);
    SendCheckKeeps(s, t, c);
    ArmIceKeeps(s1, t, h);
    KeepsTwice(s, s1, ArmIce(s1, t, h), t);
  }

  lemma EnableTwccKeeps(s: State, t: int, memory: bool, h: int)
    requires Matches(s) && t in s.transports && (h != 0 ==> h !in s.timers)
    ensures Keeps(s, Operate(s, t, EnableTwcc(memory, h)), t)
  {
    var tr := s.transports[t];
    if tr.setup.mayTwcc && !tr.setup.twccOn && memory {
      TurnOnKeeps(s, t, h);
    } else {
      PutKeeps(s, t, tr);
      assert Put(s, t, tr) == s;
    }
  }

  lemma TurnOnKeeps(s: State, t: int, h: int)
    requires Matches(s) && t in s.transports && (h != 0 ==> h !in s.timers)
    ensures var tr := s.transports[t];
            var on := Put(s, t, tr.(setup := tr.setup.(twccOn := true)));
            Keeps(s, if tr.handles.twcc != 0 then on else Arm(on, t, Twcc, h), t)
  {
    var tr := s.transports[t];
    var on := Put(s, t, tr.(setup := tr.setup.(twccOn := true)));
    PutKeeps(s, t, on.transports[t]);
    if tr.handles.twcc == 0 {
      ArmKeeps(on, t, Twcc, h);
      KeepsTwice(s, on, Arm(on, t, Twcc, h), t);
    }
  }

  lemma OperateKeeps(s: State, t: int, op: Control)
    requires Matches(s) && t in s.transports && (Given(Op(t, op)) != 0 ==> Given(Op(t, op)) !in s.timers)
    ensures Keeps(s, Operate(s, t, op), t)
  {
    var tr := s.transports[t];
    match op
    case RestartIce(ufrag, memory) => RestartKeeps(s, t, ufrag, memory);
    case SetRemoteIce => PutKeeps(s, t, tr.(setup := tr.setup.(remoteIce := true)));
    case AddCandidate(ok) => PutKeeps(s, t, tr.(setup := tr.setup.(remoteCandidate := true)));
    case StartIce(c, h) => StartIceKeeps(s, t, c, h);
    case StartDtls(ok, hs, keys, h) => ProgressKeeps(s, t, hs, h, keys);
    case EnableTwcc(memory, h) => EnableTwccKeeps(s, t, memory, h);
  }

  lemma CleanBy(s: State, t: int)
    requires Matches(s) && t in s.transports
    requires var tr := s.transports[t];
             && tr.ufrag !in s.ufrags && !tr.txnRegistered && tr.handles == Handles(0, 0, 0)
             && (tr.selected.Some? && tr.selected.value.key.Some? ==> tr.selected.value.key.value !in s.tuples)
    ensures Clean(s, t)
  {
  }

  lemma UnroutedKeeps(s: State, t: int)
    requires Matches(s) && t in s.transports
    ensures var s1 := Unrouted(s, t);
            && Keeps(s, s1, t) && s1.transports[t] == s.transports[t].(txnRegistered := false)
            && s.transports[t].ufrag !in s1.ufrags
  {
    var s0 := s.(ufrags := Unregister(s.ufrags, s.transports[t].ufrag));
    assert Keeps(s, s0, t);
    UnregisterTxnKeeps(s0, t);
    KeepsTwice(s, s0, UnregisterTxn(s0, t), t);
  }

  lemma DisarmKeeps(s: State, t: int)
    requires Matches(s) && t in s.transports
    ensures var s1 := Disarmed(s, t);
            && Keeps(s, s1, t) && s1.transports[t] == s.transports[t].(handles := Handles(0, 0, 0))
            && s1.ufrags == s.ufrags && s1.tuples == s.tuples
  {
    var a := Cancel(s, t, Ice);
    CancelKeeps(s, t, Ice);
    var b := Cancel(a, t, Dtls);
    CancelKeeps(a, t, Dtls);
    KeepsTwice(s, a, b, t);
    CancelKeeps(b, t, Twcc);
    KeepsTwice(s, b, Cancel(b, t, Twcc), t);
  }

  lemma UntupledKeeps(s: State, t: int)
    requires Matches(s) && t in s.transports
    ensures Keeps(s, Untupled(s, t), t)
  {
  }

  /** After the teardown nothing names the transport, whatever keys it shares
      with others; nothing new names another. */
  lemma TeardownCleans(s: State, t: int)
    requires Matches(s) && t in s.transports
    ensures var s' := Teardown(s, t);
            && Matches(s') && OnlyAdds(s, s', t) && Clean(s', t)
            && t in s'.transports && s'.transports == s.transports[t := s'.transports[t]]
            && s'.transports[t].done && s'.transports[t].closed == s.transports[t].closed
  {
    var s1 := Unrouted(s, t);
    UnroutedKeeps(s, t);
    var s2 := Untupled(s1, t);
    UntupledKeeps(s1, t);
    KeepsTwice(s, s1, s2, t);
    var s3 := Disarmed(s2, t);
    DisarmKeeps(s2, t);
    KeepsTwice(s, s2, s3, t);
    CleanBy(s3, t);
    DoneMatches(s, s3, t);
  }

  lemma DoneMatches(s: State, s3: State, t: int)
    requires Keeps(s, s3, t) && Clean(s3, t)
    ensures var s' := Finished(s3, t);
            && Matches(s') && OnlyAdds(s, s', t) && Clean(s', t)
            && s'.transports == s.transports[t := s'.transports[t]]
            && s'.transports[t].done && s'.transports[t].closed == s.transports[t].closed
  {
  }

  /** A step on t that keeps the matching keeps the invariant, unless t is done. */
  lemma KeepsInv(s: State, s': State, t: int)
    requires Inv(s) && Keeps(s, s', t) && !s.transports[t].done
    ensures Inv(s')
  {
    forall u | u in s'.transports && s'.transports[u].done
      ensures s'.transports[u].closed && Clean(s', u)
    {
      StaysClean(s, s', t, u);
    }
  }

  lemma TeardownInv(s: State, t: int)
    requires Inv(s) && t in s.transports && s.transports[t].closed
    ensures Inv(Teardown(s, t))
  {
    TeardownCleans(s, t);
    var s' := Teardown(s, t);
    forall u | u in s'.transports && s'.transports[u].done
      ensures s'.transports[u].closed && Clean(s', u)
    {
      if u != t {
        StaysClean(s, s', t, u);
      }
    }
  }

  lemma CreateInv(s: State, e: Event)
    requires Inv(s) && e.Create? && e.t !in s.transports
    ensures Inv(Put(s, e.t, Created(e)).(ufrags := s.ufrags[e.ufrag := e.t]))
  {
    var s' := Put(s, e.t, Created(e)).(ufrags := s.ufrags[e.ufrag := e.t]);
    forall u | u in s'.transports && s'.transports[u].done
      ensures s'.transports[u].closed && Clean(s', u)
    {
      StaysClean(s, s', e.t, u);
    }
  }

  lemma FlagInv(s: State, t: int)
    requires Inv(s) && t in s.transports
    ensures Inv(Put(s, t, s.transports[t].(closed := true)))
  {
    var s' := Put(s, t, s.transports[t].(closed := true));
    forall u | u in s'.transports && s'.transports[u].done
      ensures s'.transports[u].closed && Clean(s', u)
    {
      assert s.transports[u].done && Clean(s, u);
    }
  }

  lemma DestroyInv(s: State, t: int)
    requires Inv(s) && t in s.transports && Clean(s, t)
    ensures Inv(s.(transports := s.transports - {t}))
  {
    var s' := s.(transports := s.transports - {t});
    forall u | u in s'.transports && s'.transports[u].done
      ensures s'.transports[u].closed && Clean(s', u)
    {
      assert s.transports[u].done && Clean(s, u);
    }
  }

  /** Freeing a transport leaves no route and no timer behind exactly if nothing
      named it. */
  lemma DestroyExactly(s: State, t: int)
    requires Matches(s) && t in s.transports
    ensures Matches(s.(transports := s.transports - {t})) <==> Clean(s, t)
  {
    var s' := s.(transports := s.transports - {t});
    if Matches(s') {
      assert forall k | k in s.ufrags :: s.ufrags[k] in s'.transports;
      assert forall k | k in s.txns :: s.txns[k] in s'.transports;
      assert forall k | k in s.tuples :: s.tuples[k] in s'.transports;
      assert forall h | h in s.timers :: s.timers[h].owner in s'.transports;
    }
  }

  /** Whatever a packet or a timer runs on is there and has not been torn down. */
  lemma TargetOpen(s: State, e: Event)
    requires Inv(s) && Possible(s, e) && Target(s, e).Some?
    ensures var t := Target(s, e).value; t in s.transports && !s.transports[t].done
  {
    var t := Target(s, e).value;
    assert t in s.transports && s.transports[t].done ==> Clean(s, t);
  }

  /** The operations that give a torn-down transport a route or a timer again:
      they do not look at the closed flag. */
  ghost predicate Reopens(s: State, e: Event, t: int)
    requires t in s.transports
  {
    var tr := s.transports[t];
    e.Op? && e.t == t &&
    match e.op
    case RestartIce(ufrag, memory) => tr.selected.None? && ufrag.Some? && memory
    case StartIce(c, _) =>
      tr.setup.full && tr.selected.None? && tr.setup.remoteIce && tr.setup.remoteCandidate && c.built && c.memory
    case EnableTwcc(memory, h) => tr.setup.mayTwcc && !tr.setup.twccOn && memory && tr.handles.twcc == 0 && h != 0
    case _ => false
  }

  lemma RestartReopens(s: State, t: int, ufrag: Option<int>, memory: bool)
    requires Matches(s) && t in s.transports && Clean(s, t)
    ensures Clean(Restart(s, t, ufrag, memory), t) <==> !(s.transports[t].selected.None? && ufrag.Some? && memory)
  {
    var s' := Restart(s, t, ufrag, memory);
    if s.transports[t].selected.None? && ufrag.Some? && memory {
      assert s'.ufrags[ufrag.value] == t;
    }
  }

  lemma CheckReopens(s: State, t: int, c: Check)
    requires Matches(s) && t in s.transports && Clean(s, t)
    ensures var setup := s.transports[t].setup;
            Clean(SendCheck(s, t, c), t) <==> !(setup.remoteIce && setup.remoteCandidate && c.built && c.memory)
  {
    var s', setup := SendCheck(s, t, c), s.transports[t].setup;
    if setup.remoteIce && setup.remoteCandidate && c.built && c.memory {
      assert s'.txns[c.txn] == t;
    }
  }

  lemma ProgressStaysClean(s: State, t: int, hs: Handshake, h: int, keys: bool)
    requires t in s.transports && Clean(s, t) && s.transports[t].closed
    ensures Clean(Progress(s, t, hs, h, keys), t)
  {
  }

  lemma TwccReopens(s: State, t: int, memory: bool, h: int)
    requires t in s.transports && Clean(s, t)
    ensures var tr := s.transports[t];
            Clean(Operate(s, t, EnableTwcc(memory, h)), t)
            <==> !(tr.setup.mayTwcc && !tr.setup.twccOn && memory && tr.handles.twcc == 0 && h != 0)
  {
    var tr, s' := s.transports[t], Operate(s, t, EnableTwcc(memory, h));
    if tr.setup.mayTwcc && !tr.setup.twccOn && memory && tr.handles.twcc == 0 && h != 0 {
      assert s'.timers[h].owner == t;
    }
  }

  lemma OperateReopens(s: State, t: int, op: Control)
    requires Matches(s) && t in s.transports && Clean(s, t) && s.transports[t].closed
    ensures Clean(Operate(s, t, op), t) <==> !Reopens(s, Op(t, op), t)
  {
    match op
    case RestartIce(ufrag, memory) => RestartReopens(s, t, ufrag, memory);
    case SetRemoteIce =>
    case AddCandidate(ok) =>
    case StartIce(c, h) => CheckReopens(s, t, c);
    case StartDtls(ok, hs, keys, h) => ProgressStaysClean(s, t, hs, h, keys);
    case EnableTwcc(memory, h) => TwccReopens(s, t, memory, h);
  }

  /** A control operation on a torn-down transport keeps the invariant exactly if
      it brings nothing back. */
  lemma LateOperation(s: State, t: int, op: Control)
    requires Inv(s) && t in s.transports && s.transports[t].done
    requires Given(Op(t, op)) != 0 ==> Given(Op(t, op)) !in s.timers
    ensures Inv(Operate(s, t, op)) <==> !Reopens(s, Op(t, op), t)
  {
    var s' := Operate(s, t, op);
    assert s.transports[t].closed && Clean(s, t);
    OperateKeeps(s, t, op);
    OperateReopens(s, t, op);
    if Clean(s', t) {
      forall u | u in s'.transports && s'.transports[u].done
        ensures s'.transports[u].closed && Clean(s', u)
      {
        if u != t {
          StaysClean(s, s', t, u);
        }
      }
    }
  }

  /** A step keeps the invariant exactly if it is disciplined: there is no other
      way to a route or a timer without its transport. */
  lemma StepKeeps(s: State, e: Event)
    requires Inv(s) && Possible(s, e)
    ensures Inv(Next(s, e)) <==> Disciplined(s, e)
  {
    match e
    case Create(t, ufrag, _, _, memory) => CreateInv(s, e);
    case Packet(via, m, memory, h) =>
      TargetOpen(s, e);
      OnPacketKeeps(s, Target(s, e).value, m, memory, h);
      KeepsInv(s, Next(s, e), Target(s, e).value);
    case Fire(fired, c, h) =>
      TargetOpen(s, e);
      OnTimerKeeps(s, fired, c, h);
      KeepsInv(s, Next(s, e), Target(s, e).value);
    case Op(t, op) =>
      if s.transports[t].done {
        LateOperation(s, t, op);
      } else {
        OperateKeeps(s, t, op);
        KeepsInv(s, Next(s, e), t);
      }
    case Flag(t) => FlagInv(s, t);
    case Close(t) => TeardownInv(s, t);
    case Destroy(t) =>
      DestroyExactly(s, t);
      if Clean(s, t) {
        DestroyInv(s, t);
      }
  }

  /** In every run every route and every pending timer names a transport that is
      there, not torn down, and whose fields agree; even where transports share
      keys and memory is used again. */
  lemma {:induction false} NoDangling(s: State, es: seq<Event>)
    requires Inv(s) && Runs(s, es)
    ensures Inv(After(s, es))
    decreases |es|
  {
    if es != [] {
      StepKeeps(s, es[0]);
      NoDangling(Next(s, es[0]), es[1..]);
    }
  }

  // ----- what a caller can see to -----

  /** A transport is destroyed only after its teardown, and from then on neither
      restarted, started nor asked for feedback. */
  predicate Careful(s: State, e: Event)
  {
    match e
    case Op(t, op) =>
      t in s.transports && s.transports[t].done ==> !op.RestartIce? && !op.StartIce? && !op.EnableTwcc?
    case Destroy(t) => t in s.transports && s.transports[t].done
    case _ => true
  }

  ghost predicate CarefulRuns(s: State, es: seq<Event>)
    decreases |es|
  {
    es == [] || (Possible(s, es[0]) && Careful(s, es[0]) && CarefulRuns(Next(s, es[0]), es[1..]))
  }

  /** Callers that keep to this never leave anything dangling. */
  lemma {:induction false} CarefulNoDangling(s: State, es: seq<Event>)
    requires Inv(s) && CarefulRuns(s, es)
    ensures Runs(s, es) && Inv(After(s, es))
    decreases |es|
  {
    if es != [] {
      assert Disciplined(s, es[0]);
      StepKeeps(s, es[0]);
      CarefulNoDangling(Next(s, es[0]), es[1..]);
    }
  }

  lemma {:induction false} PrefixRuns(s: State, es: seq<Event>, i: int)
    requires Runs(s, es) && 0 <= i <= |es|
    ensures Runs(s, es[..i])
    ensures i < |es| ==> Possible(After(s, es[..i]), es[i])
    decreases |es|
  {
    if i > 0 {
      PrefixRuns(Next(s, es[0]), es[1..], i - 1);
      assert es[..i][1..] == es[1..][..i - 1];
    }
  }

  /** From creation on, every packet handled and every timer fired in a run
      touches a transport that exists and has not been torn down. */
  lemma TouchedWhileOpen(es: seq<Event>, i: int)
    requires Runs(Init, es) && 0 <= i < |es|
    ensures Runs(Init, es[..i])
    ensures var s := After(Init, es[..i]);
            Target(s, es[i]).Some? ==>
              Target(s, es[i]).value in s.transports && !s.transports[Target(s, es[i]).value].done
  {
    PrefixRuns(Init, es, i);
    NoDangling(Init, es[..i]);
    var s := After(Init, es[..i]);
    if Target(s, es[i]).Some? {
      TargetOpen(s, es[i]);
    }
  }

  // ----- after the teardown -----

  /** A torn-down transport stays free of routes and timers through a step
      exactly when the step is not one of these operations on it. */
  lemma ReopenedExactly(s: State, e: Event, t: int)
    requires Inv(s) && Possible(s, e) && t in s.transports && s.transports[t].done
    ensures Clean(Next(s, e), t) <==> !Reopens(s, e, t)
  {
    assert Clean(s, t);
    match e
    case Create(_, _, _, _, _) =>
    case Packet(via, m, memory, h) =>
      TargetOpen(s, e);
      OnPacketKeeps(s, Target(s, e).value, m, memory, h);
      StaysClean(s, Next(s, e), Target(s, e).value, t);
    case Fire(fired, c, h) =>
      TargetOpen(s, e);
      OnTimerKeeps(s, fired, c, h);
      StaysClean(s, Next(s, e), Target(s, e).value, t);
    case Op(u, op) =>
      if u == t {
        OperateReopens(s, t, op);
      } else {
        OperateKeeps(s, u, op);
        StaysClean(s, Next(s, e), u, t);
      }
    case Flag(_) =>
    case Close(u) =>
      TeardownCleans(s, u);
      StaysClean(s, Next(s, e), u, t);
    case Destroy(_) =>
  }

  /** Restarting ICE after the teardown, then destroying: the listener keeps a
      route to a transport that is gone. */
  lemma RestartAfterClose(s: State, t: int, ufrag: int)
    requires Inv(s) && t in s.transports && s.transports[t].done && s.transports[t].selected.None?
    ensures var restart := Op(t, RestartIce(Some(ufrag), true));
            && Possible(s, restart) && Possible(Next(s, restart), Destroy(t))
            && !Matches(Next(Next(s, restart), Destroy(t)))
  {
    var s1 := Next(s, Op(t, RestartIce(Some(ufrag), true)));
    var s2 := Next(s1, Destroy(t));
    assert s2.ufrags[ufrag] == t && t !in s2.transports;
  }

  /** Such a state is reached by creating a transport and closing it. */
  lemma ClosedReached(t: int, ufrag: int)
    ensures var es := [Create(t, ufrag, true, true, true), Flag(t), Close(t)];
            && Runs(Init, es)
            && var s := After(Init, es); t in s.transports && s.transports[t].done && s.transports[t].selected.None?
  {
    var create := Create(t, ufrag, true, true, true);
    var s1 := Next(Init, create);
    var s2 := Next(s1, Flag(t));
    var s3 := Next(s2, Close(t));
    assert Runs(s3, []) && Runs(s2, [Close(t)]) && After(s2, [Close(t)]) == s3;
    assert [Flag(t), Close(t)][1..] == [Close(t)];
    assert Runs(s1, [Flag(t), Close(t)]) && After(s1, [Flag(t), Close(t)]) == s3;
    var es := [create, Flag(t), Close(t)];
    assert es[1..] == [Flag(t), Close(t)];
  }

  /** One thread closes and has raised the flag; a second one destroys before the
      teardown has run, and a route to freed memory stays. */
  lemma DestroyedTooEarly(t: int, ufrag: int)
    ensures var create, flag := Create(t, ufrag, false, false, true), Flag(t);
            && Possible(Init, create) && Possible(Next(Init, create), flag)
            && var s := Next(Next(Init, create), flag);
               Inv(s) && Possible(s, Destroy(t)) && !Matches(Next(s, Destroy(t)))
  {
    var s1 := Next(Init, Create(t, ufrag, false, false, true));
    CreateInv(Init, Create(t, ufrag, false, false, true));
    var s := Next(s1, Flag(t));
    FlagInv(s1, t);
    assert s.ufrags[ufrag] == t;
  }
}
