/** The other direction of the route tables and the timers: what a transport says
    of itself is where the listener and the worker look for it. */
module TransportRoutes {
  import opened Collections
  import opened Transports

  // ----- what a packet does -----

  predicate Answers(tr: Transport, m: Message)
  {
    m.Response? && tr.txnRegistered && m.txn == tr.txn
  }

  /** The packets that select a remote address. */
  predicate Selects(tr: Transport, m: Message)
  {
    !tr.closed && tr.selected.None? && (m.Request? || Answers(tr, m))
  }

  /** The first request selects its sender for good and routes that address here;
      nothing else changes. */
  lemma RequestSelects(s: State, t: int, from: Address, k: int, h: int)
    requires t in s.transports && !s.transports[t].closed && s.transports[t].selected.None? && from.key == Some(k)
    ensures OnPacket(s, t, Request(from), true, h)
         == s.(transports := s.transports[t := s.transports[t].(selected := Some(from))], tuples := s.tuples[k := t])
  {
  }

  /** So does the response to the check under way, which also ends that check: its
      transaction is no longer routed and its timer no longer pending. */
  lemma ResponseSelects(s: State, t: int, from: Address, k: int, h: int)
    requires t in s.transports && !s.transports[t].closed && s.transports[t].txnRegistered && from.key == Some(k)
    requires s.transports[t].selected.None?
    ensures var tr := s.transports[t];
            var s' := OnPacket(s, t, Response(tr.txn, from), true, h);
            && s'.ufrags == s.ufrags && s'.tuples == s.tuples[k := t] && s'.txns == s.txns - {tr.txn}
            && s'.timers == (if tr.handles.ice == 0 then s.timers else s.timers - {tr.handles.ice})
            && s'.transports == s.transports[t := tr.(selected := Some(from), txnRegistered := false,
                                                      handles := tr.handles.(ice := 0))]
  {
    var tr := s.transports[t];
    var tr1 := tr.(txnRegistered := false);
    var tr2 := tr1.(handles := tr.handles.(ice := 0));
    var s1 := UnregisterTxn(s, t);
    assert s1.transports == s.transports[t := tr1];
    var s2 := Cancel(s1, t, Ice);
    CancelIce(s1, t, tr1, tr2);
    assert s2.transports == s.transports[t := tr2];
    var s3 := Select(s2, t, from, true);
    assert s3.transports == s.transports[t := tr2.(selected := Some(from))];
  }

  lemma CancelIce(s: State, t: int, tr: Transport, tr': Transport)
    requires t in s.transports && tr == s.transports[t] && tr' == tr.(handles := tr.handles.(ice := 0))
    ensures var s' := Cancel(s, t, Ice);
            && s'.transports == s.transports[t := tr'] && s'.ufrags == s.ufrags && s'.txns == s.txns
            && s'.tuples == s.tuples
            && s'.timers == if tr.handles.ice == 0 then s.timers else s.timers - {tr.handles.ice}
  {
  }

  /** Any other STUN packet leaves the selection as it is: a closed transport
      takes no notice at all, a response to something else neither, and later
      requests and responses do not move the address. */
  lemma OthersLeave(s: State, t: int, m: Message, memory: bool, h: int)
    requires t in s.transports && (m.Request? || m.Response?) && !Selects(s.transports[t], m)
    ensures var s' := OnPacket(s, t, m, memory, h);
            && s'.tuples == s.tuples && s'.ufrags == s.ufrags
            && s'.transports.Keys == s.transports.Keys && s'.transports[t].selected == s.transports[t].selected
            && (s.transports[t].closed || !Answers(s.transports[t], m) ==> s' == s)
  {
  }

  /** A check that could be built and sent is waited for: its transaction is routed
      here in place of the one before, and a timer is pending. */
  lemma CheckWaits(s: State, t: int, c: Check, h: int)
    requires t in s.transports && !CheckFails(s.transports[t], c) && s.transports[t].selected.None?
    requires !s.transports[t].closed && h != 0 && s.transports[t].handles.ice == 0
    ensures var tr := s.transports[t];
            var s' := ArmIce(SendCheck(s, t, c), t, h);
            && s'.txns == (if tr.txnRegistered then s.txns - {tr.txn} else s.txns)[c.txn := t]
            && s'.timers == s.timers[h := Timer(t, Ice)] && s'.ufrags == s.ufrags && s'.tuples == s.tuples
            && s'.transports == s.transports[t := tr.(txn := c.txn, txnRegistered := true,
                                                      setup := tr.setup.(checks := tr.setup.checks + 1),
                                                      handles := tr.handles.(ice := h))]
  {
  }

  /** Starting ICE once the remote parameters are set: the check is waited for
      exactly if a remote candidate could be added, now or before. */
  lemma IceStarts(s: State, t: int, ok: bool, c: Check, h: int)
    requires t in s.transports && s.transports[t].setup.full && s.transports[t].selected.None?
    requires !s.transports[t].closed && s.transports[t].handles.ice == 0
    requires c.built && c.memory && c.sent && h != 0 && h !in s.timers
    ensures var s' := Operate(Operate(Operate(s, t, SetRemoteIce), t, AddCandidate(ok)), t, StartIce(c, h));
            && (ok || s.transports[t].setup.remoteCandidate ==>
                  Leads(s'.txns, c.txn, t) && Pending(s', h, t, Ice) && s'.transports[t].txn == c.txn)
            && (!ok && !s.transports[t].setup.remoteCandidate ==> s'.txns == s.txns && s'.timers == s.timers)
  {
    var tr := s.transports[t];
    var s1 := Operate(s, t, SetRemoteIce);
    assert s1.transports[t] == tr.(setup := tr.setup.(remoteIce := true));
    var s2 := Operate(s1, t, AddCandidate(ok));
    var remote := ok || tr.setup.remoteCandidate;
    assert s2.transports[t] == tr.(setup := tr.setup.(remoteIce := true, remoteCandidate := remote));
    if remote {
      CheckWaits(s2, t, c, h);
    }
  }

  // ----- routes -----

  predicate Leads(table: map<int, int>, key: int, t: int)
  {
    key in table && table[key] == t
  }

  predicate Pending(s: State, h: int, t: int, kind: Kind)
  {
    h in s.timers && s.timers[h] == Timer(t, kind)
  }

  predicate HasTuple(tr: Transport)
  {
    !tr.done && tr.selected.Some? && tr.selected.value.key.Some?
  }

  ghost predicate UfragsLead(table: map<int, int>, transports: map<int, Transport>)
  {
    forall t | t in transports && !transports[t].done :: Leads(table, transports[t].ufrag, t)
  }

  ghost predicate TxnsLead(table: map<int, int>, transports: map<int, Transport>)
  {
    forall t | t in transports && transports[t].txnRegistered :: Leads(table, transports[t].txn, t)
  }

  ghost predicate TuplesLead(table: map<int, int>, transports: map<int, Transport>)
  {
    forall t | t in transports && HasTuple(transports[t]) :: Leads(table, transports[t].selected.value.key.value, t)
  }

  /** Until its teardown a transport is found under its fragment, its registered
      transaction and its selected address. */
  ghost predicate Routed(s: State)
  {
    UfragsLead(s.ufrags, s.transports) && TxnsLead(s.txns, s.transports) && TuplesLead(s.tuples, s.transports)
  }

  /** Every handle a transport holds is that of a pending timer of its own. */
  ghost predicate Armed(s: State)
  {
    forall t, kind | t in s.transports && Handle(s.transports[t], kind) != 0 ::
      var h := Handle(s.transports[t], kind); h in s.timers && s.timers[h] == Timer(t, kind)
  }

  /** A new transaction takes the place of another transport's. */
  predicate LosesTxn(s: State, t: int, c: Check)
    requires t in s.transports
  {
    var setup := s.transports[t].setup;
    && setup.remoteIce && setup.remoteCandidate && c.built && c.memory
    && c.txn in s.txns && s.txns[c.txn] != t
  }

  /** The address selected cannot be routed, or is already another transport's. */
  predicate LosesTuple(s: State, t: int, m: Message, memory: bool)
    requires t in s.transports
  {
    && Selects(s.transports[t], m) && m.from.key.Some?
    && (!memory || m.from.key.value in s.tuples)
  }

  /** No new fragment, no memory for its route, or another transport's fragment;
      after the teardown, the old fragment is already another transport's. */
  predicate LosesUfrag(s: State, t: int, ufrag: Option<int>, memory: bool)
    requires t in s.transports
  {
    var tr := s.transports[t];
    && tr.selected.None?
    && if tr.done then tr.ufrag in s.ufrags
       else ufrag.None? || !memory || (ufrag.value in s.ufrags && s.ufrags[ufrag.value] != t)
  }

  /** The steps that take a route away from a transport still open: want of memory
      or of randomness, and keys that two transports share. */
  predicate Loses(s: State, e: Event)
  {
    match e
    case Create(_, ufrag, _, _, memory) => memory && ufrag in s.ufrags
    case Packet(_, m, memory, _) =>
      Target(s, e).Some? && Target(s, e).value in s.transports && LosesTuple(s, Target(s, e).value, m, memory)
    case Fire(fired, c, _) =>
      && Target(s, e).Some? && Target(s, e).value in s.transports && s.timers[fired].kind == Ice
      && var tr := s.transports[Target(s, e).value];
         !tr.closed && tr.selected.None? && tr.setup.checks < 120 && LosesTxn(s, Target(s, e).value, c)
    case Op(t, RestartIce(ufrag, memory)) => t in s.transports && LosesUfrag(s, t, ufrag, memory)
    case Op(t, StartIce(c, _)) =>
      && t in s.transports && s.transports[t].setup.full && s.transports[t].selected.None? && LosesTxn(s, t, c)
    case _ => false
  }

  /** At most fields that no route is looked up by have changed. */
  ghost predicate SameKeys(s: State, s': State, t: int)
  {
    && t in s.transports && t in s'.transports && s'.transports == s.transports[t := s'.transports[t]]
    && s'.ufrags == s.ufrags && s'.txns == s.txns && s'.tuples == s.tuples
    && var tr, tr' := s.transports[t], s'.transports[t];
       && tr'.ufrag == tr.ufrag && tr'.txn == tr.txn && tr'.txnRegistered == tr.txnRegistered
       && tr'.selected == tr.selected && tr'.done == tr.done
  }

  lemma SameTwice(s: State, s1: State, s2: State, t: int)
    requires SameKeys(s, s1, t) && SameKeys(s1, s2, t)
    ensures SameKeys(s, s2, t)
  {
  }

  lemma SetupSame(s: State, t: int, setup: Setup)
    requires t in s.transports
    ensures SameKeys(s, Put(s, t, s.transports[t].(setup := setup)), t)
  {
  }

  lemma ArmSame(s: State, t: int, kind: Kind, h: int)
    requires t in s.transports
    ensures SameKeys(s, Arm(s, t, kind, h), t)
  {
    HandleSet(s.transports[t], kind, h);
  }

  lemma CancelSame(s: State, t: int, kind: Kind)
    requires t in s.transports
    ensures SameKeys(s, Cancel(s, t, kind), t)
  {
    HandleSet(s.transports[t], kind, 0);
  }

  lemma ArmIceSame(s: State, t: int, h: int)
    requires t in s.transports
    ensures SameKeys(s, ArmIce(s, t, h), t)
  {
    ArmSame(s, t, Ice, h);
  }

  lemma ArmDtlsSame(s: State, t: int, h: int)
    requires t in s.transports
    ensures SameKeys(s, ArmDtls(s, t, h), t)
  {
    ArmSame(s, t, Dtls, h);
  }

  lemma TryExportSame(s: State, t: int, keys: bool)
    requires t in s.transports
    ensures SameKeys(s, TryExport(s, t, keys), t)
  {
    var s1, s2 := Cancel(s, t, Dtls), TryExport(s, t, keys);
    CancelSame(s, t, Dtls);
    if s2 != s {
      HandleSet(s.transports[t], Dtls, 0);
      SetupSame(s1, t, s2.transports[t].setup);
      SameTwice(s, s1, s2, t);
    }
  }

  lemma ProgressSame(s: State, t: int, hs: Handshake, h: int, keys: bool)
    requires t in s.transports
    ensures SameKeys(s, Progress(s, t, hs, h, keys), t)
  {
    var s1 := Put(s, t, s.transports[t].(setup := s.transports[t].setup.(handshake := hs)));
    SetupSame(s, t, s1.transports[t].setup);
    var s2 := ArmDtls(s1, t, h);
    ArmDtlsSame(s1, t, h);
    SameTwice(s, s1, s2, t);
    TryExportSame(s2, t, keys);
    SameTwice(s, s2, TryExport(s2, t, keys), t);
  }

  lemma EnableTwccSame(s: State, t: int, memory: bool, h: int)
    requires t in s.transports
    ensures SameKeys(s, Operate(s, t, EnableTwcc(memory, h)), t)
  {
    var tr := s.transports[t];
    var on := Put(s, t, tr.(setup := tr.setup.(twccOn := true)));
    SetupSame(s, t, on.transports[t].setup);
    ArmSame(on, t, Twcc, h);
    SameTwice(s, on, Arm(on, t, Twcc, h), t);
  }

  lemma DisarmSame(s: State, t: int)
    requires t in s.transports
    ensures SameKeys(s, Disarmed(s, t), t)
  {
    var a := Cancel(s, t, Ice);
    CancelSame(s, t, Ice);
    var b := Cancel(a, t, Dtls);
    CancelSame(a, t, Dtls);
    SameTwice(s, a, b, t);
    CancelSame(b, t, Twcc);
    SameTwice(s, b, Cancel(b, t, Twcc), t);
  }

  lemma SameRoutes(s: State, s': State, t: int)
    requires SameKeys(s, s', t)
    ensures Routed(s') <==> Routed(s)
  {
    forall u | u in s.transports
      ensures u in s'.transports && s'.transports[u].ufrag == s.transports[u].ufrag
      ensures s'.transports[u].txn == s.transports[u].txn && s'.transports[u].selected == s.transports[u].selected
      ensures s'.transports[u].txnRegistered == s.transports[u].txnRegistered
      ensures s'.transports[u].done == s.transports[u].done
    {
    }
  }

  lemma SelectRoutes(s: State, t: int, from: Address, memory: bool)
    requires Inv(s) && Routed(s) && t in s.transports && !s.transports[t].done
    ensures Routed(Select(s, t, from, memory))
       <==> !(s.transports[t].selected.None? && from.key.Some? && (!memory || from.key.value in s.tuples))
  {
    var tr, s' := s.transports[t], Select(s, t, from, memory);
    if tr.selected.None? && from.key.Some? {
      var k := from.key.value;
      if !memory {
        assert HasTuple(s'.transports[t]) && !Leads(s'.tuples, k, t);
      } else if k in s.tuples {
        var u := s.tuples[k];
        assert Clean(s, u) ==> false;
        assert HasTuple(s'.transports[u]) && !Leads(s'.tuples, k, u);
      }
    }
  }

  lemma UnregisterTxnRoutes(s: State, t: int)
    requires Matches(s) && Routed(s) && t in s.transports
    ensures Routed(UnregisterTxn(s, t))
  {
  }

  lemma SendCheckRoutes(s: State, t: int, c: Check)
    requires Matches(s) && Routed(s) && t in s.transports
    ensures Routed(SendCheck(s, t, c)) <==> !LosesTxn(s, t, c)
  {
    var s' := SendCheck(s, t, c);
    if LosesTxn(s, t, c) {
      var u := s.txns[c.txn];
      assert s'.transports[u].txnRegistered && !Leads(s'.txns, s'.transports[u].txn, u);
    } else {
      UnregisterTxnRoutes(s, t);
    }
  }

  lemma RestartRoutes(s: State, t: int, ufrag: Option<int>, memory: bool)
    requires Inv(s) && Routed(s) && t in s.transports && Disciplined(s, Op(t, RestartIce(ufrag, memory)))
    ensures Routed(Restart(s, t, ufrag, memory)) <==> !LosesUfrag(s, t, ufrag, memory)
  {
    var tr, s' := s.transports[t], Restart(s, t, ufrag, memory);
    if tr.selected.None? {
      if tr.done {
        if tr.ufrag in s.ufrags {
          var u := s.ufrags[tr.ufrag];
          assert Clean(s, t) && !Clean(s, u);
          assert !s'.transports[u].done && !Leads(s'.ufrags, s'.transports[u].ufrag, u);
        }
      } else if ufrag.None? || !memory {
        assert !s'.transports[t].done && !Leads(s'.ufrags, s'.transports[t].ufrag, t);
      } else if ufrag.value in s.ufrags && s.ufrags[ufrag.value] != t {
        var u := s.ufrags[ufrag.value];
        assert !Clean(s, u);
        assert !s'.transports[u].done && !Leads(s'.ufrags, s'.transports[u].ufrag, u);
      }
    }
  }

  lemma CreateRoutes(s: State, e: Event)
    requires Inv(s) && Routed(s) && e.Create? && Possible(s, e)
    ensures Routed(Next(s, e)) <==> !Loses(s, e)
  {
    var s' := Next(s, e);
    if Loses(s, e) {
      var u := s.ufrags[e.ufrag];
      assert !Clean(s, u);
      assert !s'.transports[u].done && !Leads(s'.ufrags, s'.transports[u].ufrag, u);
    }
  }

  lemma ResponseRoutes(s: State, t: int, txn: int, from: Address, memory: bool)
    requires Inv(s) && Routed(s) && t in s.transports && !s.transports[t].done && s.transports[t].txnRegistered
    ensures Routed(Select(Cancel(UnregisterTxn(s, t), t, Ice), t, from, memory))
       <==> !(s.transports[t].selected.None? && from.key.Some? && (!memory || from.key.value in s.tuples))
  {
    var s1 := UnregisterTxn(s, t);
    UnregisterTxnKeeps(s, t);
    KeepsInv(s, s1, t);
    UnregisterTxnRoutes(s, t);
    var s2 := Cancel(s1, t, Ice);
    CancelKeeps(s1, t, Ice);
    KeepsInv(s1, s2, t);
    CancelSame(s1, t, Ice);
    SameRoutes(s1, s2, t);
    SelectRoutes(s2, t, from, memory);
  }

  lemma ProgressRoutes(s: State, t: int, hs: Handshake, h: int, keys: bool)
    requires Routed(s) && t in s.transports
    ensures Routed(Progress(s, t, hs, h, keys))
  {
    ProgressSame(s, t, hs, h, keys);
    SameRoutes(s, Progress(s, t, hs, h, keys), t);
  }

  lemma PacketRoutes(s: State, e: Event)
    requires Inv(s) && Routed(s) && e.Packet? && Possible(s, e)
    ensures Routed(Next(s, e)) <==> !Loses(s, e)
  {
    TargetOpen(s, e);
    var t := Target(s, e).value;
    match e.m
    case Request(from) => SelectRoutes(s, t, from, e.memory);
    case Response(txn, from) =>
      if Answers(s.transports[t], e.m) {
        ResponseRoutes(s, t, txn, from, e.memory);
      }
    case Record(ok, hs, keys) => ProgressRoutes(s, t, hs, e.h, keys);
    case Media =>
  }

  lemma StartIceRoutes(s: State, t: int, c: Check, h: int)
    requires Matches(s) && Routed(s) && t in s.transports
    ensures Routed(SendCheck(s, t, c)) <==> !LosesTxn(s, t, c)
    ensures Routed(ArmIce(SendCheck(s, t, c), t, h)) <==> !LosesTxn(s, t, c)
  {
    var s1 := SendCheck(s, t, c);
    SendCheckRoutes(s, t, c);
    ArmIceSame(s1, t, h);
    SameRoutes(s1, ArmIce(s1, t, h), t);
  }

  lemma FireRoutes(s: State, e: Event)
    requires Inv(s) && Routed(s) && e.Fire? && Possible(s, e)
    ensures Routed(Next(s, e)) <==> !Loses(s, e)
  {
    TargetOpen(s, e);
    var t, kind := Target(s, e).value, s.timers[e.fired].kind;
    var s1 := Put(s, t, SetHandle(s.transports[t], kind, 0)).(timers := s.timers - {e.fired});
    DropTimerKeeps(s, t, kind, e.fired);
    HandleSet(s.transports[t], kind, 0);
    SameRoutes(s, s1, t);
    match kind
    case Ice => StartIceRoutes(s1, t, e.check, e.h);
    case Dtls =>
      ArmDtlsSame(s1, t, e.h);
      SameRoutes(s1, ArmDtls(s1, t, e.h), t);
    case Twcc =>
      ArmSame(s1, t, Twcc, e.h);
      SameRoutes(s1, Arm(s1, t, Twcc, e.h), t);
  }

  lemma OpRoutes(s: State, e: Event)
    requires Inv(s) && Routed(s) && e.Op? && Possible(s, e) && Disciplined(s, e)
    ensures Routed(Next(s, e)) <==> !Loses(s, e)
  {
    var t, s' := e.t, Next(s, e);
    match e.op
    case RestartIce(ufrag, memory) => RestartRoutes(s, t, ufrag, memory);
    case SetRemoteIce => SameRoutes(s, s', t);
    case AddCandidate(ok) => SameRoutes(s, s', t);
    case StartIce(c, h) => StartIceRoutes(s, t, c, h);
    case StartDtls(ok, hs, keys, h) => ProgressRoutes(s, t, hs, h, keys);
    case EnableTwcc(memory, h) =>
      EnableTwccSame(s, t, memory, h);
      SameRoutes(s, s', t);
  }

  /** The teardown takes the transport's own routes and no other, and its keys. */
  lemma TeardownTakes(s: State, t: int)
    requires t in s.transports
    ensures var tr, s' := s.transports[t], Teardown(s, t);
            && s'.ufrags == s.ufrags - {tr.ufrag} && s'.txns == (if tr.txnRegistered then s.txns - {tr.txn} else s.txns)
            && s'.tuples == (if tr.selected.Some? && tr.selected.value.key.Some?
                             then s.tuples - {tr.selected.value.key.value} else s.tuples)
            && t in s'.transports && s'.transports == s.transports[t := s'.transports[t]]
            && s'.transports[t].done && !s'.transports[t].txnRegistered
            && !s'.transports[t].setup.ready && s'.transports[t].setup.handshake == Shut
  {
    var s1 := Unrouted(s, t);
    UnroutedTakes(s, t);
    var s2 := Untupled(s1, t);
    DisarmSame(s2, t);
    FinishedTakes(s, s2, Disarmed(s2, t), t);
  }

  lemma UnroutedTakes(s: State, t: int)
    requires t in s.transports
    ensures var tr, s' := s.transports[t], Unrouted(s, t);
            && s'.ufrags == s.ufrags - {tr.ufrag} && s'.txns == (if tr.txnRegistered then s.txns - {tr.txn} else s.txns)
            && s'.tuples == s.tuples && s'.transports == s.transports[t := tr.(txnRegistered := false)]
  {
  }

  lemma FinishedTakes(s: State, s2: State, s3: State, t: int)
    requires t in s.transports && s2.transports == s.transports[t := s.transports[t].(txnRegistered := false)]
    requires SameKeys(s2, s3, t)
    ensures var s' := Finished(s3, t);
            && s'.ufrags == s2.ufrags && s'.txns == s2.txns && s'.tuples == s2.tuples
            && s'.transports == s.transports[t := s'.transports[t]]
            && s'.transports[t].done && !s'.transports[t].txnRegistered
            && !s'.transports[t].setup.ready && s'.transports[t].setup.handshake == Shut
  {
  }

  lemma TeardownRoutes(s: State, t: int)
    requires Routed(s) && t in s.transports && !s.transports[t].done
    ensures Routed(Teardown(s, t))
  {
    TeardownTakes(s, t);
    var s' := Teardown(s, t);
    forall u | u in s.transports && u != t
      ensures s'.transports[u] == s.transports[u]
    {
    }
  }

  /** A step leaves every open transport reachable exactly if it does not lose a
      route in one of these ways. */
  lemma StepRoutes(s: State, e: Event)
    requires Inv(s) && Routed(s) && Possible(s, e) && Disciplined(s, e)
    ensures Routed(Next(s, e)) <==> !Loses(s, e)
  {
    match e
    case Create(_, _, _, _, _) => CreateRoutes(s, e);
    case Packet(_, _, _, _) => PacketRoutes(s, e);
    case Fire(_, _, _) => FireRoutes(s, e);
    case Op(_, _) => OpRoutes(s, e);
    case Flag(t) => SameRoutes(s, Next(s, e), t);
    case Close(t) => TeardownRoutes(s, t);
    case Destroy(t) =>
  }

  // ----- timers -----

  ghost predicate SameTimers(s: State, s': State, t: int)
  {
    && t in s.transports && t in s'.transports && s'.transports == s.transports[t := s'.transports[t]]
    && s'.timers == s.timers && s'.transports[t].handles == s.transports[t].handles
  }

  lemma SameArms(s: State, s': State, t: int)
    requires Armed(s) && SameTimers(s, s', t)
    ensures Armed(s')
  {
    forall u, kind | u in s'.transports
      ensures Handle(s'.transports[u], kind) == Handle(s.transports[u], kind)
    {
    }
  }

  lemma ArmArms(s: State, t: int, kind: Kind, h: int)
    requires Armed(s) && t in s.transports && (h != 0 ==> h !in s.timers)
    ensures Armed(Arm(s, t, kind, h))
  {
    HandleSet(s.transports[t], kind, h);
  }

  lemma DropArms(s: State, t: int, kind: Kind, h: int)
    requires Armed(s) && t in s.transports && Handle(s.transports[t], kind) == h
    ensures Armed(Put(s, t, SetHandle(s.transports[t], kind, 0)).(timers := s.timers - {h}))
  {
    HandleSet(s.transports[t], kind, 0);
  }

  lemma CancelArms(s: State, t: int, kind: Kind)
    requires Armed(s) && t in s.transports
    ensures Armed(Cancel(s, t, kind))
  {
    DropArms(s, t, kind, Handle(s.transports[t], kind));
  }

  lemma ArmIceArms(s: State, t: int, h: int)
    requires Armed(s) && t in s.transports && (h != 0 ==> h !in s.timers)
    ensures Armed(ArmIce(s, t, h))
  {
    ArmArms(s, t, Ice, h);
  }

  lemma ArmDtlsArms(s: State, t: int, h: int)
    requires Armed(s) && t in s.transports && (h != 0 ==> h !in s.timers)
    ensures Armed(ArmDtls(s, t, h))
  {
    ArmArms(s, t, Dtls, h);
  }

  lemma ProgressArms(s: State, t: int, hs: Handshake, h: int, keys: bool)
    requires Armed(s) && t in s.transports && (h != 0 ==> h !in s.timers)
    ensures Armed(Progress(s, t, hs, h, keys))
  {
    var s1 := Put(s, t, s.transports[t].(setup := s.transports[t].setup.(handshake := hs)));
    SameArms(s, s1, t);
    var s2 := ArmDtls(s1, t, h);
    ArmDtlsArms(s1, t, h);
    ArmDtlsSame(s1, t, h);
    TryExportArms(s2, t, keys);
  }

  lemma TryExportArms(s: State, t: int, keys: bool)
    requires Armed(s) && t in s.transports
    ensures Armed(TryExport(s, t, keys))
  {
    var s1, s2 := Cancel(s, t, Dtls), TryExport(s, t, keys);
    if s2 != s {
      CancelArms(s, t, Dtls);
      SameArms(s1, s2, t);
    }
  }

  lemma SelectArms(s: State, t: int, from: Address, memory: bool)
    requires Armed(s) && t in s.transports
    ensures Armed(Select(s, t, from, memory))
  {
    SameArms(s, Select(s, t, from, memory), t);
  }

  lemma SendCheckArms(s: State, t: int, c: Check)
    requires Armed(s) && t in s.transports
    ensures Armed(SendCheck(s, t, c)) && t in SendCheck(s, t, c).transports && SendCheck(s, t, c).timers == s.timers
  {
    SameArms(s, SendCheck(s, t, c), t);
  }

  lemma StartIceArms(s: State, t: int, c: Check, h: int)
    requires Armed(s) && t in s.transports && (h != 0 ==> h !in s.timers)
    ensures Armed(SendCheck(s, t, c)) && Armed(ArmIce(SendCheck(s, t, c), t, h))
  {
    SendCheckArms(s, t, c);
    ArmIceArms(SendCheck(s, t, c), t, h);
  }

  lemma PacketArms(s: State, t: int, m: Message, memory: bool, h: int)
    requires Armed(s) && t in s.transports && (h != 0 ==> h !in s.timers)
    ensures Armed(OnPacket(s, t, m, memory, h))
  {
    match m
    case Request(from) => SelectArms(s, t, from, memory);
    case Response(txn, from) =>
      var s1 := UnregisterTxn(s, t);
      SameArms(s, s1, t);
      var s2 := Cancel(s1, t, Ice);
      CancelArms(s1, t, Ice);
      CancelSame(s1, t, Ice);
      SelectArms(s2, t, from, memory);
    case Record(ok, hs, keys) => ProgressArms(s, t, hs, h, keys);
    case Media =>
  }

  lemma FireArms(s: State, e: Event)
    requires Inv(s) && Armed(s) && e.Fire? && Possible(s, e)
    ensures Armed(Next(s, e))
  {
    TargetOpen(s, e);
    var t, kind := Target(s, e).value, s.timers[e.fired].kind;
    var s1 := Put(s, t, SetHandle(s.transports[t], kind, 0)).(timers := s.timers - {e.fired});
    DropArms(s, t, kind, e.fired);
    match kind
    case Ice => StartIceArms(s1, t, e.check, e.h);
    case Dtls => ArmDtlsArms(s1, t, e.h);
    case Twcc => ArmArms(s1, t, Twcc, e.h);
  }

  lemma EnableTwccArms(s: State, t: int, memory: bool, h: int)
    requires Armed(s) && t in s.transports && (h != 0 ==> h !in s.timers)
    ensures Armed(Operate(s, t, EnableTwcc(memory, h)))
  {
    var tr := s.transports[t];
    var on := Put(s, t, tr.(setup := tr.setup.(twccOn := true)));
    SameArms(s, on, t);
    ArmArms(on, t, Twcc, h);
  }

  lemma OpArms(s: State, e: Event)
    requires Armed(s) && e.Op? && Possible(s, e)
    ensures Armed(Next(s, e))
  {
    var t, s' := e.t, Next(s, e);
    match e.op
    case RestartIce(ufrag, memory) => SameArms(s, s', t);
    case SetRemoteIce => SameArms(s, s', t);
    case AddCandidate(ok) => SameArms(s, s', t);
    case StartIce(c, h) => StartIceArms(s, t, c, h);
    case StartDtls(ok, hs, keys, h) => ProgressArms(s, t, hs, h, keys);
    case EnableTwcc(memory, h) => EnableTwccArms(s, t, memory, h);
  }

  lemma TeardownArms(s: State, t: int)
    requires Armed(s) && t in s.transports
    ensures Armed(Teardown(s, t))
  {
    var s0 := Unrouted(s, t);
    SameArms(s, s0, t);
    var s1 := Untupled(s0, t);
    SameArms(s0, s1, t);
    var a := Cancel(s1, t, Ice);
    CancelArms(s1, t, Ice);
    CancelSame(s1, t, Ice);
    var b := Cancel(a, t, Dtls);
    CancelArms(a, t, Dtls);
    CancelSame(a, t, Dtls);
    var c := Cancel(b, t, Twcc);
    CancelArms(b, t, Twcc);
    CancelSame(b, t, Twcc);
    SameArms(c, Finished(c, t), t);
  }

  /** Whatever happens, a transport's handles are those of its pending timers. */
  lemma StepArms(s: State, e: Event)
    requires Inv(s) && Armed(s) && Possible(s, e)
    ensures Armed(Next(s, e))
  {
    match e
    case Create(t, _, _, _, _) =>
    case Packet(_, m, memory, h) =>
      TargetOpen(s, e);
      PacketArms(s, Target(s, e).value, m, memory, h);
    case Fire(_, _, _) => FireArms(s, e);
    case Op(_, _) => OpArms(s, e);
    case Flag(t) => SameArms(s, Next(s, e), t);
    case Close(t) => TeardownArms(s, t);
    case Destroy(t) =>
  }

  // ----- runs -----

  /** No step of the run loses a route. */
  ghost predicate Orderly(s: State, es: seq<Event>)
    requires Runs(s, es)
    decreases |es|
  {
    es == [] || (!Loses(s, es[0]) && Orderly(Next(s, es[0]), es[1..]))
  }

  /** Every open transport is reachable in every state of the run. */
  ghost predicate AlwaysRouted(s: State, es: seq<Event>)
    requires Runs(s, es)
    decreases |es|
  {
    Routed(s) && (es == [] || AlwaysRouted(Next(s, es[0]), es[1..]))
  }

  /** In a run every open transport can be reached all the time exactly if no step
      loses a route. */
  lemma {:induction false} RunRoutes(s: State, es: seq<Event>)
    requires Inv(s) && Routed(s) && Runs(s, es)
    ensures AlwaysRouted(s, es) <==> Orderly(s, es)
    ensures Orderly(s, es) ==> Routed(After(s, es))
    decreases |es|
  {
    if es != [] {
      var s' := Next(s, es[0]);
      StepKeeps(s, es[0]);
      StepRoutes(s, es[0]);
      if Routed(s') {
        RunRoutes(s', es[1..]);
      }
    }
  }

  lemma {:induction false} RunArms(s: State, es: seq<Event>)
    requires Inv(s) && Armed(s) && Runs(s, es)
    ensures Armed(After(s, es))
    decreases |es|
  {
    if es != [] {
      StepKeeps(s, es[0]);
      StepArms(s, es[0]);
      RunArms(Next(s, es[0]), es[1..]);
    }
  }

  /** From creation on: a packet for the fragment, the registered transaction or
      the selected address of a transport not torn down comes to that transport,
      if no step of the run lost a route; and each of its handles is that of a
      timer which, when it fires, runs on it. */
  lemma OpenIsReached(es: seq<Event>, t: int, m: Message, c: Check)
    requires Runs(Init, es) && Orderly(Init, es)
    requires t in After(Init, es).transports && !After(Init, es).transports[t].done
    ensures var s := After(Init, es);
            var tr := s.transports[t];
            && Target(s, Packet(ByUfrag(tr.ufrag), m, true, 0)) == Some(t)
            && (tr.txnRegistered ==> Target(s, Packet(ByTxn(tr.txn), m, true, 0)) == Some(t))
            && (tr.selected.Some? && tr.selected.value.key.Some? ==>
                  Target(s, Packet(ByTuple(tr.selected.value.key.value), m, true, 0)) == Some(t))
            && forall kind | Handle(tr, kind) != 0 :: Target(s, Fire(Handle(tr, kind), c, 0)) == Some(t)
  {
    RunRoutes(Init, es);
    RunArms(Init, es);
  }

  /** Two transports that draw the same fragment: the first can no longer be
      reached under it, though it is open. */
  lemma SharedFragment(t: int, u: int, ufrag: int)
    requires t != u
    ensures var first, second := Create(t, ufrag, false, false, true), Create(u, ufrag, false, false, true);
            && Possible(Init, first) && Possible(Next(Init, first), second)
            && var s := Next(Next(Init, first), second);
               Inv(s) && t in s.transports && !s.transports[t].closed && !Routed(s)
  {
    var first, second := Create(t, ufrag, false, false, true), Create(u, ufrag, false, false, true);
    var s1 := Next(Init, first);
    CreateInv(Init, first);
    CreateInv(s1, second);
    StepRoutes(Init, first);
    StepRoutes(s1, second);
  }
}
