/** Handshakes, feedback and checks of transports: timers that must not stop, and
    nothing without its cause. */
module TransportProgress {
  import opened Transports
  import opened TransportRoutes

  // ----- timers that must not stop -----

  /** An open transport that shakes hands has its retransmission timer pending, and
      one that sends feedback its feedback timer. */
  predicate Ticks(tr: Transport)
  {
    !tr.closed ==> (tr.setup.handshake == Connecting ==> tr.handles.dtls != 0)
                   && (tr.setup.twccOn ==> tr.handles.twcc != 0)
  }

  ghost predicate Ticking(s: State)
  {
    forall t | t in s.transports :: Ticks(s.transports[t])
  }

  /** The handshake goes on, no timer is pending and none could be had. */
  predicate StallsDtls(tr: Transport, hs: Handshake, h: int)
  {
    !tr.closed && hs == Connecting && tr.handles.dtls == 0 && h == 0
  }

  /** The steps that needed a timer and got none. */
  predicate Stalls(s: State, e: Event)
  {
    match e
    case Packet(_, Record(ok, hs, _), _, h) =>
      && Target(s, e).Some? && Target(s, e).value in s.transports
      && ok && StallsDtls(s.transports[Target(s, e).value], hs, h)
    case Fire(fired, _, h) =>
      && Target(s, e).Some? && Target(s, e).value in s.transports && h == 0
      && var tr := s.transports[Target(s, e).value];
         var kind := s.timers[fired].kind;
         !tr.closed && ((kind == Dtls && tr.setup.handshake == Connecting) || (kind == Twcc && tr.setup.twccOn))
    case Op(t, StartDtls(ok, hs, _, h)) =>
      && t in s.transports && ok && s.transports[t].selected.Some? && s.transports[t].setup.handshake != Connected
      && StallsDtls(s.transports[t], hs, h)
    case Op(t, EnableTwcc(memory, h)) =>
      && t in s.transports && h == 0
      && var tr := s.transports[t];
         !tr.closed && tr.setup.mayTwcc && !tr.setup.twccOn && memory && tr.handles.twcc == 0
    case _ => false
  }

  lemma OneTicks(s: State, s': State, t: int)
    requires Ticking(s) && t in s'.transports && s'.transports == s.transports[t := s'.transports[t]]
    ensures Ticking(s') <==> Ticks(s'.transports[t])
  {
  }

  lemma ArmIs(s: State, t: int, kind: Kind, h: int)
    requires t in s.transports
    ensures t in Arm(s, t, kind, h).transports
    ensures Arm(s, t, kind, h).transports[t] == SetHandle(s.transports[t], kind, h)
  {
  }

  lemma CancelIs(s: State, t: int, kind: Kind)
    requires t in s.transports
    ensures t in Cancel(s, t, kind).transports
    ensures Cancel(s, t, kind).transports[t] == SetHandle(s.transports[t], kind, 0)
  {
  }

  lemma ExportIs(s: State, t: int, keys: bool)
    requires t in s.transports
    ensures t in TryExport(s, t, keys).transports
    ensures var tr, tr' := s.transports[t], TryExport(s, t, keys).transports[t];
            && tr'.closed == tr.closed && tr'.setup.twccOn == tr.setup.twccOn && tr'.handles.twcc == tr.handles.twcc
            && (tr'.setup.handshake == Connecting <==> tr.setup.handshake == Connecting)
            && (tr.setup.handshake == Connecting ==> tr'.handles.dtls == tr.handles.dtls)
  {
    CancelIs(s, t, Dtls);
  }

  /** Keys are there exactly if they were before or the handshake has just been
      completed and they could be exported; a failed export fails the handshake. */
  lemma ProgressReady(s: State, t: int, hs: Handshake, h: int, keys: bool)
    requires t in s.transports
    ensures var tr := s.transports[t];
            var s' := Progress(s, t, hs, h, keys);
            && t in s'.transports
            && (s'.transports[t].setup.ready <==> tr.setup.ready || (hs == Connected && keys))
            && (s'.transports[t].setup.handshake == Failed <==>
                  hs == Failed || (hs == Connected && !keys && !tr.setup.ready))
            && (hs == Connected && !tr.setup.ready ==> s'.transports[t].handles.dtls == 0)
  {
    var s1 := Put(s, t, s.transports[t].(setup := s.transports[t].setup.(handshake := hs)));
    ArmIs(s1, t, Dtls, h);
    CancelIs(ArmDtls(s1, t, h), t, Dtls);
  }

  lemma ProgressTicks(s: State, t: int, hs: Handshake, h: int, keys: bool)
    requires t in s.transports && Ticks(s.transports[t])
    ensures t in Progress(s, t, hs, h, keys).transports
    ensures Ticks(Progress(s, t, hs, h, keys).transports[t]) <==> !StallsDtls(s.transports[t], hs, h)
  {
    var s1 := Put(s, t, s.transports[t].(setup := s.transports[t].setup.(handshake := hs)));
    ArmIs(s1, t, Dtls, h);
    ExportIs(ArmDtls(s1, t, h), t, keys);
  }

  lemma SendCheckIs(s: State, t: int, c: Check)
    requires t in s.transports
    ensures t in SendCheck(s, t, c).transports
    ensures var tr, tr' := s.transports[t], SendCheck(s, t, c).transports[t];
            && tr'.closed == tr.closed && tr'.handles == tr.handles
            && tr'.setup.twccOn == tr.setup.twccOn && tr'.setup.handshake == tr.setup.handshake
  {
  }

  lemma SendCheckTicks(s: State, t: int, c: Check, h: int)
    requires t in s.transports && Ticks(s.transports[t])
    ensures var s1 := SendCheck(s, t, c);
            && t in s1.transports && Ticks(s1.transports[t])
            && t in ArmIce(s1, t, h).transports && Ticks(ArmIce(s1, t, h).transports[t])
  {
    SendCheckIs(s, t, c);
    ArmIs(SendCheck(s, t, c), t, Ice, h);
  }

  lemma SelectIs(s: State, t: int, from: Address, memory: bool)
    requires t in s.transports
    ensures t in Select(s, t, from, memory).transports
    ensures var tr, tr' := s.transports[t], Select(s, t, from, memory).transports[t];
            tr'.closed == tr.closed && tr'.handles == tr.handles && tr'.setup == tr.setup
  {
  }

  lemma UnregisterTxnIs(s: State, t: int)
    requires t in s.transports
    ensures t in UnregisterTxn(s, t).transports
    ensures UnregisterTxn(s, t).transports[t] == s.transports[t].(txnRegistered := false)
  {
  }

  lemma ResponseTicks(s: State, t: int, from: Address, memory: bool)
    requires t in s.transports && Ticks(s.transports[t])
    ensures var s' := Select(Cancel(UnregisterTxn(s, t), t, Ice), t, from, memory);
            t in s'.transports && Ticks(s'.transports[t])
  {
    var s1 := UnregisterTxn(s, t);
    UnregisterTxnIs(s, t);
    CancelIs(s1, t, Ice);
    SelectIs(Cancel(s1, t, Ice), t, from, memory);
  }

  lemma OnPacketTicks(s: State, t: int, m: Message, memory: bool, h: int)
    requires t in s.transports && Ticks(s.transports[t])
    ensures var s' := OnPacket(s, t, m, memory, h);
            && t in s'.transports
            && (Ticks(s'.transports[t]) <==> !(m.Record? && m.ok && StallsDtls(s.transports[t], m.hs, h)))
  {
    match m
    case Request(from) => SelectIs(s, t, from, memory);
    case Response(txn, from) => ResponseTicks(s, t, from, memory);
    case Record(ok, hs, keys) => ProgressTicks(s, t, hs, h, keys);
    case Media =>
  }

  lemma PacketTicks(s: State, e: Event)
    requires Inv(s) && Ticking(s) && e.Packet? && Possible(s, e)
    ensures Ticking(Next(s, e)) <==> !Stalls(s, e)
  {
    TargetOpen(s, e);
    var t := Target(s, e).value;
    OnPacketKeeps(s, t, e.m, e.memory, e.h);
    OneTicks(s, Next(s, e), t);
    OnPacketTicks(s, t, e.m, e.memory, e.h);
  }

  lemma OnTimerTicks(s: State, t: int, kind: Kind, c: Check, h: int)
    requires t in s.transports && Ticks(s.transports[t])
    ensures var s' := OnTimer(s, t, kind, c, h);
            && t in s'.transports
            && (Ticks(s'.transports[t]) <==>
                  var tr := s.transports[t];
                  !(h == 0 && !tr.closed && ((kind == Dtls && tr.setup.handshake == Connecting)
                                             || (kind == Twcc && tr.setup.twccOn))))
  {
    var s1 := Put(s, t, SetHandle(s.transports[t], kind, 0));
    match kind
    case Ice => SendCheckTicks(s1, t, c, h);
    case Dtls => ArmIs(s1, t, Dtls, h);
    case Twcc => ArmIs(s1, t, Twcc, h);
  }

  lemma FireTicks(s: State, e: Event)
    requires Inv(s) && Ticking(s) && e.Fire? && Possible(s, e)
    ensures Ticking(Next(s, e)) <==> !Stalls(s, e)
  {
    TargetOpen(s, e);
    var timer := s.timers[e.fired];
    OnTimerKeeps(s, e.fired, e.check, e.h);
    OneTicks(s, Next(s, e), timer.owner);
    OnTimerTicks(s.(timers := s.timers - {e.fired}), timer.owner, timer.kind, e.check, e.h);
  }

  lemma OpTicks(s: State, e: Event)
    requires Inv(s) && Ticking(s) && e.Op? && Possible(s, e)
    ensures Ticking(Next(s, e)) <==> !Stalls(s, e)
  {
    var t, s' := e.t, Next(s, e);
    OperateKeeps(s, t, e.op);
    OneTicks(s, s', t);
    match e.op
    case RestartIce(ufrag, memory) =>
    case SetRemoteIce =>
    case AddCandidate(ok) =>
    case StartIce(c, h) => SendCheckTicks(s, t, c, h);
    case StartDtls(ok, hs, keys, h) => ProgressTicks(s, t, hs, h, keys);
    case EnableTwcc(memory, h) =>
  }

  /** Retransmission and feedback go on through a step exactly if no timer that
      was needed was refused. */
  lemma StepTicks(s: State, e: Event)
    requires Inv(s) && Ticking(s) && Possible(s, e)
    ensures Ticking(Next(s, e)) <==> !Stalls(s, e)
  {
    match e
    case Create(t, _, _, _, _) =>
    case Packet(_, _, _, _) => PacketTicks(s, e);
    case Fire(_, _, _) => FireTicks(s, e);
    case Op(_, _) => OpTicks(s, e);
    case Flag(t) => OneTicks(s, Next(s, e), t);
    case Close(t) => TeardownCleans(s, t);
    case Destroy(t) =>
  }

  ghost predicate Unstalled(s: State, es: seq<Event>)
    requires Runs(s, es)
    decreases |es|
  {
    es == [] || (!Stalls(s, es[0]) && Unstalled(Next(s, es[0]), es[1..]))
  }

  /** In a run in which no timer is refused, an open transport whose handshake is
      under way always has a timer pending that will retransmit, and one that
      sends feedback a timer that will send the next. */
  lemma {:induction false} RunTicks(s: State, es: seq<Event>, t: int)
    requires Inv(s) && Armed(s) && Ticking(s) && Runs(s, es) && Unstalled(s, es)
    requires t in After(s, es).transports && !After(s, es).transports[t].closed
    ensures var s' := After(s, es);
            var tr := s'.transports[t];
            && (tr.setup.handshake == Connecting ==> Pending(s', tr.handles.dtls, t, Dtls))
            && (tr.setup.twccOn ==> Pending(s', tr.handles.twcc, t, Twcc))
    decreases |es|
  {
    if es == [] {
      var tr := s.transports[t];
      assert Ticks(tr) && Handle(tr, Dtls) == tr.handles.dtls && Handle(tr, Twcc) == tr.handles.twcc;
    } else {
      StepKeeps(s, es[0]);
      StepArms(s, es[0]);
      StepTicks(s, es[0]);
      RunTicks(Next(s, es[0]), es[1..], t);
    }
  }

  // ----- nothing without its cause -----

  /** The causes a run is taken to be without: a handshake completed with keys,
      remote ICE parameters, a remote candidate, feedback asked for. */
  datatype Causes = Causes(keys: bool, parameters: bool, candidate: bool, feedback: bool)

  predicate Without(e: Event, c: Causes)
  {
    match e
    case Packet(_, Record(ok, hs, keys), _, _) => c.keys ==> !(ok && hs == Connected && keys)
    case Op(_, StartDtls(ok, hs, keys, _)) => c.keys ==> !(ok && hs == Connected && keys)
    case Op(_, SetRemoteIce) => !c.parameters
    case Op(_, AddCandidate(ok)) => c.candidate ==> !ok
    case Op(_, EnableTwcc(_, _)) => !c.feedback
    case _ => true
  }

  predicate Uncaused(tr: Transport, c: Causes)
  {
    && (c.keys ==> !tr.setup.ready) && (c.parameters ==> !tr.setup.remoteIce)
    && (c.candidate ==> !tr.setup.remoteCandidate) && (c.feedback ==> !tr.setup.twccOn)
    && (c.parameters || c.candidate ==> !tr.txnRegistered)
  }

  ghost predicate AllUncaused(s: State, c: Causes)
  {
    forall t | t in s.transports :: Uncaused(s.transports[t], c)
  }

  lemma OneUncaused(s: State, s': State, t: int, c: Causes)
    requires AllUncaused(s, c) && t in s'.transports && s'.transports == s.transports[t := s'.transports[t]]
    requires Uncaused(s'.transports[t], c)
    ensures AllUncaused(s', c)
  {
  }

  lemma ProgressUncaused(s: State, t: int, hs: Handshake, h: int, keys: bool, c: Causes)
    requires t in s.transports && Uncaused(s.transports[t], c) && (c.keys ==> !(hs == Connected && keys))
    ensures var s' := Progress(s, t, hs, h, keys); t in s'.transports && Uncaused(s'.transports[t], c)
  {
    var s1 := Put(s, t, s.transports[t].(setup := s.transports[t].setup.(handshake := hs)));
    ArmIs(s1, t, Dtls, h);
    CancelIs(ArmDtls(s1, t, h), t, Dtls);
  }

  lemma SendCheckUncaused(s: State, t: int, check: Check, h: int, c: Causes)
    requires t in s.transports && Uncaused(s.transports[t], c)
    ensures var s' := SendCheck(s, t, check);
            && t in s'.transports && Uncaused(s'.transports[t], c)
            && t in ArmIce(s', t, h).transports && Uncaused(ArmIce(s', t, h).transports[t], c)
  {
    var tr, s' := s.transports[t], SendCheck(s, t, check);
    if tr.setup.remoteIce && tr.setup.remoteCandidate && check.built {
      assert s'.transports[t].setup == tr.setup.(checks := s'.transports[t].setup.checks);
    }
    ArmIs(s', t, Ice, h);
  }

  lemma PacketUncaused(s: State, t: int, m: Message, memory: bool, h: int, c: Causes)
    requires t in s.transports && Uncaused(s.transports[t], c)
    requires m.Record? && c.keys ==> !(m.ok && m.hs == Connected && m.keys)
    ensures var s' := OnPacket(s, t, m, memory, h); t in s'.transports && Uncaused(s'.transports[t], c)
  {
    match m
    case Request(from) => SelectUncaused(s, t, from, memory, c);
    case Response(txn, from) =>
      var s1 := UnregisterTxn(s, t);
      UnregisterTxnIs(s, t);
      CancelIs(s1, t, Ice);
      SelectUncaused(Cancel(s1, t, Ice), t, from, memory, c);
    case Record(ok, hs, keys) =>
      if ok {
        ProgressUncaused(s, t, hs, h, keys, c);
      }
    case Media =>
  }

  lemma SelectUncaused(s: State, t: int, from: Address, memory: bool, c: Causes)
    requires t in s.transports && Uncaused(s.transports[t], c)
    ensures var s' := Select(s, t, from, memory); t in s'.transports && Uncaused(s'.transports[t], c)
  {
  }

  lemma TimerUncaused(s: State, t: int, kind: Kind, check: Check, h: int, c: Causes)
    requires t in s.transports && Uncaused(s.transports[t], c)
    ensures var s' := OnTimer(s, t, kind, check, h); t in s'.transports && Uncaused(s'.transports[t], c)
  {
    var s1 := Put(s, t, SetHandle(s.transports[t], kind, 0));
    match kind
    case Ice => SendCheckUncaused(s1, t, check, h, c);
    case Dtls => ArmIs(s1, t, Dtls, h);
    case Twcc => ArmIs(s1, t, Twcc, h);
  }

  lemma OpUncaused(s: State, t: int, op: Control, c: Causes)
    requires t in s.transports && Uncaused(s.transports[t], c) && Without(Op(t, op), c)
    ensures var s' := Operate(s, t, op); t in s'.transports && Uncaused(s'.transports[t], c)
  {
    match op
    case RestartIce(ufrag, memory) =>
    case SetRemoteIce =>
    case AddCandidate(ok) =>
    case StartIce(check, h) => SendCheckUncaused(s, t, check, h, c);
    case StartDtls(ok, hs, keys, h) =>
      if ok {
        ProgressUncaused(s, t, hs, h, keys, c);
      }
    case EnableTwcc(memory, h) =>
  }

  lemma StepUncaused(s: State, e: Event, c: Causes)
    requires Inv(s) && AllUncaused(s, c) && Possible(s, e) && Without(e, c)
    ensures AllUncaused(Next(s, e), c)
  {
    match e
    case Create(t, _, _, _, _) =>
    case Packet(_, m, memory, h) =>
      TargetOpen(s, e);
      var t := Target(s, e).value;
      OnPacketKeeps(s, t, m, memory, h);
      PacketUncaused(s, t, m, memory, h, c);
      OneUncaused(s, Next(s, e), t, c);
    case Fire(fired, check, h) =>
      TargetOpen(s, e);
      var timer := s.timers[fired];
      OnTimerKeeps(s, fired, check, h);
      TimerUncaused(s.(timers := s.timers - {fired}), timer.owner, timer.kind, check, h, c);
      OneUncaused(s, Next(s, e), timer.owner, c);
    case Op(t, op) =>
      OperateKeeps(s, t, op);
      OpUncaused(s, t, op, c);
      OneUncaused(s, Next(s, e), t, c);
    case Flag(t) => OneUncaused(s, Next(s, e), t, c);
    case Close(t) => CloseUncaused(s, t, c);
    case Destroy(t) =>
  }

  lemma CloseUncaused(s: State, t: int, c: Causes)
    requires AllUncaused(s, c) && t in s.transports
    ensures AllUncaused(Teardown(s, t), c)
  {
    var s1 := Unrouted(s, t);
    UnroutedTakes(s, t);
    var s2 := Untupled(s1, t);
    var a := Cancel(s2, t, Ice);
    CancelIs(s2, t, Ice);
    var b := Cancel(a, t, Dtls);
    CancelIs(a, t, Dtls);
    CancelIs(b, t, Twcc);
    DisarmSame(s2, t);
    FinishedTakes(s, s2, Disarmed(s2, t), t);
    OneUncaused(s, Teardown(s, t), t, c);
  }

  ghost predicate RunsWithout(s: State, es: seq<Event>, c: Causes)
    requires Runs(s, es)
    decreases |es|
  {
    es == [] || (Without(es[0], c) && RunsWithout(Next(s, es[0]), es[1..], c))
  }

  lemma {:induction false} RunUncaused(s: State, es: seq<Event>, c: Causes)
    requires Inv(s) && AllUncaused(s, c) && Runs(s, es) && RunsWithout(s, es, c)
    ensures Inv(After(s, es)) && AllUncaused(After(s, es), c)
    decreases |es|
  {
    if es != [] {
      StepKeeps(s, es[0]);
      StepUncaused(s, es[0], c);
      RunUncaused(Next(s, es[0]), es[1..], c);
    }
  }

  /** In every run from the start: no transport has keys unless a handshake was
      completed with them, none sends feedback unless asked to, and no transaction
      is routed unless remote parameters and a remote candidate were given. */
  lemma EffectsHaveCauses(es: seq<Event>, c: Causes)
    requires Runs(Init, es) && RunsWithout(Init, es, c)
    ensures var s := After(Init, es);
            && (forall t | t in s.transports && c.keys :: !s.transports[t].setup.ready)
            && (forall t | t in s.transports && c.feedback :: !s.transports[t].setup.twccOn)
            && (forall k | k in s.txns :: !c.parameters && !c.candidate)
  {
    RunUncaused(Init, es, c);
    var s := After(Init, es);
    assert forall t | t in s.transports :: Uncaused(s.transports[t], c);
    assert forall k | k in s.txns :: s.txns[k] in s.transports && s.transports[s.txns[k]].txnRegistered;
  }
}
