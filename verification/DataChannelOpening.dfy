/** How a data channel comes to be open at both ends, and how it is closed. */
module DataChannelOpening {
  import opened Bytes
  import opened Collections
  import opened DataChannels

  // ----- what connecting sends -----

  ghost predicate Distinct(order: seq<int>)
  {
    forall i, j | 0 <= i < j < |order| :: order[i] != order[j]
  }

  /** A channel of this end's own making that waits for the other end. */
  predicate Waits(mgr: Manager, id: int)
  {
    id in mgr.channels && mgr.channels[id].local && mgr.channels[id].status == Connecting
  }

  lemma {:induction false} OpeningsExactly(mgr: Manager, order: seq<int>, id: int)
    requires Distinct(order)
    ensures Only(Openings(mgr, order), id)
         == if id in order && Waits(mgr, id) then [Message(id, Open, mgr.channels[id].name)] else []
  {
    if order != [] {
      OpeningsExactly(mgr, order[1..], id);
      OpeningsFirst(mgr, order, id);
      assert order == [order[0]] + order[1..];
    }
  }

  lemma OpeningsFirst(mgr: Manager, order: seq<int>, id: int)
    requires order != []
    ensures Only(Openings(mgr, order), id)
         == (if order[0] == id && Waits(mgr, id) then [Message(id, Open, mgr.channels[id].name)] else [])
            + Only(Openings(mgr, order[1..]), id)
  {
    var rest := Openings(mgr, order[1..]);
    if Waits(mgr, order[0]) {
      assert Openings(mgr, order)[1..] == rest;
    }
  }

  /** On connecting, every channel met once: exactly one OPEN with its label for
      each channel of this end that waits, and nothing for any other. */
  lemma ConnectOpens(mgr: Manager, order: seq<int>, id: int)
    requires Distinct(order) && forall k | k in mgr.channels :: k in order
    ensures Connect(mgr, order).mgr == mgr.(connected := true)
    ensures Only(Connect(mgr, order).out, id)
         == if Waits(mgr, id) then [Message(id, Open, mgr.channels[id].name)] else []
  {
    OpeningsExactly(mgr, order, id);
  }

  lemma {:induction false} OpeningsAny(mgr: Manager, order: seq<int>, id: int)
    ensures var only := Only(Openings(mgr, order), id);
            && (id in order && Waits(mgr, id) <==> only != [])
            && forall i | 0 <= i < |only| :: only[i].kind == Open
  {
    if order != [] {
      OpeningsAny(mgr, order[1..], id);
      OpeningsFirst(mgr, order, id);
      assert order == [order[0]] + order[1..];
    }
  }

  /** A payload goes out exactly if the channel is open and its length fits 16 bits;
      then once, and counted. */
  lemma SendsExactly(mgr: Manager, id: int, payload: seq<int>)
    ensures var o := Send(mgr, id, payload);
            if IsOpen(Get(mgr, id)) && |payload| < 0x1_0000
            then o.out == [Message(id, Data, payload)] && Sent(Get(o.mgr, id)) == Sent(Get(mgr, id)) + [payload]
                 && o.mgr.channels[id].bytesSent == mgr.channels[id].bytesSent + |payload|
            else o == Outcome(mgr, [])
  {
  }

  /** Channels that ask for no id get the next even number each, as long as 16 of
      them are not in use. */
  lemma AutomaticIds(mgr: Manager, text: seq<int>, more: seq<int>)
    requires |mgr.channels| < MAX_CHANNELS - 1 && 0 <= mgr.nextId < 0xFFFE
    ensures var o := Create(mgr, None, text, true);
            var p := Create(o.mgr, None, more, true);
            && Waits(o.mgr, mgr.nextId) && Waits(p.mgr, mgr.nextId) && Waits(p.mgr, mgr.nextId + 2)
            && p.mgr.channels[mgr.nextId].name == Label(text) && p.mgr.channels[mgr.nextId + 2].name == Label(more)
  {
    var o := Create(mgr, None, text, true);
    assert |o.mgr.channels| <= |mgr.channels| + 1;
  }

  // ----- one id, seen from the world -----

  /** What a step of the end that acts does to an id: its own channel, what it
      adds to the outgoing messages and what is left of the incoming ones. */
  lemma StepAtId(w: World, e: Event, id: int)
    requires Inv(w) && Enabled(w, e)
    ensures var w' := Next(w, e);
            && Inv(w')
            && if e.left then
                 var o := Act(w.a, w.ba, e.act);
                 && w'.a == o.mgr && w'.b == w.b && Flow(w'.ab, id) == Flow(w.ab, id) + Only(o.out, id)
                 && w'.ba == Rest(w.ba, e.act)
               else
                 var o := Act(w.b, w.ab, e.act);
                 && w'.b == o.mgr && w'.a == w.a && Flow(w'.ba, id) == Flow(w.ba, id) + Only(o.out, id)
                 && w'.ab == Rest(w.ab, e.act)
  {
    StepKeeps(w, e);
    if e.left {
      ActSendable(w.a, w.ba, e.act);
      FlowAppend(w.ab, Act(w.a, w.ba, e.act).out, id);
    } else {
      ActSendable(w.b, w.ab, e.act);
      FlowAppend(w.ba, Act(w.b, w.ab, e.act).out, id);
    }
  }

  // ----- opening -----

  ghost predicate HasOpen(q: seq<Message>)
  {
    exists i :: 0 <= i < |q| && q[i].kind == Open
  }

  /** If x waits and its end is connected, an OPEN is on its way to the other end
      or something that opens x is on its way back; an end that is not connected
      has sent no OPEN. */
  ghost predicate Promised(x: Option<Channel>, connected: bool, q: seq<Message>, r: seq<Message>)
  {
    && (x.Some? && x.value.local && x.value.status == Connecting && connected ==> HasOpen(q) || HasOpener(r))
    && (HasOpen(q) ==> connected)
  }

  lemma OpenAppend(q: seq<Message>, out: seq<Message>)
    ensures HasOpen(q + out) <==> HasOpen(q) || HasOpen(out)
    ensures HasOpener(q + out) <==> HasOpener(q) || HasOpener(out)
  {
    forall i | 0 <= i < |q| + |out|
      ensures (q + out)[i] == if i < |q| then q[i] else out[i - |q|]
    {
    }
    if HasOpen(q) {
      var i :| 0 <= i < |q| && q[i].kind == Open;
      assert (q + out)[i].kind == Open;
    }
    if HasOpen(out) {
      var i :| 0 <= i < |out| && out[i].kind == Open;
      assert (q + out)[|q| + i].kind == Open;
    }
    if HasOpener(q) {
      var i :| 0 <= i < |q| && Opener(q[i]);
      assert Opener((q + out)[i]);
    }
    if HasOpener(out) {
      var i :| 0 <= i < |out| && Opener(out[i]);
      assert Opener((q + out)[|q| + i]);
    }
  }

  lemma OpenRest(r: seq<Message>)
    requires r != []
    ensures HasOpen(r) <==> r[0].kind == Open || HasOpen(r[1..])
    ensures HasOpener(r) <==> Opener(r[0]) || HasOpener(r[1..])
  {
    assert r == [r[0]] + r[1..];
    OpenAppend([r[0]], r[1..]);
    assert [r[0]][0] == r[0];
    assert HasOpen([r[0]]) <==> r[0].kind == Open;
    assert HasOpener([r[0]]) <==> Opener(r[0]);
  }

  /** An OPEN that there is no room or no memory for. */
  predicate Refuses(mgr: Manager, m: Message, memory: bool)
  {
    m.kind == Open && m.id !in mgr.channels && (|mgr.channels| >= MAX_CHANNELS || !memory)
  }

  /** Handling the first incoming message m for its id keeps both promises, unless
      it refuses the only OPEN. */
  lemma HandlePromises(mgr: Manager, y: Option<Channel>, yc: bool, q: seq<Message>, r: seq<Message>, m: Message,
                       memory: bool)
    requires r != [] && m == r[0] && Both(Get(mgr, m.id), y, q, r)
    requires Promised(Get(mgr, m.id), mgr.connected, q, r) && Promised(y, yc, r, q)
    ensures var o := Handle(mgr, m, memory);
            var q' := q + Only(o.out, m.id);
            && Promised(Get(o.mgr, m.id), o.mgr.connected, q', r[1..])
            && (Promised(y, yc, r[1..], q') <==> !(Refuses(mgr, m, memory) && !HasOpen(r[1..])))
  {
    var o := Handle(mgr, m, memory);
    OnlyOne(Message(m.id, Ack, []), m.id);
    OpenAppend(q, Only(o.out, m.id));
    OpenRest(r);
    assert Justified(y, r[0]);
    assert HasOpener([Message(m.id, Ack, [])]) by {
      assert Opener([Message(m.id, Ack, [])][0]);
    }
    if Refuses(mgr, m, memory) {
      assert forall i | 0 <= i < |q| :: Justified(None, q[i]);
    }
  }

  /** The actions after which a channel can wait for ever: connecting without
      meeting it, and refusing the only OPEN that is under way. */
  ghost predicate Strands(mgr: Manager, link: seq<seq<int>>, act: Action, q: seq<Message>, id: int)
    requires Possible(mgr, link, act)
  {
    match act
    case DoConnect(order) => Waits(mgr, id) && id !in order && !HasOpen(q) && !HasOpener(Flow(link, id))
    case DoReceive(memory) =>
      var m := Decode(link[0]);
      m.Some? && m.value.id == id && Refuses(mgr, m.value, memory) && !HasOpen(Flow(link[1..], id))
    case _ => false
  }

  lemma FirstOf(link: seq<seq<int>>, id: int)
    requires Frames(link) && link != []
    ensures var m := Decode(link[0]);
            var mine := m.Some? && m.value.id == id;
            && (mine ==> Flow(link, id) != [] && Flow(link, id)[0] == m.value
                         && Flow(link, id)[1..] == Flow(link[1..], id))
            && (!mine ==> Flow(link, id) == Flow(link[1..], id))
  {
  }

  /** A frame that is not for this id. */
  lemma ReceiveOther(mgr: Manager, frame: seq<int>, memory: bool, q: seq<Message>, id: int)
    requires AreBytes(frame) && !(Decode(frame).Some? && Decode(frame).value.id == id)
    ensures var o := Receive(mgr, frame, memory);
            Get(o.mgr, id) == Get(mgr, id) && o.mgr.connected == mgr.connected && q + Only(o.out, id) == q
  {
    assert q + [] == q;
    if Decode(frame).Some? {
      HandleOther(mgr, Decode(frame).value, memory, id);
    }
  }

  lemma ReceivePromises(mgr: Manager, y: Option<Channel>, yc: bool, q: seq<Message>, link: seq<seq<int>>,
                        memory: bool, id: int)
    requires Possible(mgr, link, DoReceive(memory)) && Both(Get(mgr, id), y, q, Flow(link, id))
    requires Promised(Get(mgr, id), mgr.connected, q, Flow(link, id)) && Promised(y, yc, Flow(link, id), q)
    ensures var o := Receive(mgr, link[0], memory);
            var q', r' := q + Only(o.out, id), Flow(link[1..], id);
            Promised(Get(o.mgr, id), o.mgr.connected, q', r') && Promised(y, yc, r', q')
            <==> !Strands(mgr, link, DoReceive(memory), q, id)
  {
    var m, r := Decode(link[0]), Flow(link, id);
    FirstOf(link, id);
    if m.Some? && m.value.id == id {
      HandlePromises(mgr, y, yc, q, r, m.value, memory);
    } else {
      ReceiveOther(mgr, link[0], memory, q, id);
    }
  }

  lemma ConnectPromises(mgr: Manager, y: Option<Channel>, yc: bool, q: seq<Message>, link: seq<seq<int>>,
                        order: seq<int>, id: int)
    requires Possible(mgr, link, DoConnect(order))
    requires Promised(Get(mgr, id), mgr.connected, q, Flow(link, id)) && Promised(y, yc, Flow(link, id), q)
    ensures var q', r := q + Only(Openings(mgr, order), id), Flow(link, id);
            Promised(Get(mgr, id), true, q', r) && Promised(y, yc, r, q')
            <==> !Strands(mgr, link, DoConnect(order), q, id)
  {
    var only := Only(Openings(mgr, order), id);
    OpeningsAny(mgr, order, id);
    OpenAppend(q, only);
    if only != [] {
      assert only[0].kind == Open && Opener(only[0]);
    }
  }

  lemma CreatePromises(mgr: Manager, y: Option<Channel>, yc: bool, q: seq<Message>, r: seq<Message>,
                       asked: Option<int>, text: seq<int>, memory: bool, id: int)
    requires Promised(Get(mgr, id), mgr.connected, q, r) && Promised(y, yc, r, q)
    ensures var o := Create(mgr, asked, text, memory);
            var q' := q + Only(o.out, id);
            Promised(Get(o.mgr, id), o.mgr.connected, q', r) && Promised(y, yc, r, q')
  {
    var o := Create(mgr, asked, text, memory);
    var open := Message(ChannelId(mgr, asked), Open, Label(text));
    OnlyOne(open, id);
    OpenAppend(q, Only(o.out, id));
    assert HasOpen([open]) by {
      assert [open][0].kind == Open;
    }
  }

  lemma SendPromises(mgr: Manager, y: Option<Channel>, yc: bool, q: seq<Message>, r: seq<Message>, i: int,
                     payload: seq<int>, id: int)
    requires Promised(Get(mgr, id), mgr.connected, q, r) && Promised(y, yc, r, q)
    ensures var o := Send(mgr, i, payload);
            var q' := q + Only(o.out, id);
            Promised(Get(o.mgr, id), o.mgr.connected, q', r) && Promised(y, yc, r, q')
  {
    var o := Send(mgr, i, payload);
    OnlyOne(Message(i, Data, payload), id);
    OpenAppend(q, Only(o.out, id));
  }

  /** Whatever an end does with an id that it does not break, the channel stays
      promised to both ends exactly if it is not stranded. */
  lemma ActPromises(mgr: Manager, y: Option<Channel>, yc: bool, q: seq<Message>, link: seq<seq<int>>, act: Action,
                    id: int)
    requires Possible(mgr, link, act) && Both(Get(mgr, id), y, q, Flow(link, id)) && act != DoShut(id)
    requires Promised(Get(mgr, id), mgr.connected, q, Flow(link, id)) && Promised(y, yc, Flow(link, id), q)
    ensures var o := Act(mgr, link, act);
            var q', r' := q + Only(o.out, id), Flow(Rest(link, act), id);
            Promised(Get(o.mgr, id), o.mgr.connected, q', r') && Promised(y, yc, r', q')
            <==> !Strands(mgr, link, act, q, id)
  {
    match act
    case DoCreate(asked, text, memory) => CreatePromises(mgr, y, yc, q, Flow(link, id), asked, text, memory, id);
    case DoConnect(order) => ConnectPromises(mgr, y, yc, q, link, order, id);
    case DoSend(i, payload) => SendPromises(mgr, y, yc, q, Flow(link, id), i, payload, id);
    case DoShut(i) => ShutOther(mgr, q, i, id);
    case DoReceive(memory) => ReceivePromises(mgr, y, yc, q, link, memory, id);
  }

  // ----- runs -----

  ghost predicate BothPromised(w: World, id: int)
    requires Frames(w.ab) && Frames(w.ba)
  {
    && Promised(Get(w.a, id), w.a.connected, Flow(w.ab, id), Flow(w.ba, id))
    && Promised(Get(w.b, id), w.b.connected, Flow(w.ba, id), Flow(w.ab, id))
  }

  ghost predicate StepStrands(w: World, e: Event, id: int)
    requires Enabled(w, e)
  {
    if e.left then Strands(w.a, w.ba, e.act, Flow(w.ab, id), id) else Strands(w.b, w.ab, e.act, Flow(w.ba, id), id)
  }

  lemma StepPromises(w: World, e: Event, id: int)
    requires Inv(w) && Enabled(w, e) && id !in w.broken && e.act != DoShut(id) && BothPromised(w, id)
    ensures Inv(Next(w, e)) && (BothPromised(Next(w, e), id) <==> !StepStrands(w, e, id))
  {
    StepAtId(w, e, id);
    var x, y, q, r := Get(w.a, id), Get(w.b, id), Flow(w.ab, id), Flow(w.ba, id);
    assert Both(x, y, q, r);
    if e.left {
      ActPromises(w.a, y, w.b.connected, q, w.ba, e.act, id);
    } else {
      BothSides(x, y, q, r);
      ActPromises(w.b, x, w.a.connected, r, w.ab, e.act, id);
    }
  }

  /** No step of the run strands the id. */
  ghost predicate Unstranded(w: World, es: seq<Event>, id: int)
    requires Runs(w, es)
    decreases |es|
  {
    es == [] || (!StepStrands(w, es[0], id) && Unstranded(Next(w, es[0]), es[1..], id))
  }

  lemma {:induction false} BrokenGrows(w: World, es: seq<Event>)
    requires Runs(w, es)
    ensures w.broken <= After(w, es).broken
    decreases |es|
  {
    if es != [] {
      BrokenGrows(Next(w, es[0]), es[1..]);
    }
  }

  lemma {:induction false} RunPromises(w: World, es: seq<Event>, id: int)
    requires Inv(w) && Runs(w, es) && id !in After(w, es).broken && BothPromised(w, id) && Unstranded(w, es, id)
    ensures Inv(After(w, es)) && BothPromised(After(w, es), id)
    decreases |es|
  {
    if es != [] {
      BrokenGrows(w, es);
      BrokenGrows(Next(w, es[0]), es[1..]);
      StepPromises(w, es[0], id);
      RunPromises(Next(w, es[0]), es[1..], id);
    }
  }

  /** x has been created at an end that is connected. */
  ghost predicate Wanted(x: Option<Channel>, connected: bool)
  {
    x.Some? && x.value.local && connected
  }

  ghost predicate BothOpen(x: Option<Channel>, y: Option<Channel>)
  {
    IsOpen(x) && IsOpen(y) && (!y.value.local ==> y.value.name == x.value.name)
  }

  lemma DrainedOpen(x: Option<Channel>, y: Option<Channel>, connected: bool)
    requires Both(x, y, [], []) && Promised(x, connected, [], []) && Wanted(x, connected)
    ensures BothOpen(x, y)
  {
  }

  /** In every run: a channel created at an end that is connected, on an id that
      was neither closed, wrongly created again nor stranded, is open at both ends
      once nothing is under way for it, and has its creator's label at the end
      that did not create it. */
  lemma OpensAtBothEnds(es: seq<Event>, id: int)
    requires Runs(Start, es) && id !in After(Start, es).broken && Unstranded(Start, es, id)
    ensures var w := After(Start, es);
            && Frames(w.ab) && Frames(w.ba)
            && (Flow(w.ab, id) == [] && Flow(w.ba, id) == [] ==>
                  && (Wanted(Get(w.a, id), w.a.connected) ==> BothOpen(Get(w.a, id), Get(w.b, id)))
                  && (Wanted(Get(w.b, id), w.b.connected) ==> BothOpen(Get(w.b, id), Get(w.a, id))))
  {
    StartInv();
    RunPromises(Start, es, id);
    var w := After(Start, es);
    assert Both(Get(w.a, id), Get(w.b, id), Flow(w.ab, id), Flow(w.ba, id));
    BothSides(Get(w.a, id), Get(w.b, id), Flow(w.ab, id), Flow(w.ba, id));
    if Flow(w.ab, id) == [] && Flow(w.ba, id) == [] {
      if Wanted(Get(w.a, id), w.a.connected) {
        DrainedOpen(Get(w.a, id), Get(w.b, id), w.a.connected);
      }
      if Wanted(Get(w.b, id), w.b.connected) {
        DrainedOpen(Get(w.b, id), Get(w.a, id), w.b.connected);
      }
    }
  }

  /** Memory runs out at the other end: nothing is under way any more, and the
      channel waits for ever. */
  lemma StrandedChannel() returns (es: seq<Event>)
    ensures Runs(Start, es) && NobodyCloses(es)
    ensures var w := After(Start, es);
            && At(w, Manager(map[0 := First], 2, true), Start.b, [], []) && Wanted(Get(w.a, 0), w.a.connected)
            && !IsOpen(Get(w.a, 0))
  {
    var m, e := Message(0, Open, []), Event(false, DoReceive(false));
    es := FirstCreated();
    var w := After(Start, es);
    Framed(m);
    assert w.ab[0] == Encode(m) && w.ab[1..] == [];
    assert [] + EncodeAll([]) == [];
    RunStep(w, e, []);
    RunJoin(Start, es, [e]);
    es := es + [e];
  }

  // ----- closing -----

  /** The id is not created again, and no OPEN is sent for it. */
  ghost predicate LeavesBe(mgr: Manager, act: Action, id: int)
  {
    match act
    case DoCreate(asked, _, memory) => !(memory && |mgr.channels| < MAX_CHANNELS && ChannelId(mgr, asked) == id)
    case DoConnect(order) => !(id in order && Waits(mgr, id))
    case _ => true
  }

  /** x has closed the channel; the CLOSE is the last thing under way to y, or y has
      heard it, and no OPEN is under way that could open either end again. */
  ghost predicate Closing(x: Option<Channel>, y: Option<Channel>, q: seq<Message>, r: seq<Message>)
  {
    && x.Some? && x.value.status == Closed && y.Some? && !HasOpen(r)
    && ((q != [] && q[|q| - 1].kind == Close) || (y.value.status == Closed && !HasOpen(q)))
  }

  /** What an end with a closed channel does about the id: nothing, for good. */
  lemma ClosedActs(mgr: Manager, link: seq<seq<int>>, act: Action, q: seq<Message>, id: int)
    requires Possible(mgr, link, act) && LeavesBe(mgr, act, id)
    requires id in mgr.channels && mgr.channels[id].status == Closed && !HasOpen(Flow(link, id))
    ensures var o, r' := Act(mgr, link, act), Flow(Rest(link, act), id);
            Get(o.mgr, id) == Get(mgr, id) && q + Only(o.out, id) == q && !HasOpen(r')
            && (Flow(link, id) == [] ==> r' == [])
  {
    assert q + [] == q;
    match act
    case DoCreate(asked, text, memory) => OnlyOne(Message(ChannelId(mgr, asked), Open, Label(text)), id);
    case DoConnect(order) => OpeningsAny(mgr, order, id);
    case DoSend(i, payload) => OnlyOne(Message(i, Data, payload), id);
    case DoShut(i) => OnlyOne(Message(i, Close, []), id);
    case DoReceive(memory) => ClosedHears(mgr, link, memory, q, id);
  }

  lemma ClosedHears(mgr: Manager, link: seq<seq<int>>, memory: bool, q: seq<Message>, id: int)
    requires Frames(link) && link != [] && id in mgr.channels && mgr.channels[id].status == Closed
    requires !HasOpen(Flow(link, id))
    ensures var o, r' := Receive(mgr, link[0], memory), Flow(link[1..], id);
            Get(o.mgr, id) == Get(mgr, id) && q + Only(o.out, id) == q && !HasOpen(r')
            && (Flow(link, id) == [] ==> r' == [])
  {
    var m := Decode(link[0]);
    FirstOf(link, id);
    assert q + [] == q;
    if m.Some? && m.value.id == id {
      OpenRest(Flow(link, id));
      assert mgr.channels[id].(status := Closed) == mgr.channels[id];
    } else {
      ReceiveOther(mgr, link[0], memory, q, id);
    }
  }

  /** What the other end does keeps the closing under way: it sends no OPEN, and
      ends up closed when it has heard the last message. */
  lemma OtherActs(mgr: Manager, link: seq<seq<int>>, act: Action, x: Option<Channel>, r: seq<Message>, id: int)
    requires Possible(mgr, link, act) && LeavesBe(mgr, act, id)
    requires Closing(x, Get(mgr, id), Flow(link, id), r)
    ensures var o := Act(mgr, link, act);
            Closing(x, Get(o.mgr, id), Flow(Rest(link, act), id), r + Only(o.out, id))
  {
    var o := Act(mgr, link, act);
    OpenAppend(r, Only(o.out, id));
    match act
    case DoCreate(asked, text, memory) => OnlyOne(Message(ChannelId(mgr, asked), Open, Label(text)), id);
    case DoConnect(order) => OpeningsAny(mgr, order, id);
    case DoSend(i, payload) => OnlyOne(Message(i, Data, payload), id);
    case DoShut(i) => OnlyOne(Message(i, Close, []), id);
    case DoReceive(memory) => OtherHears(mgr, link, memory, x, r, id);
  }

  lemma OtherHears(mgr: Manager, link: seq<seq<int>>, memory: bool, x: Option<Channel>, r: seq<Message>, id: int)
    requires Frames(link) && link != [] && Closing(x, Get(mgr, id), Flow(link, id), r)
    ensures var o := Receive(mgr, link[0], memory);
            Closing(x, Get(o.mgr, id), Flow(link[1..], id), r + Only(o.out, id))
  {
    var m, q, o := Decode(link[0]), Flow(link, id), Receive(mgr, link[0], memory);
    FirstOf(link, id);
    if m.Some? && m.value.id == id {
      OpenAppend(r, Only(o.out, id));
      OnlyOne(Message(id, Ack, []), id);
      OpenRest(q);
      HandleClosing(mgr, m.value, memory, q);
    } else {
      ReceiveOther(mgr, link[0], memory, r, id);
    }
  }

  lemma HandleClosing(mgr: Manager, m: Message, memory: bool, q: seq<Message>)
    requires m.id in mgr.channels && q != [] && m == q[0]
    requires q[|q| - 1].kind == Close || (mgr.channels[m.id].status == Closed && !HasOpen(q))
    ensures var o := Handle(mgr, m, memory);
            && m.id in o.mgr.channels && !HasOpen(Only(o.out, m.id))
            && ((q[1..] != [] && q[1..][|q[1..]| - 1].kind == Close)
                || (o.mgr.channels[m.id].status == Closed && !HasOpen(q[1..])))
  {
    OnlyOne(Message(m.id, Ack, []), m.id);
    OpenRest(q);
    if |q| > 1 && q[|q| - 1].kind == Close {
      assert q[1..][|q[1..]| - 1] == q[|q| - 1];
    }
  }

  ghost predicate ClosingAt(w: World, left: bool, id: int)
    requires Frames(w.ab) && Frames(w.ba)
  {
    if left then Closing(Get(w.a, id), Get(w.b, id), Flow(w.ab, id), Flow(w.ba, id))
    else Closing(Get(w.b, id), Get(w.a, id), Flow(w.ba, id), Flow(w.ab, id))
  }

  function End(w: World, left: bool): Manager
  {
    if left then w.a else w.b
  }

  lemma StepCloses(w: World, e: Event, left: bool, id: int)
    requires Inv(w) && Enabled(w, e) && ClosingAt(w, left, id) && LeavesBe(End(w, e.left), e.act, id)
    ensures Inv(Next(w, e)) && ClosingAt(Next(w, e), left, id)
    ensures Get(End(Next(w, e), left), id) == Get(End(w, left), id)
  {
    StepAtId(w, e, id);
    var q, r := Flow(w.ab, id), Flow(w.ba, id);
    if e.left && left {
      ClosedActs(w.a, w.ba, e.act, q, id);
    } else if !e.left && !left {
      ClosedActs(w.b, w.ab, e.act, r, id);
    } else if e.left {
      OtherActs(w.a, w.ba, e.act, Get(w.b, id), q, id);
    } else {
      OtherActs(w.b, w.ab, e.act, Get(w.a, id), r, id);
    }
  }

  /** Throughout the run nobody creates the id again or sends an OPEN for it. */
  ghost predicate LeftAlone(w: World, es: seq<Event>, id: int)
    requires Runs(w, es)
    decreases |es|
  {
    es == [] || (LeavesBe(End(w, es[0].left), es[0].act, id) && LeftAlone(Next(w, es[0]), es[1..], id))
  }

  lemma {:induction false} RunCloses(w: World, es: seq<Event>, left: bool, id: int)
    requires Inv(w) && Runs(w, es) && ClosingAt(w, left, id) && LeftAlone(w, es, id)
    ensures Inv(After(w, es)) && ClosingAt(After(w, es), left, id)
    ensures Get(End(After(w, es), left), id) == Get(End(w, left), id)
    decreases |es|
  {
    if es != [] {
      StepCloses(w, es[0], left, id);
      RunCloses(Next(w, es[0]), es[1..], left, id);
    }
  }

  lemma ShutCloses(w: World, left: bool, id: int)
    requires Inv(w) && id !in w.broken && IsOpen(Get(End(w, left), id))
    requires !HasOpen(Flow(if left then w.ba else w.ab, id))
    ensures var e := Event(left, DoShut(id));
            Enabled(w, e) && Inv(Next(w, e)) && ClosingAt(Next(w, e), left, id)
  {
    var x, y, q, r := Get(w.a, id), Get(w.b, id), Flow(w.ab, id), Flow(w.ba, id);
    assert Both(x, y, q, r);
    StepAtId(w, Event(left, DoShut(id)), id);
    OnlyOne(Message(id, Close, []), id);
  }

  /** Closing an open channel, with no OPEN for it still coming in: in every run
      after that in which nobody opens it again, the end that closed it hands
      nothing over any more, and once nothing is under way both ends are closed. */
  lemma CloseReachesBoth(es: seq<Event>, left: bool, id: int, more: seq<Event>)
    requires Runs(Start, es)
    requires var w := After(Start, es);
             && id !in w.broken && IsOpen(Get(End(w, left), id))
             && Frames(w.ab) && Frames(w.ba) && !HasOpen(Flow(if left then w.ba else w.ab, id))
             && Enabled(w, Event(left, DoShut(id))) && Runs(Next(w, Event(left, DoShut(id))), more)
             && LeftAlone(Next(w, Event(left, DoShut(id))), more, id)
    ensures var w := After(Start, es);
            var w' := After(Next(w, Event(left, DoShut(id))), more);
            && Get(End(w', left), id) == Some(Get(End(w, left), id).value.(status := Closed))
            && Frames(w'.ab) && Frames(w'.ba)
            && (Flow(w'.ab, id) == [] && Flow(w'.ba, id) == [] ==> ShutAt(w', id))
  {
    StartInv();
    RunKeeps(Start, es);
    var w, e := After(Start, es), Event(left, DoShut(id));
    ShutCloses(w, left, id);
    RunCloses(Next(w, e), more, left, id);
  }

  /** Closed at both ends, with nothing under way that could change that. */
  ghost predicate ShutAt(w: World, id: int)
    requires Frames(w.ab) && Frames(w.ba)
  {
    && id in w.a.channels && w.a.channels[id].status == Closed && !HasOpen(Flow(w.ba, id))
    && id in w.b.channels && w.b.channels[id].status == Closed && !HasOpen(Flow(w.ab, id))
  }

  lemma StepStaysShut(w: World, e: Event, id: int)
    requires Inv(w) && Enabled(w, e) && ShutAt(w, id) && LeavesBe(End(w, e.left), e.act, id)
    ensures var w' := Next(w, e);
            Inv(w') && ShutAt(w', id) && Get(w'.a, id) == Get(w.a, id) && Get(w'.b, id) == Get(w.b, id)
  {
    StepAtId(w, e, id);
    if e.left {
      ClosedActs(w.a, w.ba, e.act, Flow(w.ab, id), id);
    } else {
      ClosedActs(w.b, w.ab, e.act, Flow(w.ba, id), id);
    }
  }

  /** Then nothing is handed over at either end, as long as nobody opens it again. */
  lemma {:induction false} RunStaysShut(w: World, es: seq<Event>, id: int)
    requires Inv(w) && Runs(w, es) && ShutAt(w, id) && LeftAlone(w, es, id)
    ensures var w' := After(w, es);
            Inv(w') && ShutAt(w', id) && Get(w'.a, id) == Get(w.a, id) && Get(w'.b, id) == Get(w.b, id)
    decreases |es|
  {
    if es != [] {
      StepStaysShut(w, es[0], id);
      RunStaysShut(Next(w, es[0]), es[1..], id);
    }
  }

  /** A late OPEN opens a channel again that was closed here. */
  lemma LateOpenReopens(mgr: Manager, m: Message, memory: bool)
    requires m.id in mgr.channels && m.kind == Open && mgr.channels[m.id].status == Closed
    ensures IsOpen(Get(Handle(mgr, m, memory).mgr, m.id))
  {
  }
}
